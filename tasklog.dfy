/**
 * The run records shared by the runner and the web front end: a LogEntry is
 * one run of a task, and its TaskState tree holds the status of the task and
 * of each of its steps (taskrunner.go, the records serialised to JSON).
 */
module TaskLog {
  import opened Wrappers

  /** Progress of one task or step. Times are milliseconds since the epoch;
      zero means "not yet". A missing `depends` or `steps` list is empty. */
  datatype TaskState = TaskState(
    name: string,
    depends: seq<string>,
    steps: seq<TaskState>,
    status: string,
    startedAt: int,
    finishedAt: int,
    logFile: string,
    message: string)

  /** One run of a task: its task id, run id, state tree (absent in a
      malformed record) and parameters. */
  datatype LogEntry = LogEntry(
    taskId: string,
    runId: int,
    task: Option<TaskState>,
    params: map<string, string>)
}
