# gotask — a Dafny model of the task runner's core

gotask runs tasks described by YAML or shell files, optionally as a graph of
steps, queues their commands, keeps a log of runs and shows each run's step
graph in a web page. This project models the logic of that core and proves
what it promises:

- **Step graph drawing** (`graph.dfy`, module `Graph`, `static/graph.js`):
  - A `ProcGraph` class holds the nodes in insertion order and an id index.
  - `Build` places every node in a lane and a row using a 7-slot counter array.
  - It routes one connector per resolvable dependency, with detour waypoints
    around congested intermediate lanes.
  - It emits each connector's bezier path tokens and sizes the canvas.
- **Run view** (`taskview.dfy`, module `TaskView`, `static/tasks.js`):
  - `updateGraph` turns a run's steps into graph nodes: colour by status,
    caption, and lane from the first dependency.
  - `formatTime` is modelled with JavaScript's `| 0` truncation and 32-bit
    wrap-around.
- **Decimal text** (`decimal.dfy`, module `Decimal`):
  - Go's integer printing and `strconv.ParseInt(s, 10, 64)`, read left to
    right as Go does: a digit that takes the value past 2^64-1 is a range
    error whatever follows it, a non-digit before that is a syntax error.
  - Round-trip lemmas relate the two.
- **Task configuration** (`task.go`, module `Task`):
  - `FixDependencies` as a method proved equal to a recursive function `Fixed`.
  - The file-name-to-task-id listing of `Manager.Tasks`.
  - `ManagerConfig.FillDefault`, `NewManager` and runtime dispatch.
- **Runner** (`taskrunner.go`, module `TaskRunner`):
  - `RunnerConfig.FillDefault` and the variable overlay of `startInternal`.
  - The step-readiness loop of `tryStartSteps`, specified by a fold with
    closed-form lemmas.
  - The final verdict of `run`.
  - The runner's list of running states, its first-match lookup and its
    removal.
  - The `GetHistory` merge of running entries and log-file entries.
- **Scheduler** (`taskscheduler.go`, module `TaskScheduler`):
  - The schedules list under `Add` and `Remove`.
  - The cron-id bookkeeping of `register` and `unregister`.
- **Queue** (`taskqueue.go`, module `TaskQueue`):
  - The entries table that deduplicates ids, over a bounded FIFO buffer.
  - The unit tests' scenarios, as methods.
- **Shell runner** (`task_shrunner.go`, module `ShRunner`):
  - The exit-code classification.
  - The environment blocks handed to the command.
- **Server** (`server.go`, module `Server`):
  - Form parameters.
  - `runId` and task ids from request paths.
  - The fixed time zone read from `GOTASK_FIXED_TZ`.
  - The default port.

Inputs that the code reads from the world become parameters, for example:
- a directory listing;
- the decoded lines of a log file;
- whether the queue's dispatcher is waiting;
- an exit code;
- whether a run was cancelled;
- whether `Save` succeeded;
- the cron id `AddFunc` returns.

Two routing details, as the code computes them:
- A detour's y is the crossing height rounded to the *nearest* row boundary:
  `((ty + h/2) / h | 0) * h`. It is not the next free row slot.
- The second detour point lies at `0.4` lane widths from the first. That puts
  it at the middle of the lane's column, not near its right edge.

## Model

| member | source | states |
|---|---|---|
| Graph.ToNode | static/graph.js:46 | a node keeps the descriptor's id and lane, and its srcIds become `[]` when absent |
| Graph.IdIndexLastWins | static/graph.js:44-45 | an id is indexed iff it is non-empty and some node carries it; the index names a node with that id and no later node has it (last add wins) |
| Graph.IdIndexInRange | static/graph.js:44-45 | every indexed position is a node of the graph carrying that id |
| Graph.ProcGraph.constructor | static/graph.js:40-43 | a new graph has no nodes and an empty index |
| Graph.ProcGraph.Add | static/graph.js:44-48 | appends the node (srcIds defaulted) at the end; sets `ids[id]` to its position only for a truthy id; nothing else changes |
| Graph.Layouts | static/graph.js:56-71 | placement gives one layout per node |
| Graph.LayoutsAt | static/graph.js:56-64 | node k's layout is fixed by its lane and its row, the number of earlier nodes in the same lane |
| Graph.LayoutsEach | static/graph.js:56-64 | the same, for all nodes at once |
| Graph.PlaceStep | static/graph.js:56-70 | placing one more node appends its layout and box, computed from the current lane counter |
| Graph.PortsOnBox | static/graph.js:58-64 | x = lane*180+4 and y = row*80+30; the input port is at the middle of the box's left side and the output port at the middle of its right side |
| Graph.BoxOf | static/graph.js:57-60 | a node's box is 115 by 50 (the size `svgBox` draws) at its layout's x and y, titled with its id and text, filled with its colour or white when the colour is falsy |
| Graph.Boxes | static/graph.js:56-71 | one box per node |
| Graph.BoxesAt | static/graph.js:56-60 | node k's box is drawn at layout k, with the node's id, text and colour (white when the colour is unset) |
| Graph.CountLaneStep | static/graph.js:70 | adding a node increments exactly its own lane's counter |
| Graph.CountLanePrefix | static/graph.js:70 | lane counters never decrease as nodes are placed |
| Graph.RowsIncreaseInLane | static/graph.js:56-70 | a later node in the same lane has a larger row and sits at least one row pitch lower, so boxes in a lane never overlap |
| Graph.LaneCounts | static/graph.js:51 | there are exactly seven lane counters |
| Graph.LaneCountsSum | static/graph.js:51-71 | after placement the counters add up to the number of nodes |
| Graph.MaxOf | static/graph.js:95 | `Math.max` of the counters: an upper bound that is one of them |
| Graph.CountLaneAtLeastRow | static/graph.js:58-70 | a node's lane ends up with more nodes than the node's row number |
| Graph.BoxesFitCanvas | static/graph.js:95 | every box lies above the bottom of the canvas (height = max counter * 80 + 40) |
| Graph.LaneCountsPositive | static/graph.js:80 | with at least one node the largest counter is positive, so the fan-out division is defined |
| Graph.CrossY | static/graph.js:82 | the interpolated crossing height is non-negative between non-negative end heights |
| Graph.Select | static/graph.js:81 | the lanes the routing loop visits lie strictly between source and destination lane |
| Graph.SelectExact | static/graph.js:81-83 | selected lanes satisfy the test, come in increasing order, and every lane in range that passes it is selected |
| Graph.CollectIsExpand | static/graph.js:81-88 | what the loop appends equals one pair per selected lane, in lane order |
| Graph.ExpandAt | static/graph.js:86 | pair i of the appended points occupies positions 2i and 2i+1 |
| Graph.DetoursShape | static/graph.js:81-87 | the detours are exactly one two-point pair per congested intermediate lane, in lane order; both points share one y (nearest row boundary plus the fan-out offset), at x = l*180+18 and l*180+90 |
| Graph.WaypointsShape | static/graph.js:79-89 | a waypoint list starts at the source's output port, ends at the destination's input port and has 2 + 2*(congested lanes) points; it has exactly 2 when the destination lane is at most one past the source lane |
| Graph.RoutePoints | static/graph.js:79-89 | the loop's waypoint list equals the route's specified waypoints |
| Graph.SvgConnect | static/graph.js:33-36 | the path has 3 tokens for the move plus 7 per later point |
| Graph.SvgConnectShape | static/graph.js:33-36 | the path starts with `M x0 y0`, and token block i is the `C` segment from point i to point i+1 with control points offset by 50 |
| Graph.NodeEdgesLabels | static/graph.js:75-77 | a node's connectors are its resolvable dependencies, one each, in srcIds order |
| Graph.EdgesAreResolvedDeps | static/graph.js:74-93 | all connectors, in node order and then dependency order, are exactly the resolvable (node, srcId) pairs; unresolved ids produce nothing |
| Graph.EdgeForJoinsPorts | static/graph.js:76-90 | a connector leaves the output port of the node its id names and ends at the dependent node's input port |
| Graph.NodeEdgesJoinPorts | static/graph.js:75-92 | the same, for every connector of a node |
| Graph.ProcGraph.RouteEdge | static/graph.js:76-90 | routes one dependency: none when the id is unknown, otherwise the specified connector |
| Graph.ProcGraph.RouteNode | static/graph.js:75-92 | the inner loop yields the node's connectors in dependency order |
| Graph.ProcGraph.RouteAll | static/graph.js:73-93 | the routing pass yields all connectors in node order |
| Graph.ProcGraph.Place | static/graph.js:51-71 | the placement pass assigns each node its layout and box and leaves the counters equal to the per-lane node counts |
| Graph.ProcGraph.Build | static/graph.js:50-96 | rows, box origins and ports of every node, the boxes, all connectors and the canvas height, as specified above; nodes and index unchanged |
| TaskView.ToInt32Wraps | static/tasks.js:20 | `\| 0` yields the 32-bit integer congruent to its argument, and leaves 32-bit values unchanged |
| TaskView.Trunc | static/tasks.js:20 | `\| 0` on a real rounds toward zero |
| TaskView.TruncDiv | static/tasks.js:20 | integer division rounding toward zero |
| TaskView.TwoDigits | static/tasks.js:20 | two decimal digits of a number below 100 |
| TaskView.FloorOfQuotient | static/tasks.js:19-20 | the floor of an exact quotient of naturals is their integer quotient |
| TaskView.SecondsOfMinute | static/tasks.js:19-20 | whole seconds split into minutes and seconds below 60 |
| TaskView.PadSeconds | static/tasks.js:20 | `("0" + s).substr(-2)` for s below 60 is s's two digits |
| TaskView.TruncOfQuotient | static/tasks.js:19-20 | truncating an exact quotient is truncating integer division |
| TaskView.FormatTimeArithmetic | static/tasks.js:18-21 | the minutes field is ms / 60000 and the seconds field the rest in whole seconds, rounding toward zero |
| TaskView.FormatTime | static/tasks.js:18-21 | `formatTime`: the clock text of the minutes and seconds fields computed from the duration (its properties are the FormatTime lemmas) |
| TaskView.Clock | static/tasks.js:20 | minutes as 32-bit integer text, ':', then the last two characters of `"0"` followed by the seconds as 32-bit integer text |
| TaskView.FormatTimeNonNegative | static/tasks.js:18-21 | for non-negative ms, the text is minutes, ':', then the seconds of the minute as exactly two digits |
| TaskView.ClockDigits | static/tasks.js:20 | the text for in-range minutes and seconds is their decimal form with two-digit seconds |
| TaskView.ParseClockOf | static/tasks.js:20 | reading an `m:ss` text gives back its numbers |
| TaskView.FormatTimeParses | static/tasks.js:18-21 | reading the formatted time gives back its minutes and its seconds of the minute |
| TaskView.FormatTimeSeconds | static/tasks.js:18-21 | two durations with the same text agree to the second |
| TaskView.FormatTimeNegative | static/tasks.js:18-21 | negative durations give texts like `0:-5` and `-1:-5` |
| TaskView.ClockNegative | static/tasks.js:20 | a seconds field of -5 keeps its '-' through the two-character cut: `0:-5`, `-1:-5` |
| TaskView.StatusColorIsTable | static/tasks.js:72-85 | the status colour is the table entry for the status, white when it is absent |
| TaskView.StatusColor | static/tasks.js:72-85 | the colour is one of the five status colours or white |
| TaskView.StatusColorTable | static/tasks.js:72-85 | queued `#aaa`, running `#8f8`, finished or success `#6d6` (and only those), failed `#f00`, canceled `#ff6`, and white for exactly every other status |
| TaskView.PickColor | static/tasks.js:72-85 | the if-chain chooses the status colour |
| TaskView.StepsOf | static/tasks.js:67-70 | the displayed steps are the task's steps, or the task itself when it has none |
| TaskView.CaptionShape | static/tasks.js:86-87 | the caption is the status alone until the step has a finish time; then the time follows in parentheses and can be cut out again |
| TaskView.StepNode | static/tasks.js:87-91 | the node added for a step carries the step's name and the lane its first dependency gives |
| TaskView.StepNodes | static/tasks.js:71-92 | one node per step |
| TaskView.StepNodesPrefix | static/tasks.js:71-92 | the nodes for the first k steps do not depend on later steps |
| TaskView.StepNodeAt | static/tasks.js:86-91 | node k is computed against the nodes added before it |
| TaskView.StepLane | static/tasks.js:87-90 | the key is the step's first dependency, or the text `undefined` when it has none; the lane is one past the lane of the last earlier step with that name, and 0 when no earlier step has it; later dependencies and forward references have no effect |
| TaskView.LaneRuleNodes | static/tasks.js:87-90 | the same rule, for a node list whose first k ids are the step names |
| TaskView.LaneRule | static/tasks.js:88-89 | the lookup `graph.ids[srcIds[0]]` finds the last earlier step with that name, or none |
| TaskView.FirstDependency | static/tasks.js:87-88 | the key `graph.ids[o.srcIds[0]]` looks up: the first dependency, or `undefined` (as a property name) when there is none |
| TaskView.LaneAfter | static/tasks.js:88-90 | one past the lane of the node the index gives for that key, or 0 when the key is not indexed |
| TaskView.StepNodeIds | static/tasks.js:87 | node j carries step j's name |
| TaskView.AddStep | static/tasks.js:72-91 | one loop iteration adds exactly the step's node to the graph |
| TaskView.AddSteps | static/tasks.js:71-92 | the loop leaves the graph holding the steps' nodes in order |
| TaskView.UpdateGraph | static/tasks.js:59-97 | no run or no task gives an empty graph and no drawing; otherwise the graph holds the steps' nodes and the drawing is Build's |
| Decimal.DigitChar | taskrunner.go:321 | a digit below 10 is one decimal character of that value |
| Decimal.NatToString | taskrunner.go:321 | decimal text is non-empty, all digits, without leading zero |
| Decimal.IntToString | taskrunner.go:321 | `fmt.Sprint` of an integer: a '-' exactly for negatives, then the digits of its magnitude |
| Decimal.NatToStringValue | taskrunner.go:321 | the digits of n have value n |
| Decimal.NatToStringTwoDigits | static/tasks.js:20 | a number from 10 to 99 is written with its two digits |
| Decimal.NatToStringInjective | taskrunner.go:289 | distinct numbers have distinct decimal text |
| Decimal.ParseInt | server.go:46 | `strconv.ParseInt(s, 10, 64)`: a value in 64-bit range, the clamped bound on overflow, or a syntax error (always for the empty text) |
| Decimal.DigitPrefix | server.go:46 | the longest run of digits at the start of a text: a prefix, all digits, stopped by a non-digit or the end |
| Decimal.ParseDigits | server.go:46 | after the sign: the value in range, the bound of the sign when it overflows, a syntax error for an empty body |
| Decimal.ParseIntOverflowFirst | server.go:46 | digits whose value passes 2^64-1 give the range error with the sign's bound, whatever text follows them |
| Decimal.ParseIntSyntaxFirst | server.go:46 | a non-digit after digits that still fit in 64 unsigned bits is a syntax error |
| Decimal.ParseIntOverflowExample | server.go:46 | `99999999999999999999x` gives the range error with the largest int64, and with a '-' the smallest |
| Decimal.ParseIntToString | server.go:46 | parsing the decimal text of any 64-bit integer gives it back |
| Task.StepSmaller | task.go:42 | each step is smaller than its config, so the recursion terminates |
| Task.Fixed | task.go:41-52 | fixing keeps the number of steps |
| Task.FixedIgnoresDepends | task.go:41-52 | fixing does not look at a config's own depends |
| Task.FixDependencies | task.go:41-52 | the loop with its recursion computes `Fixed` |
| Task.FixedStep | task.go:43-49 | a sequential config's step 0 gets no depends and step i>0 gets the previous step's name; otherwise depends stay; names and the config's own fields stay |
| Task.FixedIdempotent | task.go:41-52 | fixing twice equals fixing once |
| Task.ExtIsSuffix | task.go:164 | `filepath.Ext` is empty or a suffix of the name that starts at its last '.' and holds no '/' |
| Task.ExtOfSuffix | task.go:164 | a name ending in `.ext` (no further '.' or '/') has extension `.ext` |
| Task.Ext | task.go:164 | `filepath.Ext`: the suffix from the last '.' of the final path element, or empty; never longer than the name |
| Task.IndexOfFirst | task.go:170 | `strings.Index` finds the first occurrence, and -1 means none |
| Task.EntryIds | task.go:162-173 | one optional id per directory entry |
| Task.ReadEntry | task.go:163-173 | one iteration: a skipped entry gives none, a listed one its task id |
| Task.Tasks | task.go:158-181 | the loop with its `exists` table computes the first occurrences of the listed ids |
| Task.TaskIdsExactly | task.go:162-179 | an id is listed iff some regular `.yaml` or `.sh` file not starting with '.' or '_' gives it |
| Task.FirstOccurrencesExactly | task.go:174-178 | an id is kept iff it occurs |
| Task.FirstOccurrencesDistinct | task.go:174-178 | the ids listed are distinct |
| Task.FirstIndex | task.go:174-178 | the first position of a present element |
| Task.FirstIndexInPrefix | task.go:174-178 | the first position is the same in any prefix that holds the element |
| Task.FirstOccurrencesOrdered | task.go:174-178 | ids are listed in the order of their first occurrence |
| Task.TaskIdExamples | task.go:168-173 | `a.1.sh` gives `a`, `deploy.sh` gives `deploy`, `a.b.yaml` gives `a.b` |
| Task.ListedExamples | task.go:165 | non-regular files, names starting with '_' or '.', and other extensions are skipped |
| Task.Listed | task.go:165 | an entry is listed iff it is a regular file with extension `.yaml` or `.sh` whose name does not start with '.' or '_' |
| Task.TaskIdOf | task.go:168-173 | the task id is a prefix of the name: the name without its extension, cut at its first '.' for a shell script |
| Task.ManagerConfig.constructor | task.go:66-68 | a config holds the tasks directory it is given |
| Task.FilledTasksDir | task.go:74-76 | an empty directory becomes `./tasks`; any other stays |
| Task.FillManagerDefaults | task.go:70-78 | nil gives a fresh config with `./tasks`; otherwise the same config, its directory filled |
| Task.FilledTasksDirIdempotent | task.go:70-78 | filling twice equals filling once; the result is `./tasks` exactly for the empty text and `./tasks` itself |
| Task.Manager.constructor | task.go:84-86 | a manager's directory is the filled directory of its config |
| Task.RuntimeOf | task.go:54-60 | runtime `js` runs under the JavaScript runner; every other runtime runs under the shell runner |
| TaskRunner.RunnerConfig.constructor | taskrunner.go:16-22 | a config holds the queue size, log directory and parallelism it is given |
| TaskRunner.FilledText | taskrunner.go:28-30 | an empty text takes the default; any other stays |
| TaskRunner.FilledNumber | taskrunner.go:31-36 | zero takes the default; any other number stays |
| TaskRunner.FillRunnerDefaults | taskrunner.go:24-38 | nil gives a fresh config; log directory `./logs`, queue size 100 and parallelism 8 replace only empty or zero values |
| TaskRunner.FilledSettings | taskrunner.go:24-38 | filling is idempotent and never leaves an empty or zero setting |
| TaskRunner.NewTaskLog | taskrunner.go:334-339 | a step record starts with the config's name and depends; its steps, status, log file and message are empty and both timestamps 0 |
| TaskRunner.OverlaidProperties | taskrunner.go:126-130 | a param replaces a variable only where the variable exists and is non-nil; no key is added; overlaying twice equals once |
| TaskRunner.OverlayParams | taskrunner.go:126-130 | the loop over the params computes the overlay |
| TaskRunner.StepLogs | taskrunner.go:123-125 | one fresh record per step, in order |
| TaskRunner.StartInternal | taskrunner.go:114-137 | the step records are appended, the variables overlaid and the status set to `queued` |
| TaskRunner.IsReady | taskrunner.go:206-212 | a step is ready iff every dependency names a step record whose status is `success` |
| TaskRunner.Ready | taskrunner.go:206-212 | a step may start iff every dependency has a step record with status `success`; a dependency with no record blocks it |
| TaskRunner.Advance | taskrunner.go:201-225 | one iteration of the pass: an already started or not ready child leaves everything as it is; otherwise the child inherits the directory, its position is appended to the started list and its name maps to false |
| TaskRunner.Launches | taskrunner.go:201-230 | the loop keeps the number of children |
| TaskRunner.TryStartSteps | taskrunner.go:199-232 | the loop computes the specified launch, and its count is the number of children started |
| TaskRunner.LaunchOrder | taskrunner.go:201 | children start in config order, each at most once |
| TaskRunner.AdvanceNames | taskrunner.go:222-224 | one iteration keeps the table's names as specified |
| TaskRunner.LaunchNames | taskrunner.go:202-224 | the table holds the old names plus the names of the children started |
| TaskRunner.LaunchName | taskrunner.go:202-224 | a name is in the table afterwards iff it was before or an earlier ready child carried it |
| TaskRunner.AdvanceStarts | taskrunner.go:201-215 | one iteration keeps the started set as specified |
| TaskRunner.LaunchStarts | taskrunner.go:201-215 | exactly the children not yet in the table and with all dependencies successful are started, a missing dependency blocking |
| TaskRunner.LaunchTable | taskrunner.go:222-224 | old table values stay; every new name maps to false |
| TaskRunner.AdvanceCount | taskrunner.go:224-225 | one iteration keeps the count equal to the new names |
| TaskRunner.LaunchCount | taskrunner.go:224-225 | the number started equals the number of names added to the table |
| TaskRunner.AdvanceChildren | taskrunner.go:217-219 | one iteration gives only the started child the parent's directory |
| TaskRunner.LaunchChildren | taskrunner.go:217-219 | a started child with an empty directory inherits the parent's; other children are untouched |
| TaskRunner.AllSucceeded | taskrunner.go:265-270 | the loop reports whether every step's status is `success` |
| TaskRunner.Conclude | taskrunner.go:258-330 | the post has three outcomes: no entry, a fresh entry, or the entry already queued under the run's task id (the queue hands it back, taskqueue.go:108-110); in the last case, after successful steps, the run only waits: its status stays as the steps left it (`running` when it has steps) and nothing else changes except the start time; otherwise the final status is `canceled`, `success` or `failed` for exactly the stated combinations of cancellation, step outcome, post outcome and exit code, with the matching message and log file, and no other field changes |
| TaskRunner.LogFileOf | taskrunner.go:289 | the log file `taskId/runId_name.log` lies in the task's directory and ends in `.log` |
| TaskRunner.RunState.constructor | taskrunner.go:61-68 | a running state holds its log entry |
| TaskRunner.RemoveFirstAt | taskrunner.go:380-385 | removing the first occurrence at i keeps the entries before and after it in order |
| TaskRunner.RemoveFirstAbsent | taskrunner.go:380-385 | removing an absent state changes nothing |
| TaskRunner.RemoveFirstCount | taskrunner.go:380-385 | removal takes away exactly one occurrence |
| TaskRunner.RemoveFirst | taskrunner.go:380-385 | finishTask's removal: one element shorter when the state is present, the same length otherwise |
| TaskRunner.Reverse | taskrunner.go:190-191 | newest first: the same entries in reverse order |
| TaskRunner.HistoryCount | taskrunner.go:190-195 | at least one file entry when there are any, and stopping exactly when the limit is reached or the entries run out |
| TaskRunner.Runner.constructor | taskrunner.go:82-91 | a runner starts with no running states, limit 100 and the filled log directory |
| TaskRunner.Runner.AddTask | taskrunner.go:341-345 | appends the state to the running list |
| TaskRunner.Runner.GetRunningTask | taskrunner.go:361-370 | returns the first state matching both task id and run id, and null iff there is none |
| TaskRunner.Runner.FinishTask | taskrunner.go:372-386 | removes the first occurrence of the state from the running list |
| TaskRunner.Runner.RunningTasks | taskrunner.go:157-167 | the log entries of the running states of that task, in list order |
| TaskRunner.Runner.GetHistory | taskrunner.go:169-197 | without a log file, the running entries; otherwise the running entries, then the decoded file entries newest first, cut as the limit demands |
| TaskRunner.DecodeLines | taskrunner.go:180-189 | keeps the lines that decode and carry a task, in file order |
| TaskRunner.AppendNewest | taskrunner.go:190-195 | the bounded loop appends the newest entries as specified |
| TaskRunner.HistoryShape | taskrunner.go:169-197 | running entries come first, then file entries newest first; one file entry at least when any exist; the list is shorter than the limit only when it has all entries |
| TaskScheduler.SchedEntry.constructor | taskscheduler.go:77 | a new entry has its task and schedule and no cron id |
| TaskScheduler.FirstFor | taskscheduler.go:84-85 | the position of the first entry for the task, or the length when there is none |
| TaskScheduler.RemoveForAbsent | taskscheduler.go:83-93 | without an entry for the task nothing is removed |
| TaskScheduler.RemoveForPresent | taskscheduler.go:84-87 | with one, exactly the first is removed and the others keep their order |
| TaskScheduler.SpliceAt | taskscheduler.go:87 | splicing out position i shifts the later entries down by one |
| TaskScheduler.RemoveForUnique | taskscheduler.go:83-93 | with one entry per task, removal leaves none for the task and keeps the others unique |
| TaskScheduler.AddKeepsUnique | taskscheduler.go:75-81 | Add keeps at most one entry per task |
| TaskScheduler.Scheduler.constructor | taskscheduler.go:69-73 | a scheduler starts with no entries |
| TaskScheduler.Scheduler.Schedules | taskscheduler.go:69-73 | the copy has the same entries in the same order |
| TaskScheduler.Scheduler.Register | taskscheduler.go:95-106 | an entry that already has a cron id keeps it; otherwise it takes the new one |
| TaskScheduler.Scheduler.Unregister | taskscheduler.go:108-114 | afterwards the entry has no cron id |
| TaskScheduler.Scheduler.Remove | taskscheduler.go:83-93 | removes the first entry for the task and clears its cron id and no other; true iff there was one and it was saved |
| TaskScheduler.Scheduler.Add | taskscheduler.go:75-81 | the task's first entry is removed and its cron id cleared, every other old entry keeps its cron id, and the new entry is appended last with the given cron id; uniqueness is kept |
| TaskQueue.QueueEntry.constructor | taskqueue.go:112 | a new entry has its id and is not done |
| TaskQueue.Queue.constructor | taskqueue.go:20-25 | a new queue has capacity queueLen, an empty buffer and an empty entries table |
| TaskQueue.Queue.Send | taskqueue.go:63-68 | a send hands the entry to a waiting receiver or appends it to the buffer |
| TaskQueue.Queue.PostTask | taskqueue.go:63-74 | a non-blocking post fails iff no send can complete, and then changes nothing |
| TaskQueue.Queue.AddTaskState | taskqueue.go:104-126 | a known id returns its entry with false and changes nothing; a failed post returns null with the table unchanged; a successful post sends a fresh entry and records it under a non-empty id only |
| TaskQueue.Queue.PostWithId | taskqueue.go:128-130 | a blocking post of a new id always succeeds |
| TaskQueue.Queue.TryPostWithId | taskqueue.go:132-134 | a non-blocking post succeeds iff the id is new and a send can complete |
| TaskQueue.Queue.Take | taskqueue.go:45 | the dispatcher receives the oldest buffered entry |
| TaskQueue.Queue.Finish | taskqueue.go:96-102 | the entry is done and its id leaves the table |
| TaskQueue.DuplicateIdRunsOnce | taskqueue_test.go:31-56 | a second post of the same id is refused and returns the first entry; another id is accepted |
| TaskQueue.AnonymousPostsAllRun | taskqueue_test.go:10-29 | posts with the empty id are all accepted and never recorded |
| TaskQueue.ZeroCapacity | taskqueue_test.go:58-77 | with no buffer, a post succeeds while the dispatcher waits and fails with null after that |
| TaskQueue.FinishAllowsRepost | taskqueue.go:96-102 | once an entry finishes, its id is accepted again |
| ShRunner.ShResultClasses | task_shrunner.go:29-33 | success iff the code is 0; canceled only when not successful, never with the default canceled code 0; a message iff not successful |
| ShRunner.ShMessageCode | task_shrunner.go:32 | the message is the prefix followed by the code's decimal text, which parses back to the code |
| ShRunner.ShResult | task_shrunner.go:29-33 | the result of exit code `code`: never both successful and canceled, and successful exactly when the message is empty |
| ShRunner.LinesIn | task_shrunner.go:20-25 | one `name=value` line per key, in the given order |
| ShRunner.AppendLines | task_shrunner.go:20-22 | the loop keeps the lines it starts from and appends exactly one `name=value` line per map key, every key's line among them, in some order of the keys |
| ShRunner.LinesInHas | task_shrunner.go:20-25 | every key of the chosen order has its line in the block |
| ShRunner.BuildEnv | task_shrunner.go:15-25 | the environment, then every config variable, then every param, as blocks |
| Server.ParamNameSpec | server.go:86-93 | `VARS.k` and `PARAMS.k` name parameter k; other keys name nothing |
| Server.ParamName | server.go:87-93 | the name a form key sets is a proper suffix of the key (the part after `VARS.` or `PARAMS.`), and other keys set none |
| Server.ExtractParams | server.go:50-60 | the params are the task's variables overridden by the first value of each prefixed form key; nothing else is added |
| Server.ExtractedValue | server.go:54-59 | a prefixed form key with no rival for its name sets that param to its first value |
| Server.RunIdOf | server.go:46 | the run id is a 64-bit integer |
| Server.RunIdOfText | server.go:45-48 | the decimal text of a run id parses back to it; a missing field or one that is not a number gives 0 |
| Server.RunIdOfOverflow | server.go:46 | digits that overflow give the bound of their sign even when a non-digit follows |
| Server.PathTaskIdSpec | server.go:106 | the task id is the longest prefix of the path without '/', followed by '/' or the end |
| Server.PathTaskIdOfSuffix | server.go:106-110 | `id/rest` and `id` both give id |
| Server.PathTaskId | server.go:106 | the task id is a prefix of the path holding no '/' |
| Server.LastSign | server.go:159 | `strings.LastIndexAny(tz, "+-")`: the last sign's position, or -1 |
| Server.Wrap64 | server.go:161 | 64-bit wrap-around, the identity in range |
| Server.OffsetSeconds | server.go:161 | `-offset*3600` on Go int: the seconds east of UTC, within the 64-bit range |
| Server.LastSignAppend | server.go:159 | a suffix without signs does not move the last sign |
| Server.SignedHoursValue | server.go:160 | a sign followed by digits parses to the signed number |
| Server.SignedHours | server.go:159-160 | the last sign of `name±h` is the one before h, and the number there parses to ±h |
| Server.FixedZoneAt | server.go:159-161 | the zone's offset is minus the parsed number times 3600, wrapped to 64 bits |
| Server.NoWrap | server.go:161 | offsets of hours below 2^32 do not wrap |
| Server.FixedZoneSigned | server.go:158-162 | `name-h` gives offset h*3600 and `name+h` gives -h*3600 |
| Server.FixedZoneOffset | server.go:158-162 | the same for both signs; without a sign no zone is set |
| Server.FixedZoneJst | server.go:158-162 | `JST-9` gives offset +32400 |
| Server.FixedZoneNotANumber | server.go:158-162 | a sign not followed by a number gives offset 0 |
| Server.FixedZoneOverflow | server.go:158-162 | an hour count that overflows is the sign's bound whatever follows, and its seconds wrap: after '+' one hour east, after '-' UTC |
| Server.FixedZoneOverflowSigned | server.go:158-162 | the offset of an overflowing hour count is minus the sign's bound times 3600, wrapped to 64 bits |
| Server.FixedZoneClamped | server.go:159-161 | an overflowing number after the last sign counts as its bound |
| Server.BoundHours | server.go:161 | `-offset*3600` wraps to 3600 for the largest int64 and to 0 for the smallest |
| Server.FixedZoneOverflowExample | server.go:158-162 | `X+99999999999999999999h` gives offset 3600 |
| Server.FixedZone | server.go:158-162 | a zone is set iff the text has a sign; it is named by the whole text and its offset lies in the 64-bit range |
| Server.PortOrDefault | server.go:169-172 | an empty port becomes `8080`; any other stays |
| Server.StartUp | server.go:157-185 | the local zone is the fixed zone of `GOTASK_FIXED_TZ` and the address is host, ':' and the port |

## Left out

- DOM and SVG element creation: box children, the arrow marker, click handlers, `elem.init`, and the viewBox string (static/graph.js:5-30, 54-55, 60, 65-69, 96-99). A box is a record and a connector is its waypoints plus path tokens.
- Graph.ProcGraph.Build: requires every lane below 7, the size of the counter array. Larger lanes would index past it in JavaScript. An undefined lane is not modelled either: a lane is always a natural number, as tasks.js sets it.
- Floating point: connector coordinates are exact reals and `| 0` is the floor of a non-negative value. Rounding of the detour heights is not modelled. `formatTime`'s `t / 1000` and `t / 60` are exact rational quotients too, so double rounding of very large durations is not modelled.
- Node ids are strings; JavaScript object-prototype keys such as `constructor` are not modelled.
- tasks.js outside `updateGraph` and `formatTime`: fetch, forms, timers, popups, `formatDate` and filtering. static/schedule.js is not part of this model.
- Concurrency: goroutines, channels, mutexes, `sync.Once`, wait groups, the queue's dispatcher loop and semaphore (`Start`, `Wait`), `Runner.Stop` and `Runner.Wait`. Cancellation enters only as booleans given to `Conclude`.
- TaskQueue.Queue.PostWithId: requires that the send can complete. A blocking send that waits for room is not modelled.
- TaskRunner.Conclude: models the verdict and messages, not the start and finish timestamps. The steps' records are taken as they stand once the steps are over.
- ShRunner.BuildEnv: takes params as text already formatted, a `map<string, string>`. The source holds them as `map[string]any` and formats each value with `%v` (task_shrunner.go:11, 23-24; taskrunner.go:304-305); that formatting of non-string values is not modelled.
- Process execution, file I/O, JSON and YAML decoding: `Load`, `loadYAML`, `loadSh`, `loadJs`, `appendLog`, the log file's 64 KiB seek. The directory listing and the decoded log lines are parameters.
- Scheduler `Save`, `Reload`, `Start`, `Set` and `GetSchedule`: `Save`'s success is a parameter of `Remove` and `Add`.
- The cron library: the id `AddFunc` returns is a parameter of `Register` and `Add`. The scheduled callback is not modelled.
- The JavaScript runtime (goja and its modules) and `RunJs`: `RuntimeOf` only says which runner a config goes to.
- HTTP plumbing, JSON responses and the handling of `task.Run`'s result in `invoke`.
- The default branch of `handlePostTask` (server.go:86-100): it calls `runner.Start` with a signature that taskrunner.go does not have. Its param extraction is the same as `invoke`'s, which is modelled.
- Go map iteration order: the contracts about form values, `Env`, `Variables` and params in the environment say "in some order of the keys", never a particular order.
- `time.Now`: run ids and timestamps.
- Pointers between configs and step records are modelled as values: there is no aliasing between steps.
