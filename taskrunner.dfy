/**
 * The task runner (taskrunner.go): runner defaults, the preparation of a run
 * (parameter overlay and per-step records), the rule that starts the steps
 * whose dependencies have succeeded, the final status of a run, and the
 * runner's list of running tasks together with the run history read back
 * from the task's log file.
 *
 * Goroutines, channels and locks are not modelled: the statuses the steps
 * reached, whether the run was cancelled, whether the queue accepted the
 * command and the command's exit code are inputs.
 */
module TaskRunner {
  import opened Wrappers
  import opened Decimal
  import opened TaskLog
  import opened Task

  // --------------------------------------------------------------- defaults

  const DefaultLogDir: string := "./logs"
  const DefaultQueueSize: int := 100
  const DefaultParallel: int := 8
  /** The runner's recentLimit. */
  const RecentLimit: int := 100

  class RunnerConfig {
    var queueSize: int
    var logDir: string
    var parallel: int

    constructor (queueSize: int, logDir: string, parallel: int)
      ensures this.queueSize == queueSize && this.logDir == logDir && this.parallel == parallel
    {
      this.queueSize := queueSize;
      this.logDir := logDir;
      this.parallel := parallel;
    }
  }

  /** A string setting after FillDefault: empty means the default. */
  function FilledText(s: string, default: string): (r: string)
    ensures s != [] ==> r == s
    ensures s == [] ==> r == default
  {
    if s == "" then default else s
  }

  /** A number setting after FillDefault: zero means the default. */
  function FilledNumber(n: int, default: int): (r: int)
    ensures n != 0 ==> r == n
    ensures n == 0 ==> r == default
  {
    if n == 0 then default else n
  }

  /** RunnerConfig.FillDefault: a missing configuration becomes a new one;
      an empty LogDir becomes "./logs", a zero QueueSize 100 and a zero
      Parallel 8, and every other value is kept. */
  method FillRunnerDefaults(conf: RunnerConfig?) returns (r: RunnerConfig)
    modifies conf
    ensures conf != null ==> r == conf
    ensures conf == null ==> fresh(r)
    ensures r.logDir == FilledText(if conf == null then "" else old(conf.logDir), DefaultLogDir)
    ensures r.queueSize == FilledNumber(if conf == null then 0 else old(conf.queueSize), DefaultQueueSize)
    ensures r.parallel == FilledNumber(if conf == null then 0 else old(conf.parallel), DefaultParallel)
  {
    if conf == null {
      r := new RunnerConfig(0, "", 0);
    } else {
      r := conf;
    }
    if r.logDir == "" {
      r.logDir := DefaultLogDir;
    }
    if r.queueSize == 0 {
      r.queueSize := DefaultQueueSize;
    }
    if r.parallel == 0 {
      r.parallel := DefaultParallel;
    }
  }

  /** Filled settings are never the "unset" value, and filling is idempotent. */
  lemma FilledSettings(s: string, n: int)
    ensures FilledText(FilledText(s, DefaultLogDir), DefaultLogDir) == FilledText(s, DefaultLogDir) != []
    ensures FilledNumber(FilledNumber(n, DefaultQueueSize), DefaultQueueSize) == FilledNumber(n, DefaultQueueSize) != 0
    ensures FilledNumber(FilledNumber(n, DefaultParallel), DefaultParallel) == FilledNumber(n, DefaultParallel) != 0
  {
  }

  // ------------------------------------------------------ preparing a run

  /** The record a configuration starts a run with: its name and dependencies. */
  function NewTaskLog(c: TaskConfig): (t: TaskState)
    ensures t.name == c.name && t.depends == c.depends
    ensures t.steps == [] && t.status == "" && t.startedAt == 0 && t.finishedAt == 0
    ensures t.logFile == "" && t.message == ""
  {
    TaskState(c.name, c.depends, [], "", 0, 0, "", "")
  }

  /** The variables after the run's parameters are laid over them: only a
      variable that exists with a non-nil value takes the parameter's value. */
  function Overlaid(vars: map<string, Value>, params: map<string, string>): map<string, Value> {
    map k | k in vars :: if k in params && vars[k] != Nil then Val(params[k]) else vars[k]
  }

  /** The overlay keeps the set of variables, never sets a nil or missing
      variable, and laying the same parameters over twice changes nothing
      more. */
  lemma OverlaidProperties(vars: map<string, Value>, params: map<string, string>)
    ensures Overlaid(vars, params).Keys == vars.Keys
    ensures forall k :: k in vars && vars[k] == Nil ==> Overlaid(vars, params)[k] == Nil
    ensures forall k :: k in vars && k !in params ==> Overlaid(vars, params)[k] == vars[k]
    ensures forall k :: k in vars && k in params && vars[k] != Nil ==> Overlaid(vars, params)[k] == Val(params[k])
    ensures Overlaid(Overlaid(vars, params), params) == Overlaid(vars, params)
  {
    var o := Overlaid(vars, params);
    assert o.Keys == vars.Keys;
    forall k | k in o ensures Overlaid(o, params)[k] == o[k] {
    }
  }

  /** The overlay loop of startInternal. */
  method OverlayParams(vars: map<string, Value>, params: map<string, string>) returns (r: map<string, Value>)
    ensures r == Overlaid(vars, params)
  {
    r := vars;
    var keys := params.Keys;
    while keys != {}
      invariant keys <= params.Keys && r.Keys == vars.Keys
      invariant forall k :: k in vars ==>
        r[k] == if k in params && k !in keys && vars[k] != Nil then Val(params[k]) else vars[k]
      decreases keys
    {
      var k :| k in keys;
      if k in r && r[k] != Nil {
        r := r[k := Val(params[k])];
      }
      keys := keys - {k};
    }
  }

  /** The per-step records of a run, in step order. */
  function StepLogs(steps: seq<TaskConfig>): (ls: seq<TaskState>)
    ensures |ls| == |steps|
    ensures forall i :: 0 <= i < |steps| ==> ls[i] == NewTaskLog(steps[i])
  {
    if steps == [] then [] else StepLogs(steps[..|steps| - 1]) + [NewTaskLog(steps[|steps| - 1])]
  }

  /** startInternal, without the goroutine it starts: a record per step is
      appended to the run's record, the parameters are laid over the
      variables, and the run is queued. */
  method StartInternal(config: TaskConfig, params: map<string, string>, log: TaskState)
    returns (config': TaskConfig, log': TaskState)
    ensures config' == config.(variables := Overlaid(config.variables, params))
    ensures log'.steps == log.steps + StepLogs(config.steps)
    ensures log' == log.(steps := log'.steps, status := "queued")
  {
    var steps := log.steps;
    var i := 0;
    while i < |config.steps|
      invariant 0 <= i <= |config.steps|
      invariant steps == log.steps + StepLogs(config.steps[..i])
    {
      assert config.steps[..i + 1][..i] == config.steps[..i];
      steps := steps + [NewTaskLog(config.steps[i])];
      i := i + 1;
    }
    assert config.steps[..i] == config.steps;
    var vars := OverlayParams(config.variables, params);
    config' := config.(variables := vars);
    log' := log.(steps := steps, status := "queued");
  }

  // --------------------------------------------------------- starting steps

  /** A step may start once every step it depends on is known and succeeded;
      a dependency with no record blocks it. */
  predicate Ready(child: TaskConfig, steps: map<string, TaskState>) {
    forall d :: d in child.depends ==> d in steps && steps[d].status == "success"
  }

  /** The readiness loop of tryStartSteps. */
  method IsReady(child: TaskConfig, steps: map<string, TaskState>) returns (ready: bool)
    ensures ready == Ready(child, steps)
  {
    ready := true;
    var i := 0;
    while i < |child.depends|
      invariant 0 <= i <= |child.depends|
      invariant ready == forall j :: 0 <= j < i ==>
        child.depends[j] in steps && steps[child.depends[j]].status == "success"
    {
      var d := child.depends[i];
      if d !in steps || steps[d].status != "success" {
        ready := false;
      }
      i := i + 1;
    }
  }

  /** A started step without a directory runs in its parent's. */
  function Inherit(child: TaskConfig, parentDir: string): TaskConfig {
    if child.dir == "" then child.(dir := parentDir) else child
  }

  /** The steps after a pass of tryStartSteps, the positions of the steps it
      started in order, and the started-steps table. */
  datatype Launch = Launch(children: seq<TaskConfig>, started: seq<nat>, state: map<string, bool>)

  /** One step of the pass: the step at position `i`, whose readiness is
      `ready`, is started unless its name is already in the table. */
  function Advance(p: Launch, c: TaskConfig, i: nat, parentDir: string, ready: bool): Launch
    requires i < |p.children|
  {
    if c.name in p.state || !ready then p
    else Launch(p.children[i := Inherit(c, parentDir)], p.started + [i], p.state[c.name := false])
  }

  /** The fields of one step of the pass. */
  lemma AdvanceFields(p: Launch, c: TaskConfig, i: nat, parentDir: string, ready: bool)
    requires i < |p.children|
    ensures var l := Advance(p, c, i, parentDir, ready);
      var go := c.name !in p.state && ready;
      && l.children == (if go then p.children[i := Inherit(c, parentDir)] else p.children)
      && l.started == (if go then p.started + [i] else p.started)
      && l.state == (if go then p.state[c.name := false] else p.state)
  {
  }

  /** The pass of tryStartSteps over the first `n` steps. */
  function Launches(children: seq<TaskConfig>, parentDir: string, steps: map<string, TaskState>,
                    state: map<string, bool>, n: nat): (l: Launch)
    requires n <= |children|
    ensures |l.children| == |children|
  {
    if n == 0 then Launch(children, [], state)
    else
      Advance(Launches(children, parentDir, steps, state, n - 1), children[n - 1], n - 1, parentDir,
              Ready(children[n - 1], steps))
  }

  /** runState.tryStartSteps: starts every step that is not yet in the
      started-steps table and is ready, and returns how many it started. */
  method TryStartSteps(children: seq<TaskConfig>, parentDir: string, steps: map<string, TaskState>,
                       stepsState: map<string, bool>)
    returns (children': seq<TaskConfig>, started: seq<nat>, stepsState': map<string, bool>, startCount: nat)
    ensures Launch(children', started, stepsState') == Launches(children, parentDir, steps, stepsState, |children|)
    ensures startCount == |started|
  {
    children', started, stepsState', startCount := children, [], stepsState, 0;
    var i := 0;
    while i < |children|
      invariant 0 <= i <= |children|
      invariant Launch(children', started, stepsState') == Launches(children, parentDir, steps, stepsState, i)
      invariant startCount == |started|
    {
      var child := children[i];
      if child.name in stepsState' {
        i := i + 1;
        continue;
      }
      var ready := IsReady(child, steps);
      if !ready {
        i := i + 1;
        continue;
      }
      if child.dir == "" {
        child := child.(dir := parentDir);
      }
      children' := children'[i := child];
      started := started + [i];
      stepsState' := stepsState'[child.name := false];
      startCount := startCount + 1;
      i := i + 1;
    }
  }

  /** The step at position `i` is started exactly when it is ready, its name
      was not in the table before, and no earlier ready step has its name. */
  predicate StartsAt(children: seq<TaskConfig>, steps: map<string, TaskState>, state: map<string, bool>, i: nat)
    requires i < |children|
  {
    && Ready(children[i], steps)
    && children[i].name !in state
    && forall j :: 0 <= j < i ==> !(children[j].name == children[i].name && Ready(children[j], steps))
  }

  /** Started positions are below `n` and listed in increasing order. */
  predicate OrderedBelow(l: Launch, n: nat) {
    && (forall i :: i in l.started ==> i < n)
    && (forall a, b :: 0 <= a < b < |l.started| ==> l.started[a] < l.started[b])
  }

  lemma {:induction false} LaunchOrder(children: seq<TaskConfig>, parentDir: string, steps: map<string, TaskState>,
                                       state: map<string, bool>, n: nat)
    requires n <= |children|
    ensures OrderedBelow(Launches(children, parentDir, steps, state, n), n)
  {
    if n > 0 {
      LaunchOrder(children, parentDir, steps, state, n - 1);
      var p := Launches(children, parentDir, steps, state, n - 1);
      var c := children[n - 1];
      AdvanceFields(p, c, n - 1, parentDir, Ready(c, steps));
      if c.name !in p.state && Ready(c, steps) {
        var l := Launches(children, parentDir, steps, state, n);
        assert l.started == p.started + [n - 1];
        forall a, b | 0 <= a < b < |l.started| ensures l.started[a] < l.started[b] {
          assert l.started[a] == p.started[a] && p.started[a] in p.started;
        }
      }
    }
  }

  /** A name is in the table after the pass exactly when it was before or a
      ready step among the first `n` has it. */
  ghost predicate NamesAfter(l: Launch, children: seq<TaskConfig>, steps: map<string, TaskState>,
                       state: map<string, bool>, n: nat)
    requires n <= |children|
  {
    forall k :: k in l.state <==> k in state || exists j :: 0 <= j < n && children[j].name == k && Ready(children[j], steps)
  }

  lemma AdvanceNames(p: Launch, children: seq<TaskConfig>, i: nat, parentDir: string,
                     steps: map<string, TaskState>, state: map<string, bool>)
    requires i < |children| && i < |p.children| && NamesAfter(p, children, steps, state, i)
    ensures NamesAfter(Advance(p, children[i], i, parentDir, Ready(children[i], steps)), children, steps, state, i + 1)
  {
  }

  lemma {:induction false} LaunchNames(children: seq<TaskConfig>, parentDir: string, steps: map<string, TaskState>,
                                       state: map<string, bool>, n: nat)
    requires n <= |children|
    ensures NamesAfter(Launches(children, parentDir, steps, state, n), children, steps, state, n)
  {
    if n > 0 {
      LaunchNames(children, parentDir, steps, state, n - 1);
      AdvanceNames(Launches(children, parentDir, steps, state, n - 1), children, n - 1, parentDir, steps, state);
    }
  }

  /** A ready step before position `i` has the name `k`. */
  ghost predicate PrecededBy(children: seq<TaskConfig>, steps: map<string, TaskState>, i: nat, k: string)
    requires i <= |children|
  {
    exists j :: 0 <= j < i && children[j].name == k && Ready(children[j], steps)
  }

  /** LaunchNames for one name. */
  lemma LaunchName(children: seq<TaskConfig>, parentDir: string, steps: map<string, TaskState>,
                   state: map<string, bool>, n: nat, k: string)
    requires n <= |children|
    ensures k in Launches(children, parentDir, steps, state, n).state <==> k in state || PrecededBy(children, steps, n, k)
  {
    LaunchNames(children, parentDir, steps, state, n);
  }

  /** The steps the pass starts are exactly those StartsAt describes. */
  ghost predicate StartsExactly(l: Launch, children: seq<TaskConfig>, steps: map<string, TaskState>,
                          state: map<string, bool>, n: nat)
    requires n <= |children|
  {
    forall i: nat :: i in l.started <==> i < n && StartsAt(children, steps, state, i)
  }

  lemma AdvanceStarts(p: Launch, children: seq<TaskConfig>, i: nat, parentDir: string,
                      steps: map<string, TaskState>, state: map<string, bool>)
    requires i < |children| && i < |p.children|
    requires StartsExactly(p, children, steps, state, i) && OrderedBelow(p, i)
    requires children[i].name in p.state <==> children[i].name in state || PrecededBy(children, steps, i, children[i].name)
    ensures StartsExactly(Advance(p, children[i], i, parentDir, Ready(children[i], steps)), children, steps, state, i + 1)
  {
  }

  lemma {:induction false} LaunchStarts(children: seq<TaskConfig>, parentDir: string, steps: map<string, TaskState>,
                                        state: map<string, bool>, n: nat)
    requires n <= |children|
    ensures StartsExactly(Launches(children, parentDir, steps, state, n), children, steps, state, n)
  {
    if n > 0 {
      var p := Launches(children, parentDir, steps, state, n - 1);
      LaunchStarts(children, parentDir, steps, state, n - 1);
      LaunchOrder(children, parentDir, steps, state, n - 1);
      LaunchName(children, parentDir, steps, state, n - 1, children[n - 1].name);
      AdvanceStarts(p, children, n - 1, parentDir, steps, state);
      assert Launches(children, parentDir, steps, state, n) == Advance(p, children[n - 1], n - 1, parentDir, Ready(children[n - 1], steps));
    }
  }

  /** The pass keeps every entry of the table and maps each name it adds to
      false. */
  predicate TableKept(l: Launch, state: map<string, bool>) {
    && (forall k :: k in state ==> k in l.state && l.state[k] == state[k])
    && (forall k :: k in l.state && k !in state ==> !l.state[k])
  }

  lemma {:induction false} LaunchTable(children: seq<TaskConfig>, parentDir: string, steps: map<string, TaskState>,
                                       state: map<string, bool>, n: nat)
    requires n <= |children|
    ensures TableKept(Launches(children, parentDir, steps, state, n), state)
  {
    if n > 0 {
      LaunchTable(children, parentDir, steps, state, n - 1);
      var p := Launches(children, parentDir, steps, state, n - 1);
      AdvanceFields(p, children[n - 1], n - 1, parentDir, Ready(children[n - 1], steps));
    }
  }

  /** The count tryStartSteps returns is the number of names it added to the
      table. */
  predicate CountsNewNames(l: Launch, state: map<string, bool>) {
    (forall k :: k in state ==> k in l.state) && |l.started| == |l.state| - |state|
  }

  lemma AdvanceCount(p: Launch, c: TaskConfig, i: nat, parentDir: string, ready: bool, state: map<string, bool>)
    requires i < |p.children| && CountsNewNames(p, state)
    ensures CountsNewNames(Advance(p, c, i, parentDir, ready), state)
  {
    if c.name !in p.state && ready {
      var l := Advance(p, c, i, parentDir, ready);
      assert l.state == p.state[c.name := false];
      assert |l.state| == |p.state| + 1;
    }
  }

  lemma {:induction false} LaunchCount(children: seq<TaskConfig>, parentDir: string, steps: map<string, TaskState>,
                                       state: map<string, bool>, n: nat)
    requires n <= |children|
    ensures CountsNewNames(Launches(children, parentDir, steps, state, n), state)
  {
    if n > 0 {
      LaunchCount(children, parentDir, steps, state, n - 1);
      AdvanceCount(Launches(children, parentDir, steps, state, n - 1), children[n - 1], n - 1, parentDir,
                   Ready(children[n - 1], steps), state);
    }
  }

  /** A started step inherits the parent's directory when it has none; every
      other step is left as it was. */
  predicate ChildrenAfter(l: Launch, children: seq<TaskConfig>, parentDir: string) {
    && |l.children| == |children|
    && forall i :: 0 <= i < |children| ==>
         l.children[i] == if i in l.started then Inherit(children[i], parentDir) else children[i]
  }

  lemma AdvanceChildren(p: Launch, children: seq<TaskConfig>, i: nat, parentDir: string, ready: bool)
    requires i < |children| && ChildrenAfter(p, children, parentDir) && OrderedBelow(p, i)
    ensures ChildrenAfter(Advance(p, children[i], i, parentDir, ready), children, parentDir)
  {
    assert i !in p.started;
  }

  lemma {:induction false} LaunchChildren(children: seq<TaskConfig>, parentDir: string, steps: map<string, TaskState>,
                                          state: map<string, bool>, n: nat)
    requires n <= |children|
    ensures ChildrenAfter(Launches(children, parentDir, steps, state, n), children, parentDir)
  {
    if n > 0 {
      LaunchChildren(children, parentDir, steps, state, n - 1);
      LaunchOrder(children, parentDir, steps, state, n - 1);
      AdvanceChildren(Launches(children, parentDir, steps, state, n - 1), children, n - 1, parentDir,
                      Ready(children[n - 1], steps));
    }
  }

  // ------------------------------------------------------ the run's verdict

  /** The loop of run that checks every step succeeded. */
  method AllSucceeded(steps: seq<TaskState>) returns (ok: bool)
    ensures ok <==> forall i :: 0 <= i < |steps| ==> steps[i].status == "success"
  {
    ok := true;
    var i := 0;
    while i < |steps|
      invariant 0 <= i <= |steps|
      invariant ok <==> forall j :: 0 <= j < i ==> steps[j].status == "success"
    {
      if steps[i].status != "success" {
        ok := false;
      }
      i := i + 1;
    }
  }

  /** The log file of a command run: the task id, then the run id and step
      name in the file name. */
  function LogFileOf(taskId: string, runId: int, name: string): (f: string)
    ensures |f| > |taskId| + 4 && f[..|taskId|] == taskId && f[|taskId|] == '/' && f[|f| - 4..] == ".log"
  {
    taskId + "/" + IntToString(runId) + "_" + name + ".log"
  }

  /** What TryPostFunc answered for the command of a run: no entry (the
      queue is full), a fresh entry whose function the queue will run, or
      the entry already queued under the same id, whose function is
      another run's. */
  datatype PostOutcome = NotPosted | Posted | AlreadyQueued

  /** How run ends, given what happened: whether the run was cancelled once
      its steps were over (`canceledAfterSteps`), what the queue answered
      to the post, the command's exit code, and whether the run had been
      cancelled when the command exited. The steps' records are taken as
      they stand when the steps are over. When the queue hands back another
      run's entry, this run only waits for it: its own command never runs
      and its status stays as the steps left it. */
  method Conclude(task: TaskState, config: TaskConfig, taskId: string, runId: int,
                  canceledAfterSteps: bool, post: PostOutcome, code: int, canceledAtExit: bool)
    returns (t: TaskState)
    ensures var allOk := forall i :: 0 <= i < |task.steps| ==> task.steps[i].status == "success";
      !canceledAfterSteps && allOk && post == AlreadyQueued ==>
        t == task.(status := if |task.steps| > 0 then "running" else task.status, startedAt := t.startedAt)
    ensures var allOk := forall i :: 0 <= i < |task.steps| ==> task.steps[i].status == "success";
      var enqueued := post == Posted;
      var ran := !canceledAfterSteps && allOk && enqueued && config.command != "";
      !(!canceledAfterSteps && allOk && post == AlreadyQueued) ==>
      && (t.status == "canceled" <==> canceledAfterSteps || (ran && code != 0 && (code == config.canceledExitCode || canceledAtExit)))
      && (t.status == "success" <==> !canceledAfterSteps && allOk && enqueued && (config.command == "" || code == 0))
      && (t.status == "failed" <==> !canceledAfterSteps && (!allOk || !enqueued || (ran && code != 0 && code != config.canceledExitCode && !canceledAtExit)))
      && t.message == (if t.status != "failed" then task.message
                       else if !allOk then "sub tasks are not completed"
                       else if !enqueued then "failed to enqueue"
                       else "command exited with code " + IntToString(code))
      && t.logFile == (if ran then LogFileOf(taskId, runId, task.name) else task.logFile)
      && t == task.(status := t.status, message := t.message, logFile := t.logFile,
                    startedAt := t.startedAt, finishedAt := t.finishedAt)
  {
    t := task;
    if |t.steps| > 0 {
      t := t.(status := "running");
    }
    if canceledAfterSteps {
      t := t.(status := "canceled");
      return;
    }
    var ok := AllSucceeded(t.steps);
    if !ok {
      t := t.(status := "failed", message := "sub tasks are not completed");
      return;
    }
    if post == NotPosted {
      t := t.(status := "failed", message := "failed to enqueue");
      return;
    }
    if post == AlreadyQueued {
      return;
    }
    if t.startedAt == 0 {
      t := t.(status := "running");
    }
    if config.command == "" {
      t := t.(status := "success");
      return;
    }
    t := t.(logFile := LogFileOf(taskId, runId, t.name));
    if code != 0 && code == config.canceledExitCode {
      t := t.(status := "canceled");
    } else if code != 0 {
      if canceledAtExit {
        t := t.(status := "canceled");
        return;
      }
      t := t.(status := "failed", message := "command exited with code " + IntToString(code));
    } else {
      t := t.(status := "success");
    }
  }

  // ------------------------------------------------- running list, history

  /** One run in progress, identified by the object itself. */
  class RunState {
    const log: LogEntry

    constructor (log: LogEntry)
      ensures this.log == log
    {
      this.log := log;
    }
  }

  /** Whether a running entry is the run `runId` of task `taskId`. */
  predicate IsRun(s: RunState, taskId: string, runId: int) {
    s.log.runId == runId && s.log.taskId == taskId
  }

  /** `s` without its first occurrence of `x`. */
  function RemoveFirst<T(==)>(s: seq<T>, x: T): (r: seq<T>)
    ensures |r| == if x in s then |s| - 1 else |s|
  {
    if s == [] then []
    else if s[0] == x then s[1..]
    else [s[0]] + RemoveFirst(s[1..], x)
  }

  /** Removing the first occurrence, at `i`, keeps the others in order. */
  lemma {:induction false} RemoveFirstAt<T>(s: seq<T>, x: T, i: nat)
    requires i < |s| && s[i] == x && x !in s[..i]
    ensures RemoveFirst(s, x) == s[..i] + s[i + 1..]
  {
    if i > 0 {
      assert s[1..][..i - 1] == s[1..i];
      RemoveFirstAt(s[1..], x, i - 1);
    }
  }

  /** Removing an absent element changes nothing. */
  lemma {:induction false} RemoveFirstAbsent<T>(s: seq<T>, x: T)
    requires x !in s
    ensures RemoveFirst(s, x) == s
  {
    if s != [] {
      RemoveFirstAbsent(s[1..], x);
    }
  }

  /** Removal takes exactly one occurrence out, when there is one. */
  lemma RemoveFirstCount<T>(s: seq<T>, x: T)
    ensures multiset(RemoveFirst(s, x)) == multiset(s) - multiset{x}
  {
    if x in s {
      RemoveFirstCountAt(s, x, FirstIndex(s, x));
    } else {
      RemoveFirstCountAbsent(s, x);
    }
  }

  /** The count, with the first occurrence of `x` at `i`. */
  lemma RemoveFirstCountAt<T>(s: seq<T>, x: T, i: nat)
    requires i < |s| && s[i] == x && x !in s[..i]
    ensures multiset(RemoveFirst(s, x)) == multiset(s) - multiset{x}
  {
    assert s == s[..i] + [x] + s[i + 1..];
    RemoveFirstCountSplit(s[..i], x, s[i + 1..]);
  }

  /** The count, when `x` is absent. */
  lemma RemoveFirstCountAbsent<T>(s: seq<T>, x: T)
    requires x !in s
    ensures multiset(RemoveFirst(s, x)) == multiset(s) - multiset{x}
  {
    RemoveFirstAbsent(s, x);
    assert x !in multiset(s);
  }

  /** The same, with the first occurrence of `x` right after `a`. */
  lemma RemoveFirstCountSplit<T>(a: seq<T>, x: T, b: seq<T>)
    requires x !in a
    ensures multiset(RemoveFirst(a + [x] + b, x)) == multiset(a + [x] + b) - multiset{x}
  {
    var s := a + [x] + b;
    assert s[..|a|] == a && s[|a| + 1..] == b;
    RemoveFirstAt(s, x, |a|);
    calc {
      multiset(a + b);
      ==
      multiset(a) + multiset(b);
      ==
      multiset(a) + multiset{x} + multiset(b) - multiset{x};
      ==
      multiset(s) - multiset{x};
    }
  }



  /** The log entries of the running runs of `taskId`, in list order. */
  function RunningOf(rs: seq<RunState>, taskId: string): seq<LogEntry> {
    if rs == [] then []
    else RunningOf(rs[..|rs| - 1], taskId) + if rs[|rs| - 1].log.taskId == taskId then [rs[|rs| - 1].log] else []
  }

  /** The log file's lines as far as the runner can read them: the entries
      that decode and carry a task record, in file order. */
  function Decoded(lines: seq<Option<LogEntry>>): seq<LogEntry> {
    if lines == [] then []
    else
      var l := lines[|lines| - 1];
      Decoded(lines[..|lines| - 1]) + if l.Some? && l.value.task.Some? then [l.value] else []
  }

  function Reverse<T>(s: seq<T>): (r: seq<T>)
    ensures |r| == |s|
    ensures forall i :: 0 <= i < |s| ==> r[i] == s[|s| - 1 - i]
  {
    if s == [] then [] else [s[|s| - 1]] + Reverse(s[..|s| - 1])
  }

  /** How many file entries GetHistory appends after `r` running ones: at
      least one when there are any, then more until `limit` is reached. */
  function HistoryCount(r: nat, m: nat, limit: int): (n: nat)
    ensures n <= m && (m > 0 ==> n >= 1)
    ensures m > 0 ==> (r + n >= limit || n == m)
    ensures n > 1 ==> r + n - 1 < limit
  {
    if m == 0 then 0
    else if limit - r <= 1 then 1
    else if limit - r < m then limit - r
    else m
  }

  class Runner {
    var runnings: seq<RunState>
    const logDir: string
    const recentLimit: int

    /** NewRunner, without the queue it starts. */
    constructor (conf: RunnerConfig?)
      modifies conf
      ensures runnings == [] && recentLimit == RecentLimit
      ensures logDir == FilledText(if conf == null then "" else old(conf.logDir), DefaultLogDir)
    {
      var c := FillRunnerDefaults(conf);
      runnings := [];
      logDir := c.logDir;
      recentLimit := RecentLimit;
    }

    /** addTask: the run joins the end of the list. */
    method AddTask(state: RunState)
      modifies this
      ensures runnings == old(runnings) + [state]
    {
      runnings := runnings + [state];
    }

    /** getRunningTask: the first entry that is run `runId` of `taskId`, or
        null when there is none. */
    method GetRunningTask(taskId: string, runId: int) returns (s: RunState?)
      ensures s == null <==> forall i :: 0 <= i < |runnings| ==> !IsRun(runnings[i], taskId, runId)
      ensures s != null ==> exists i :: 0 <= i < |runnings| && runnings[i] == s && IsRun(s, taskId, runId) &&
                                        forall j :: 0 <= j < i ==> !IsRun(runnings[j], taskId, runId)
    {
      var i := 0;
      while i < |runnings|
        invariant 0 <= i <= |runnings|
        invariant forall j :: 0 <= j < i ==> !IsRun(runnings[j], taskId, runId)
      {
        var t := runnings[i];
        if t.log.runId == runId && t.log.taskId == taskId {
          return t;
        }
        i := i + 1;
      }
      return null;
    }

    /** finishTask: the run leaves the list (its first occurrence only); the
        log entry is then appended to the file, which is not modelled. */
    method FinishTask(state: RunState)
      modifies this
      ensures runnings == RemoveFirst(old(runnings), state)
    {
      var i := 0;
      while i < |runnings|
        invariant 0 <= i <= |runnings| && runnings == old(runnings)
        invariant state !in runnings[..i]
      {
        if runnings[i] == state {
          RemoveFirstAt(runnings, state, i);
          runnings := runnings[..i] + runnings[i + 1..];
          return;
        }
        assert runnings[..i + 1] == runnings[..i] + [runnings[i]];
        i := i + 1;
      }
      assert runnings[..i] == runnings;
      RemoveFirstAbsent(runnings, state);
    }

    /** RunningTaks: the log entries of the running runs of `taskId`. */
    method RunningTasks(taskId: string) returns (tasks: seq<LogEntry>)
      ensures tasks == RunningOf(runnings, taskId)
    {
      tasks := [];
      var i := 0;
      while i < |runnings|
        invariant 0 <= i <= |runnings|
        invariant tasks == RunningOf(runnings[..i], taskId)
      {
        assert runnings[..i + 1][..i] == runnings[..i];
        if runnings[i].log.taskId == taskId {
          tasks := tasks + [runnings[i].log];
        }
        i := i + 1;
      }
      assert runnings[..i] == runnings;
    }

    /** GetHistory: the running entries of the task, then, when the log file
        exists, its entries newest first, stopping once `limit` entries are
        listed but taking at least one. `file` is None when the file cannot
        be opened. */
    method GetHistory(taskId: string, limit: int, file: Option<seq<Option<LogEntry>>>) returns (log: seq<LogEntry>)
      ensures var running := RunningOf(runnings, taskId);
        file.None? ==> log == running
      ensures var running := RunningOf(runnings, taskId);
        file.Some? ==>
          var entries := Decoded(file.value);
          log == running + Reverse(entries)[..HistoryCount(|running|, |entries|, limit)]
    {
      log := RunningTasks(taskId);
      if file.None? {
        return;
      }
      var log2 := DecodeLines(file.value);
      log := AppendNewest(log, log2, limit);
    }
  }

  /** The scan of the log file: the lines that decode to an entry with a
      task record. */
  method DecodeLines(lines: seq<Option<LogEntry>>) returns (log2: seq<LogEntry>)
    ensures log2 == Decoded(lines)
  {
    log2 := [];
    var k := 0;
    while k < |lines|
      invariant 0 <= k <= |lines| && log2 == Decoded(lines[..k])
    {
      assert lines[..k + 1][..k] == lines[..k];
      var line := lines[k];
      if line.Some? && line.value.task.Some? {
        log2 := log2 + [line.value];
      }
      k := k + 1;
    }
    assert lines[..k] == lines;
  }

  /** The loop of GetHistory that appends file entries newest first. */
  method AppendNewest(running: seq<LogEntry>, log2: seq<LogEntry>, limit: int) returns (log: seq<LogEntry>)
    ensures log == running + Reverse(log2)[..HistoryCount(|running|, |log2|, limit)]
  {
    log := running;
    ghost var n := HistoryCount(|running|, |log2|, limit);
    var i := 0;
    while i < |log2|
      invariant 0 <= i <= n
      invariant log == running + Reverse(log2)[..i]
      invariant i == 0 || |running| + i < limit
    {
      log := log + [log2[|log2| - i - 1]];
      assert Reverse(log2)[..i + 1] == Reverse(log2)[..i] + [log2[|log2| - i - 1]];
      if |log| >= limit {
        i := i + 1;
        break;
      }
      i := i + 1;
    }
    assert i == n;
  }

  /** The history starts with the running entries, then lists file entries
      newest first; it is cut at `limit` except that one file entry always
      makes it in, and it is shorter than `limit` only when every file entry
      is listed. */
  lemma HistoryShape(running: seq<LogEntry>, entries: seq<LogEntry>, limit: int)
    ensures var n := HistoryCount(|running|, |entries|, limit);
      var log := running + Reverse(entries)[..n];
      && log[..|running|] == running
      && (forall j :: |running| <= j < |log| ==> log[j] == entries[|entries| - 1 - (j - |running|)])
      && (entries != [] ==> |log| > |running|)
      && (|log| < limit ==> n == |entries|)
      && (n > 1 ==> |log| - 1 < limit)
  {
  }
}
