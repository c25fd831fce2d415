/**
 * The task-detail view of the web front end (static/tasks.js): the run's
 * steps become graph nodes whose colour follows the step status, whose
 * caption carries the elapsed time, and whose lane is one right of the lane
 * of the step's first dependency when that step was drawn before it.
 */
module TaskView {
  import opened Wrappers
  import opened Decimal
  import opened TaskLog
  import opened Graph

  // ---------------------------------------------------------- elapsed time

  /** JavaScript's `x | 0` on an integral number: reduce to a signed 32-bit integer. */
  function ToInt32(n: int): int {
    var m := n % 0x1_0000_0000;
    if m >= 0x8000_0000 then m - 0x1_0000_0000 else m
  }

  /** The result is the 32-bit integer congruent to `n` modulo 2^32, so
      numbers already in range are unchanged. */
  lemma ToInt32Wraps(n: int)
    ensures -0x8000_0000 <= ToInt32(n) < 0x8000_0000
    ensures (ToInt32(n) - n) % 0x1_0000_0000 == 0
    ensures -0x8000_0000 <= n < 0x8000_0000 ==> ToInt32(n) == n
  {
  }

  /** Rounding toward zero, as `| 0` does before it wraps. */
  function Trunc(x: real): (r: int)
    ensures x >= 0.0 ==> r == x.Floor
    ensures x < 0.0 ==> r == -((-x).Floor)
  {
    if x >= 0.0 then x.Floor else -((-x).Floor)
  }

  /** `s.substr(-2)`: the last two characters, or all of a shorter string. */
  function Last2(s: string): string {
    if |s| < 2 then s else s[|s| - 2..]
  }

  /** Integer division rounding toward zero. */
  function TruncDiv(a: int, b: nat): (q: int)
    requires b > 0
    ensures a >= 0 ==> q == a / b
    ensures a < 0 ==> q == -((-a) / b)
  {
    if a >= 0 then a / b else -((-a) / b)
  }

  /** `formatTime`: a duration of `ms` milliseconds as minutes, a colon and
      seconds. With `t` the duration in seconds, the minutes are `t / 60 | 0`
      and the seconds `t % 60 | 0`, where JavaScript's remainder keeps the
      sign of `t`. */
  function FormatTime(ms: int): (s: string)
  {
    Clock(MinutesField(ms), SecondsField(ms))
  }

  /** The text of `formatTime` for computed minutes and seconds. */
  function Clock(minutes: int, seconds: int): (s: string)
  {
    IntToString(ToInt32(minutes)) + ":" + Last2("0" + IntToString(ToInt32(seconds)))
  }

  /** `t / 60` rounded toward zero, with `t = ms / 1000` in exact arithmetic. */
  function MinutesField(ms: int): int {
    Trunc(ms as real / 1000.0 / 60.0)
  }

  /** `t % 60` rounded toward zero: `t` less 60 times the truncated quotient. */
  function SecondsField(ms: int): int {
    var t := ms as real / 1000.0;
    Trunc(t - 60.0 * MinutesField(ms) as real)
  }

  /** Two decimal digits of a number below 100. */
  function TwoDigits(n: nat): (s: string)
    requires n < 100
    ensures |s| == 2 && AllDigits(s) && DigitsValue(s) == n
  {
    var s := [DigitChar(n / 10), DigitChar(n % 10)];
    assert s[..1] == [DigitChar(n / 10)] && s[..1][..0] == [];
    assert DigitsValue(s[..1]) == n / 10;
    s
  }

  /** Reading an "m:ss" text back: the minutes before the colon and the
      two-digit seconds after it. */
  function ParseClock(s: string): Option<(nat, nat)> {
    if |s| >= 4 && s[|s| - 3] == ':' && AllDigits(s[..|s| - 3]) && AllDigits(s[|s| - 2..])
    then Some((DigitsValue(s[..|s| - 3]), DigitsValue(s[|s| - 2..])))
    else None
  }

  lemma FloorOfQuotient(a: nat, b: nat)
    requires b > 0
    ensures (a as real / b as real).Floor == a / b
  {
    var q, r := a / b, a % b;
    assert a == q * b + r;
    assert a as real == q as real * b as real + r as real;
    assert a as real / b as real == q as real + r as real / b as real;
    assert 0.0 <= r as real / b as real < 1.0;
  }

  /** The seconds of a minute-and-seconds split of whole milliseconds. */
  lemma SecondsOfMinute(ms: nat)
    ensures (ms % 60000) / 1000 == (ms / 1000) % 60
    ensures ms / 1000 == 60 * (ms / 60000) + (ms / 1000) % 60
  {
    var q, r := ms / 60000, ms % 60000;
    assert ms == 60000 * q + r;
    var s := r / 1000;
    assert r == 1000 * s + r % 1000 && s < 60;
    assert ms == 1000 * (60 * q + s) + r % 1000;
    assert ms / 1000 == 60 * q + s;
  }

  /** The padded seconds field holds exactly two digits. */
  lemma PadSeconds(sec: nat)
    requires sec < 60
    ensures Last2("0" + IntToString(sec)) == TwoDigits(sec)
  {
    if sec < 10 {
      assert NatToString(sec) == [DigitChar(sec)];
      assert "0" + NatToString(sec) == TwoDigits(sec);
    } else {
      NatToStringTwoDigits(sec);
      assert ("0" + NatToString(sec))[1..] == NatToString(sec);
    }
  }

  /** Rounding a quotient toward zero is truncating integer division. */
  lemma TruncOfQuotient(a: int, b: nat)
    requires b > 0
    ensures Trunc(a as real / b as real) == TruncDiv(a, b)
  {
    if a >= 0 {
      FloorOfQuotient(a, b);
    } else {
      assert -(a as real / b as real) == (-a) as real / b as real;
      FloorOfQuotient(-a, b);
    }
  }

  /** The JavaScript expressions of formatTime, evaluated exactly, are
      integer quotients rounded toward zero, for every duration. */
  lemma FormatTimeArithmetic(ms: int)
    ensures MinutesField(ms) == TruncDiv(ms, 60000)
    ensures SecondsField(ms) == TruncDiv(ms - 60000 * TruncDiv(ms, 60000), 1000)
  {
    assert ms as real / 1000.0 / 60.0 == ms as real / 60000.0;
    TruncOfQuotient(ms, 60000);
    var q := TruncDiv(ms, 60000);
    var r := ms - 60000 * q;
    assert ms as real / 1000.0 - 60.0 * q as real == r as real / 1000.0;
    TruncOfQuotient(r, 1000);
  }

  /** For a non-negative duration below 2^31 minutes, `formatTime` gives the
      whole minutes in decimal, a colon, and the seconds within the minute
      padded to two digits. */
  lemma FormatTimeNonNegative(ms: int)
    requires 0 <= ms && ms / 60000 < 0x8000_0000
    ensures FormatTime(ms) == NatToString(ms / 60000) + ":" + TwoDigits((ms / 1000) % 60)
  {
    FormatTimeArithmetic(ms);
    SecondsOfMinute(ms);
    assert ms - 60000 * (ms / 60000) == ms % 60000;
    ClockDigits(ms / 60000, (ms / 1000) % 60);
  }

  lemma ClockDigits(m: nat, sec: nat)
    requires m < 0x8000_0000 && sec < 60
    ensures Clock(m, sec) == NatToString(m) + ":" + TwoDigits(sec)
  {
    ToInt32Wraps(m);
    ToInt32Wraps(sec);
    PadSeconds(sec);
  }

  lemma ParseClockOf(m: nat, sec: nat)
    requires sec < 60
    ensures ParseClock(NatToString(m) + ":" + TwoDigits(sec)) == Some((m, sec))
  {
    var t := NatToString(m);
    var s := t + ":" + TwoDigits(sec);
    assert s[..|s| - 3] == t;
    assert s[|s| - 2..] == TwoDigits(sec);
    NatToStringValue(m);
  }

  /** Round trip: the minutes and seconds can be read back from the text. */
  lemma FormatTimeParses(ms: int)
    requires 0 <= ms && ms / 60000 < 0x8000_0000
    ensures ParseClock(FormatTime(ms)) == Some((ms / 60000, (ms / 1000) % 60))
  {
    FormatTimeNonNegative(ms);
    ParseClockOf(ms / 60000, (ms / 1000) % 60);
  }

  /** Two durations in that range with the same text agree to the second. */
  lemma FormatTimeSeconds(a: int, b: int)
    requires 0 <= a && a / 60000 < 0x8000_0000
    requires 0 <= b && b / 60000 < 0x8000_0000
    requires FormatTime(a) == FormatTime(b)
    ensures a / 1000 == b / 1000
  {
    FormatTimeParses(a);
    FormatTimeParses(b);
    SecondsOfMinute(a);
    SecondsOfMinute(b);
  }

  /** A negative duration shows its sign in the seconds field only, because
      the minutes round toward zero: five seconds early reads "0:-5". */
  lemma FormatTimeNegative()
    ensures FormatTime(-5000) == "0:-5"
    ensures FormatTime(-65000) == "-1:-5"
  {
    FormatTimeArithmetic(-5000);
    FormatTimeArithmetic(-65000);
    assert MinutesField(-5000) == 0 && SecondsField(-5000) == -5;
    assert MinutesField(-65000) == -1 && SecondsField(-65000) == -5;
    ClockNegative();
  }

  /** The clock text of negative fields keeps both signs. */
  lemma ClockNegative()
    ensures Clock(0, -5) == "0:-5"
    ensures Clock(-1, -5) == "-1:-5"
  {
    assert ToInt32(0) == 0 && ToInt32(-1) == -1 && ToInt32(-5) == -5;
    assert IntToString(0) == "0" by { assert NatToString(0) == "0"; }
    assert IntToString(-1) == "-1" by { assert NatToString(1) == "1"; }
    assert IntToString(-5) == "-5" by { assert NatToString(5) == "5"; }
    assert Last2("0" + "-5") == "-5";
  }

  // ------------------------------------------------------------ step nodes

  /** Fill colour per status; any other status is drawn white. */
  const StatusColors: seq<(string, string)> := [
    ("queued", "#aaa"), ("running", "#8f8"), ("finished", "#6d6"),
    ("success", "#6d6"), ("failed", "#f00"), ("canceled", "#ff6")]

  /** The value of the first entry of `table` for `key`, or `default`. */
  function Lookup(table: seq<(string, string)>, key: string, default: string): string {
    if table == [] then default
    else if table[0].0 == key then table[0].1
    else Lookup(table[1..], key, default)
  }

  /** The status colours, in the order the view tests them. */
  function StatusColor(status: string): (c: string)
    ensures c in {"#aaa", "#8f8", "#6d6", "#f00", "#ff6", "white"}
  {
    if status == "queued" then "#aaa"
    else if status == "running" then "#8f8"
    else if status == "finished" || status == "success" then "#6d6"
    else if status == "failed" then "#f00"
    else if status == "canceled" then "#ff6"
    else "white"
  }

  /** The colour is the table's entry for the status, white when it has none. */
  lemma StatusColorIsTable(status: string)
    ensures StatusColor(status) == Lookup(StatusColors, status, "white")
  {
    var t := StatusColors;
    var rest := [("running", "#8f8"), ("finished", "#6d6"), ("success", "#6d6"), ("failed", "#f00"), ("canceled", "#ff6")];
    assert t == [t[0]] + rest;
    assert Lookup(t, status, "white") == if status == "queued" then "#aaa" else Lookup(rest, status, "white");
    var rest2 := rest[1..];
    assert Lookup(rest, status, "white") == if status == "running" then "#8f8" else Lookup(rest2, status, "white");
    var rest3 := rest2[1..];
    assert Lookup(rest2, status, "white") == if status == "finished" then "#6d6" else Lookup(rest3, status, "white");
    var rest4 := rest3[1..];
    assert Lookup(rest3, status, "white") == if status == "success" then "#6d6" else Lookup(rest4, status, "white");
    var rest5 := rest4[1..];
    assert Lookup(rest4, status, "white") == if status == "failed" then "#f00" else Lookup(rest5, status, "white");
    assert rest5[1..] == [];
    assert Lookup(rest5, status, "white") == if status == "canceled" then "#ff6" else "white";
  }

  /** Each listed status has its colour, and every other one is white. */
  lemma StatusColorTable(status: string)
    ensures status == "queued" ==> StatusColor(status) == "#aaa"
    ensures status == "running" ==> StatusColor(status) == "#8f8"
    ensures StatusColor(status) == "#6d6" <==> status == "finished" || status == "success"
    ensures status == "failed" ==> StatusColor(status) == "#f00"
    ensures status == "canceled" ==> StatusColor(status) == "#ff6"
    ensures StatusColor(status) == "white" <==>
      status !in {"queued", "running", "finished", "success", "failed", "canceled"}
  {
  }

  /** The steps drawn for a task: its steps, or the task itself when it has none. */
  function StepsOf(task: TaskState): (steps: seq<TaskState>)
    ensures |steps| >= 1
    ensures task.steps != [] ==> steps == task.steps
    ensures task.steps == [] ==> steps == [task]
  {
    if task.steps == [] then [task] else task.steps
  }

  /** The caption of a step's box: its status, then the elapsed time in
      parentheses once it has a finish time. */
  function StepText(step: TaskState): string {
    Caption(step.status, step.finishedAt != 0, FormatTime(step.finishedAt - step.startedAt))
  }

  function Caption(status: string, finished: bool, time: string): string {
    status + if finished then "(" + time + ")" else ""
  }

  /** The caption is the status alone until the step has a finish time;
      after that the time text follows it in parentheses, and can be cut out
      again between the parentheses. */
  lemma CaptionShape(status: string, finished: bool, time: string)
    ensures !finished ==> Caption(status, finished, time) == status
    ensures finished ==>
      var t := Caption(status, finished, time); var n := |status|;
      |t| == n + |time| + 2 && t[..n] == status && t[n] == '(' && t[|t| - 1] == ')' &&
      t[n + 1..|t| - 1] == time
  {
    if finished {
      var t := Caption(status, finished, time);
      assert t == status + ['('] + time + [')'];
      assert t[..|status|] == status;
      assert t[|status| + 1..|t| - 1] == time;
    }
  }

  /** The key looked up for the lane: the first dependency; with no
      dependency it is JavaScript's `undefined`, which becomes the property
      name "undefined". */
  function FirstDependency(depends: seq<string>): string {
    if depends != [] then depends[0] else "undefined"
  }

  /** The lane of a step added after the nodes `prev`. */
  function LaneAfter(prev: seq<Node>, depends: seq<string>): (lane: nat)
  {
    var key := FirstDependency(depends);
    var ids := IdIndex(prev);
    IdIndexInRange(prev);
    if key in ids then prev[ids[key]].lane + 1 else 0
  }

  function StepDescriptor(step: TaskState, lane: nat): Descriptor {
    Descriptor(step.name, lane, Some(step.depends), StepText(step), StatusColor(step.status), "black")
  }

  /** The node the view adds for `step` after the nodes `prev`. */
  function StepNode(prev: seq<Node>, step: TaskState): (n: Node)
    ensures n.id == step.name && n.lane == LaneAfter(prev, step.depends)
  {
    ToNode(StepDescriptor(step, LaneAfter(prev, step.depends)))
  }

  /** The nodes the view adds for `steps`, in order. */
  function StepNodes(steps: seq<TaskState>): (ns: seq<Node>)
    ensures |ns| == |steps|
  {
    if steps == [] then []
    else
      var prev := StepNodes(steps[..|steps| - 1]);
      prev + [StepNode(prev, steps[|steps| - 1])]
  }

  /** The nodes of a prefix of the steps are a prefix of the nodes. */
  lemma {:induction false} StepNodesPrefix(steps: seq<TaskState>, k: nat)
    requires k <= |steps|
    ensures StepNodes(steps[..k]) == StepNodes(steps)[..k]
    decreases |steps|
  {
    if k < |steps| {
      var init := steps[..|steps| - 1];
      assert init[..k] == steps[..k];
      StepNodesPrefix(init, k);
    } else {
      assert steps[..k] == steps;
    }
  }

  /** Node `k` is step `k`: its id is the step name, its dependencies the
      step's, its caption and colour follow from the step, and its lane is
      computed from the nodes before it. */
  lemma {:induction false} StepNodeAt(steps: seq<TaskState>, k: nat)
    requires k < |steps|
    ensures StepNodes(steps)[k] == StepNode(StepNodes(steps)[..k], steps[k])
  {
    var t := steps[..k + 1];
    assert t[..k] == steps[..k] && t[k] == steps[k];
    StepNodesPrefix(steps, k + 1);
    StepNodesPrefix(steps, k);
    var prev := StepNodes(steps[..k]);
    assert StepNodes(t) == prev + [StepNode(prev, steps[k])];
    assert StepNodes(steps)[k] == StepNodes(t)[k];
  }

  /** The lane rule for node `k` of `ns`, drawn for `steps[k]`: a step whose
      first dependency names an earlier step sits one lane right of the last
      such step; every other step is in lane 0. */
  predicate LanePlaced(ns: seq<Node>, steps: seq<TaskState>, k: nat)
    requires k < |steps| && k < |ns|
  {
    var key := FirstDependency(steps[k].depends);
    && ((Truthy(key) && exists j :: 0 <= j < k && steps[j].name == key) ==>
          exists j :: 0 <= j < k && steps[j].name == key &&
            (forall i :: j < i < k ==> steps[i].name != key) &&
            ns[k].lane == ns[j].lane + 1)
    && (!(Truthy(key) && exists j :: 0 <= j < k && steps[j].name == key) ==> ns[k].lane == 0)
  }

  /** Every node the view adds obeys the lane rule. Later dependencies and
      steps further down are never consulted. */
  lemma StepLane(steps: seq<TaskState>, k: nat)
    requires k < |steps|
    ensures LanePlaced(StepNodes(steps), steps, k)
  {
    StepNodeAt(steps, k);
    StepNodeIds(steps, k);
    LaneRuleNodes(StepNodes(steps), steps, k);
  }

  /** The lane rule for nodes whose ids are the step names before `k` and
      whose node `k` took its lane from them. */
  lemma LaneRuleNodes(ns: seq<Node>, steps: seq<TaskState>, k: nat)
    requires k < |steps| && k < |ns|
    requires forall j :: 0 <= j < k ==> ns[..k][j].id == steps[j].name
    requires ns[k].lane == LaneAfter(ns[..k], steps[k].depends)
    ensures LanePlaced(ns, steps, k)
  {
    var key := FirstDependency(steps[k].depends);
    var prev := ns[..k];
    LaneRule(prev, steps, k, steps[k].depends);
    if Truthy(key) && exists j :: 0 <= j < k && steps[j].name == key {
      var j :| 0 <= j < k && steps[j].name == key &&
        (forall i :: j < i < k ==> steps[i].name != key) &&
        LaneAfter(prev, steps[k].depends) == prev[j].lane + 1;
      assert prev[j] == ns[j];
    }
  }

  /** The lane rule over the nodes drawn before a step, whose ids are the
      names of the steps before it. */
  lemma LaneRule(prev: seq<Node>, steps: seq<TaskState>, k: nat, depends: seq<string>)
    requires k <= |steps| && |prev| == k
    requires forall j :: 0 <= j < k ==> prev[j].id == steps[j].name
    ensures var key := FirstDependency(depends);
      && ((Truthy(key) && exists j :: 0 <= j < k && steps[j].name == key) ==>
            exists j :: 0 <= j < k && steps[j].name == key &&
              (forall i :: j < i < k ==> steps[i].name != key) &&
              LaneAfter(prev, depends) == prev[j].lane + 1)
      && (!(Truthy(key) && exists j :: 0 <= j < k && steps[j].name == key) ==> LaneAfter(prev, depends) == 0)
  {
    var key := FirstDependency(depends);
    IdIndexLastWins(prev, key);
    if key in IdIndex(prev) {
      var j := IdIndex(prev)[key];
      assert steps[j].name == key;
    }
  }

  lemma StepNodeIds(steps: seq<TaskState>, k: nat)
    requires k <= |steps|
    ensures forall j :: 0 <= j < k ==> StepNodes(steps)[..k][j].id == steps[j].name
  {
    forall j | 0 <= j < k ensures StepNodes(steps)[..k][j].id == steps[j].name {
      StepNodeAt(steps, j);
    }
  }

  /** The colour a step's status selects, by the view's chain of tests. */
  method PickColor(status: string) returns (color: string)
    ensures color == StatusColor(status)
  {
    color := "white";
    if status == "queued" {
      color := "#aaa";
    } else if status == "running" {
      color := "#8f8";
    } else if status == "finished" {
      color := "#6d6";
    } else if status == "success" {
      color := "#6d6";
    } else if status == "failed" {
      color := "#f00";
    } else if status == "canceled" {
      color := "#ff6";
    }
  }

  /** One iteration of the view's loop: the step's colour, caption and lane,
      then `add`. */
  method AddStep(g: ProcGraph, step: TaskState)
    requires g.Valid()
    modifies g
    ensures g.Valid() && g.layouts == old(g.layouts)
    ensures g.elements == old(g.elements) + [StepNode(old(g.elements), step)]
  {
    var color := PickColor(step.status);
    var o := Descriptor(step.name, 0, Some(step.depends), StepText(step), color, "black");
    var key := if step.depends != [] then step.depends[0] else "undefined";
    if key in g.ids {
      IdIndexInRange(g.elements);
      o := o.(lane := g.elements[g.ids[key]].lane + 1);
    }
    assert o == StepDescriptor(step, LaneAfter(g.elements, step.depends));
    g.Add(o);
  }

  /** The view's loop over the steps, on a fresh graph. */
  method AddSteps(g: ProcGraph, steps: seq<TaskState>)
    requires g.Valid() && g.elements == []
    modifies g
    ensures g.Valid() && g.elements == StepNodes(steps)
  {
    var i := 0;
    while i < |steps|
      invariant 0 <= i <= |steps| && g.Valid()
      invariant g.elements == StepNodes(steps[..i])
    {
      assert steps[..i + 1][..i] == steps[..i];
      AddStep(g, steps[i]);
      i := i + 1;
    }
    assert steps[..i] == steps;
  }

  /** The view of a run (updateGraph): nothing is drawn without a run or a
      task record; otherwise each step is added in order, then the graph is
      built. Lanes must stay below the seven the layout provides. */
  method UpdateGraph(run: Option<LogEntry>) returns (g: ProcGraph, r: Option<Rendering>)
    requires run.Some? && run.value.task.Some? ==> LanesBounded(StepNodes(StepsOf(run.value.task.value)))
    ensures fresh(g) && g.Valid()
    ensures run.None? || run.value.task.None? ==> g.elements == [] && r.None?
    ensures run.Some? && run.value.task.Some? ==>
      && g.elements == StepNodes(StepsOf(run.value.task.value))
      && g.layouts == Layouts(g.elements)
      && r.Some?
      && r.value.boxes == Boxes(g.elements, g.layouts)
      && r.value.edges == AllEdges(g.elements, g.ids, g.layouts, LaneCounts(g.elements), |g.elements|)
      && r.value.height == CanvasHeight(LaneCounts(g.elements))
  {
    g := new ProcGraph();
    if run.None? || run.value.task.None? {
      return g, None;
    }
    var task := run.value.task.value;
    var steps := task.steps;
    if steps == [] {
      steps := [task];
    }
    AddSteps(g, steps);
    var rendering := g.Build();
    r := Some(rendering);
  }
}
