/**
 * Task definitions (task.go): the configuration tree of a task, the
 * dependency chaining applied after loading, the derivation of task ids from
 * the files of the tasks directory, the manager defaults, and the choice of
 * runtime for a task.
 */
module Task {
  import opened Wrappers

  /** A value of the `Variables` table: absent (nil) or a value, kept as the
      text `%v` formats it to. */
  datatype Value = Nil | Val(text: string)

  /** One task or step. Steps are held by value: the model has no sharing
      between the steps of different parents. */
  datatype TaskConfig = TaskConfig(
    name: string,
    description: string,
    runtime: string,
    command: string,
    env: map<string, string>,
    variables: map<string, Value>,
    dir: string,
    depends: seq<string>,
    canceledExitCode: int,
    allowParallel: bool,
    disableLog: bool,
    sequential: bool,
    steps: seq<TaskConfig>,
    taskId: string)

  // ------------------------------------------------------- FixDependencies

  /** Number of configurations in a tree. */
  function Size(c: TaskConfig): nat
    decreases c, 1
  {
    1 + SizeOfSteps(c.steps, |c.steps|)
  }

  function SizeOfSteps(steps: seq<TaskConfig>, n: nat): nat
    requires n <= |steps|
    decreases steps, 0, n
  {
    if n == 0 then 0 else SizeOfSteps(steps, n - 1) + Size(steps[n - 1])
  }

  lemma {:induction false} StepSmaller(steps: seq<TaskConfig>, n: nat, i: nat)
    requires i < n <= |steps|
    ensures Size(steps[i]) <= SizeOfSteps(steps, n)
  {
    if i < n - 1 {
      StepSmaller(steps, n - 1, i);
    }
  }

  /** The dependency a step gets from its position in a sequential parent:
      none for the first step, the previous step's name for the others. */
  function ChainedDepends(c: TaskConfig, i: nat): seq<string>
    requires i < |c.steps|
  {
    if i > 0 then [c.steps[i - 1].name] else []
  }

  /** What FixDependencies makes of a configuration: the steps of a
      sequential configuration are chained in order, and every step's own
      steps are fixed in turn. The configuration's own `depends` is left
      alone. */
  function Fixed(c: TaskConfig): (r: TaskConfig)
    ensures |r.steps| == |c.steps|
    decreases c
  {
    c.(steps := seq(|c.steps|, i requires 0 <= i < |c.steps| =>
      var t := Fixed(c.steps[i]);
      if c.sequential then t.(depends := ChainedDepends(c, i)) else t))
  }

  /** The fix of a configuration does not look at its own `depends`. */
  lemma FixedIgnoresDepends(t: TaskConfig, d: seq<string>)
    ensures Fixed(t.(depends := d)) == Fixed(t).(depends := d)
  {
  }

  /** FixDependencies (task.go): the loop over the steps sets each step's
      `Depends` when the configuration is sequential, then fixes that step's
      own steps. */
  method FixDependencies(conf: TaskConfig) returns (r: TaskConfig)
    ensures r == Fixed(conf)
    decreases Size(conf)
  {
    var steps: seq<TaskConfig> := [];
    var i := 0;
    while i < |conf.steps|
      invariant 0 <= i <= |conf.steps| && |steps| == i
      invariant forall j :: 0 <= j < i ==> steps[j] == Fixed(conf).steps[j]
    {
      var t := conf.steps[i];
      if conf.sequential {
        if i > 0 {
          t := t.(depends := [conf.steps[i - 1].name]);
        } else {
          t := t.(depends := []);
        }
        FixedIgnoresDepends(conf.steps[i], t.depends);
      }
      StepSmaller(conf.steps, |conf.steps|, i);
      assert Size(t) == Size(conf.steps[i]);
      t := FixDependencies(t);
      FixedAt(conf, i);
      steps := steps + [t];
      i := i + 1;
    }
    assert steps == Fixed(conf).steps;
    r := conf.(steps := steps);
  }

  lemma FixedAt(c: TaskConfig, i: nat)
    requires i < |c.steps|
    ensures Fixed(c).steps[i] ==
      var t := Fixed(c.steps[i]); if c.sequential then t.(depends := ChainedDepends(c, i)) else t
  {
  }

  /** The fix keeps every field of the configuration except its steps, keeps
      each step's name, and with `sequential` set gives step 0 no dependency
      and step i > 0 exactly the name of step i - 1; without it each step's
      `depends` is unchanged. */
  lemma FixedStep(c: TaskConfig, i: nat)
    requires i < |c.steps|
    ensures Fixed(c).(steps := c.steps) == c
    ensures Fixed(c).steps[i].name == c.steps[i].name
    ensures c.sequential && i == 0 ==> Fixed(c).steps[i].depends == []
    ensures c.sequential && i > 0 ==> Fixed(c).steps[i].depends == [c.steps[i - 1].name]
    ensures !c.sequential ==> Fixed(c).steps[i].depends == c.steps[i].depends
    ensures Fixed(c).steps[i].steps == Fixed(c.steps[i]).steps
  {
  }

  /** Fixing twice is fixing once. */
  lemma {:induction false} FixedIdempotent(c: TaskConfig)
    ensures Fixed(Fixed(c)) == Fixed(c)
    decreases c
  {
    var f := Fixed(c);
    forall i | 0 <= i < |c.steps| ensures Fixed(f).steps[i] == f.steps[i] {
      var t := Fixed(c.steps[i]);
      FixedIdempotent(c.steps[i]);
      FixedAt(c, i);
      FixedAt(f, i);
      if c.sequential {
        FixedIgnoresDepends(t, ChainedDepends(c, i));
        if i > 0 {
          FixedStep(c, i - 1);
        }
        assert ChainedDepends(f, i) == ChainedDepends(c, i);
      }
    }
    assert Fixed(f).steps == f.steps;
  }

  // ------------------------------------------------------------------ Tasks

  /** A directory entry: its name and whether it is a regular file. */
  datatype DirEntry = DirEntry(name: string, regular: bool)

  /** filepath.Ext: the suffix from the last '.' of the final path element,
      or empty when that element has none. */
  function Ext(path: string): (e: string)
    ensures |e| <= |path|
  {
    if path == [] || path[|path| - 1] == '/' then []
    else if path[|path| - 1] == '.' then path[|path| - 1..]
    else
      var e := Ext(path[..|path| - 1]);
      if e == [] then [] else e + [path[|path| - 1]]
  }

  /** A non-empty extension is a suffix of the name that starts with its
      only '.' and has no '/'. */
  lemma {:induction false} ExtIsSuffix(path: string)
    ensures var e := Ext(path);
      e == [] || (e[0] == '.' && |e| <= |path| && path[|path| - |e|..] == e &&
                  forall j :: 1 <= j < |e| ==> e[j] != '.' && e[j] != '/')
  {
    if path != [] && path[|path| - 1] != '/' && path[|path| - 1] != '.' {
      var init := path[..|path| - 1];
      ExtIsSuffix(init);
      var e := Ext(init);
      if e != [] {
        var last := path[|path| - 1];
        assert path == init + [last];
        assert path[|init| - |e|..] == init[|init| - |e|..] + [last];
        assert Ext(path) == e + [last];
      }
    }
  }

  /** strings.Index(s, c) for one character: its first position, or -1. */
  function IndexOf(s: string, c: char): int {
    if s == [] then -1
    else if s[0] == c then 0
    else
      var p := IndexOf(s[1..], c);
      if p == -1 then -1 else p + 1
  }

  /** The position found is the first occurrence, and -1 means none. */
  lemma {:induction false} IndexOfFirst(s: string, c: char)
    ensures var p := IndexOf(s, c);
      && -1 <= p < |s|
      && (p >= 0 ==> s[p] == c && forall j :: 0 <= j < p ==> s[j] != c)
      && (p == -1 ==> forall j :: 0 <= j < |s| ==> s[j] != c)
  {
    if s != [] && s[0] != c {
      IndexOfFirst(s[1..], c);
      assert forall j :: 1 <= j < |s| ==> s[j] == s[1..][j - 1];
    }
  }

  /** The entries the task list considers: regular `.yaml` and `.sh` files
      whose name does not start with '.' or '_'. */
  predicate Listed(f: DirEntry) {
    var ext := Ext(f.name);
    f.regular && (ext == ".yaml" || ext == ".sh") && f.name != [] && f.name[0] != '.' && f.name[0] != '_'
  }

  /** The task id of a name: the name without its extension and, for a shell
      script, cut at its first '.' so that the parts `a.1.sh`, `a.2.sh` of a
      task belong to `a`. */
  function TaskIdOf(name: string): (id: string)
    ensures |id| <= |name| && name[..|id|] == id
  {
    var ext := Ext(name);
    ExtIsSuffix(name);
    var id := name[..|name| - |ext|];
    IndexOfFirst(id, '.');
    if ext == ".sh" && IndexOf(id, '.') != -1 then id[..IndexOf(id, '.')] else id
  }

  /** What one directory entry contributes: its task id, or nothing. */
  function EntryId(f: DirEntry): Option<string> {
    if Listed(f) then Some(TaskIdOf(f.name)) else None
  }

  function EntryIds(files: seq<DirEntry>): (xs: seq<Option<string>>)
    ensures |xs| == |files|
    ensures forall k :: 0 <= k < |files| ==> xs[k] == EntryId(files[k])
  {
    if files == [] then [] else EntryIds(files[..|files| - 1]) + [EntryId(files[|files| - 1])]
  }

  /** The present values of `xs`, each once, in order of first appearance. */
  function FirstOccurrences(xs: seq<Option<string>>): seq<string> {
    if xs == [] then []
    else
      var prev := FirstOccurrences(xs[..|xs| - 1]);
      var x := xs[|xs| - 1];
      if x.Some? && x.value !in prev then prev + [x.value] else prev
  }

  /** The ids Manager.Tasks lists. */
  function TaskIds(files: seq<DirEntry>): seq<string> {
    FirstOccurrences(EntryIds(files))
  }

  /** One entry of the directory: skipped, or its task id. */
  method ReadEntry(f: DirEntry) returns (id: Option<string>)
    ensures id == EntryId(f)
  {
    var name := f.name;
    var ext := Ext(name);
    if !f.regular || (ext != ".yaml" && ext != ".sh") || name[0] == '.' || name[0] == '_' {
      return None;
    }
    ExtIsSuffix(name);
    var taskID := name[..|name| - |ext|];
    if ext == ".sh" {
      var p := IndexOf(taskID, '.');
      IndexOfFirst(taskID, '.');
      if p != -1 {
        taskID := taskID[..p];
      }
    }
    return Some(taskID);
  }

  /** Manager.Tasks over the entries of the tasks directory. */
  method Tasks(files: seq<DirEntry>) returns (tasks: seq<string>)
    ensures tasks == TaskIds(files)
  {
    tasks := [];
    var seen: set<string> := {};
    var i := 0;
    ghost var xs := EntryIds(files);
    while i < |files|
      invariant 0 <= i <= |files|
      invariant tasks == FirstOccurrences(xs[..i])
      invariant seen == set t | t in tasks
    {
      assert xs[..i + 1][..i] == xs[..i];
      var id := ReadEntry(files[i]);
      if id.None? {
        i := i + 1;
        continue;
      }
      var taskID := id.value;
      if taskID in seen {
        i := i + 1;
        continue;
      }
      seen := seen + {taskID};
      tasks := tasks + [taskID];
      i := i + 1;
    }
    assert xs[..i] == xs;
  }

  /** Every present value is in the list, and only those are. */
  lemma {:induction false} FirstOccurrencesExactly(xs: seq<Option<string>>, id: string)
    ensures id in FirstOccurrences(xs) <==> Some(id) in xs
  {
    if xs != [] {
      var init := xs[..|xs| - 1];
      FirstOccurrencesExactly(init, id);
      assert xs == init + [xs[|xs| - 1]];
    }
  }

  /** No value is listed twice. */
  lemma {:induction false} FirstOccurrencesDistinct(xs: seq<Option<string>>)
    ensures forall i, j :: 0 <= i < j < |FirstOccurrences(xs)| ==> FirstOccurrences(xs)[i] != FirstOccurrences(xs)[j]
  {
    if xs != [] {
      FirstOccurrencesDistinct(xs[..|xs| - 1]);
    }
  }

  /** Position of the first occurrence of `x`. */
  function FirstIndex<T(==)>(xs: seq<T>, x: T): (k: nat)
    requires x in xs
    ensures k < |xs| && xs[k] == x && x !in xs[..k]
  {
    if xs[0] == x then 0
    else
      var k := FirstIndex(xs[1..], x);
      assert xs[..k + 1] == [xs[0]] + xs[1..][..k];
      k + 1
  }

  lemma FirstIndexInPrefix(xs: seq<Option<string>>, n: nat, x: Option<string>)
    requires n <= |xs| && x in xs[..n]
    ensures FirstIndex(xs, x) == FirstIndex(xs[..n], x)
  {
    var a := FirstIndex(xs, x);
    var b := FirstIndex(xs[..n], x);
    assert xs[..n][..b] == xs[..b];
  }

  /** Values are listed in the order of their first occurrence. */
  lemma {:induction false} FirstOccurrencesOrdered(xs: seq<Option<string>>, i: nat, j: nat)
    requires i < j < |FirstOccurrences(xs)|
    ensures Some(FirstOccurrences(xs)[i]) in xs && Some(FirstOccurrences(xs)[j]) in xs
    ensures FirstIndex(xs, Some(FirstOccurrences(xs)[i])) < FirstIndex(xs, Some(FirstOccurrences(xs)[j]))
  {
    var init := xs[..|xs| - 1];
    var fo := FirstOccurrences(xs);
    var a, b := fo[i], fo[j];
    FirstOccurrencesExactly(xs, a);
    FirstOccurrencesExactly(xs, b);
    FirstOccurrencesExactly(init, a);
    FirstOccurrencesExactly(init, b);
    FirstIndexInPrefix(xs, |xs| - 1, Some(a));
    if j < |FirstOccurrences(init)| {
      FirstOccurrencesOrdered(init, i, j);
      FirstIndexInPrefix(xs, |xs| - 1, Some(b));
    } else {
      assert Some(b) !in init;
      assert xs == init + [Some(b)];
      assert FirstIndex(xs, Some(b)) == |xs| - 1;
    }
  }

  /** Some listed file has the id. */
  predicate Gives(files: seq<DirEntry>, id: string) {
    exists k :: 0 <= k < |files| && Listed(files[k]) && TaskIdOf(files[k].name) == id
  }

  /** The list holds exactly the ids of the listed files. */
  lemma TaskIdsExactly(files: seq<DirEntry>, id: string)
    ensures id in TaskIds(files) <==> Gives(files, id)
  {
    var xs := EntryIds(files);
    FirstOccurrencesExactly(xs, id);
    if Some(id) in xs {
      var k :| 0 <= k < |xs| && xs[k] == Some(id);
      assert Listed(files[k]) && TaskIdOf(files[k].name) == id;
    }
    if Gives(files, id) {
      var k :| 0 <= k < |files| && Listed(files[k]) && TaskIdOf(files[k].name) == id;
      assert xs[k] == Some(id);
    }
  }

  /** A name ending in '.' and a dot-free tail has that suffix as its
      extension. */
  lemma {:induction false} ExtOfSuffix(base: string, ext: string)
    requires |ext| >= 1 && ext[0] == '.'
    requires forall j :: 1 <= j < |ext| ==> ext[j] != '.' && ext[j] != '/'
    ensures Ext(base + ext) == ext
    decreases |ext|
  {
    var p := base + ext;
    if |ext| == 1 {
      assert p[|p| - 1..] == ext;
    } else {
      var e := ext[..|ext| - 1];
      var last := ext[|ext| - 1];
      assert p[|p| - 1] == last && last != '.' && last != '/';
      assert p[..|p| - 1] == base + e;
      ExtOfSuffix(base, e);
      assert Ext(p) == e + [last];
      assert e + [last] == ext;
    }
  }

  /** How names become ids: a part of a multi-part script joins its task, a
      YAML file keeps its inner dots. */
  lemma TaskIdExamples()
    ensures TaskIdOf("a.1.sh") == "a"
    ensures TaskIdOf("deploy.sh") == "deploy"
    ensures TaskIdOf("a.b.yaml") == "a.b"
  {
    ExtOfSuffix("a.1", ".sh");
    assert "a.1" + ".sh" == "a.1.sh";
    assert "a.1"[1..] == ".1";
    assert IndexOf("a.1", '.') == 1;
    assert "a.1"[..1] == "a";
    ExtOfSuffix("deploy", ".sh");
    assert "deploy" + ".sh" == "deploy.sh";
    IndexOfFirst("deploy", '.');
    ExtOfSuffix("a.b", ".yaml");
    assert "a.b" + ".yaml" == "a.b.yaml";
  }

  /** Which names are listed. */
  lemma ListedExamples()
    ensures Listed(DirEntry("a.sh", true))
    ensures !Listed(DirEntry("a.sh", false))
    ensures !Listed(DirEntry("_a.sh", true)) && !Listed(DirEntry(".a.sh", true))
    ensures !Listed(DirEntry("a.js", true))
  {
    ExtOfSuffix("a", ".sh");
    assert "a" + ".sh" == "a.sh";
    ExtOfSuffix("a", ".js");
    assert "a" + ".js" == "a.js";
  }

  // ------------------------------------------------------- manager defaults

  const DefaultTasksDir: string := "./tasks"

  class ManagerConfig {
    var tasksDir: string

    constructor (tasksDir: string)
      ensures this.tasksDir == tasksDir
    {
      this.tasksDir := tasksDir;
    }
  }

  /** The directory FillDefault leaves in a configuration. */
  function FilledTasksDir(dir: string): (d: string)
    ensures d != []
    ensures dir != [] ==> d == dir
  {
    if dir == "" then DefaultTasksDir else dir
  }

  /** ManagerConfig.FillDefault: a missing configuration becomes a new one,
      and an empty directory becomes "./tasks"; the result is the same
      object when one was given. */
  method FillManagerDefaults(conf: ManagerConfig?) returns (r: ManagerConfig)
    modifies conf
    ensures conf != null ==> r == conf && r.tasksDir == FilledTasksDir(old(conf.tasksDir))
    ensures conf == null ==> fresh(r) && r.tasksDir == DefaultTasksDir
  {
    if conf == null {
      r := new ManagerConfig("");
    } else {
      r := conf;
    }
    if r.tasksDir == "" {
      r.tasksDir := DefaultTasksDir;
    }
  }

  /** Filling the defaults twice changes nothing the first fill did not. */
  lemma FilledTasksDirIdempotent(dir: string)
    ensures FilledTasksDir(FilledTasksDir(dir)) == FilledTasksDir(dir)
    ensures FilledTasksDir(dir) == DefaultTasksDir <==> dir == [] || dir == DefaultTasksDir
  {
  }

  class Manager {
    const tasksDir: string

    /** NewManager: the directory of a manager is the filled-in one. */
    constructor (conf: ManagerConfig?)
      modifies conf
      ensures conf != null ==> tasksDir == FilledTasksDir(old(conf.tasksDir)) && conf.tasksDir == tasksDir
      ensures conf == null ==> tasksDir == DefaultTasksDir
    {
      var c := FillManagerDefaults(conf);
      tasksDir := c.tasksDir;
    }
  }

  // ---------------------------------------------------------------- runtime

  datatype Runtime = Js | Sh

  /** TaskConfig.Run: "js" runs in the embedded JavaScript engine, every other
      runtime (including none) as a shell command. */
  function RuntimeOf(c: TaskConfig): (r: Runtime)
    ensures r == Js <==> c.runtime == "js"
  {
    if c.runtime == "js" then Js else Sh
  }
}
