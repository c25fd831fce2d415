/**
 * The shell runner (task_shrunner.go): the environment the command runs
 * with, and the result it reports from the command's exit code. Running
 * bash itself is not modelled; the exit code is an input.
 */
module ShRunner {
  import opened Decimal

  /** The outcome of a task run; the shell runner never sets a result value. */
  datatype TaskResult = TaskResult(success: bool, canceled: bool, message: string)

  const ExitPrefix: string := "command exited with code "

  /** The result RunSh reports for exit code `code`. */
  function ShResult(code: int, canceledExitCode: int): (r: TaskResult)
    ensures r.canceled ==> !r.success
    ensures r.success <==> r.message == ""
  {
    TaskResult(
      code == 0,
      code != 0 && code == canceledExitCode,
      if code == 0 then "" else ExitPrefix + IntToString(code))
  }

  /** Only exit code 0 succeeds; a run is cancelled only when its non-zero
      code is the task's cancel code, so a cancelled run never succeeded and
      with the default cancel code 0 no run is cancelled; there is a message
      exactly when the run failed. */
  lemma ShResultClasses(code: int, canceledExitCode: int)
    ensures ShResult(code, canceledExitCode).success <==> code == 0
    ensures ShResult(code, canceledExitCode).canceled ==> !ShResult(code, canceledExitCode).success
    ensures ShResult(code, 0).canceled == false
    ensures ShResult(code, canceledExitCode).message != "" <==> !ShResult(code, canceledExitCode).success
  {
  }

  /** The message of a failed run gives its exit code back, so for 64-bit
      codes distinct failures have distinct messages. */
  lemma ShMessageCode(code: int, canceledExitCode: int)
    requires code != 0 && MinInt64 <= code <= MaxInt64
    ensures var m := ShResult(code, canceledExitCode).message;
      |m| > |ExitPrefix| && m[..|ExitPrefix|] == ExitPrefix && ParseInt(m[|ExitPrefix|..]) == Parsed(code)
  {
    var m := ShResult(code, canceledExitCode).message;
    assert m[|ExitPrefix|..] == IntToString(code);
    ParseIntToString(code);
  }

  /** An environment line: `name=value`. */
  function EnvLine(name: string, value: string): string {
    name + "=" + value
  }

  /** Each key of `keys` appears in `order` exactly once. */
  ghost predicate OrderOf(order: seq<string>, keys: set<string>) {
    && (forall i, j :: 0 <= i < j < |order| ==> order[i] != order[j])
    && (forall k :: k in order <==> k in keys)
  }

  /** The lines for the settings of `m` taken in the order `order`. */
  function LinesIn(order: seq<string>, m: map<string, string>): (ls: seq<string>)
    requires forall i :: 0 <= i < |order| ==> order[i] in m
    ensures |ls| == |order|
    ensures forall i {:trigger ls[i]} :: 0 <= i < |order| ==> ls[i] == EnvLine(order[i], m[order[i]])
  {
    if order == [] then []
    else LinesIn(order[..|order| - 1], m) + [EnvLine(order[|order| - 1], m[order[|order| - 1]])]
  }

  /** One of the append loops of RunSh, over a map in the order `order`,
      which the model leaves open (Go's map order). */
  method AppendLines(env: seq<string>, m: map<string, string>) returns (out: seq<string>, ghost order: seq<string>)
    ensures OrderOf(order, m.Keys) && |order| == |m|
    ensures out == env + LinesIn(order, m)
    ensures |out| == |env| + |m| && out[..|env|] == env
    ensures forall k :: k in m ==> EnvLine(k, m[k]) in out[|env|..]
  {
    out := env;
    var keys := m.Keys;
    order := [];
    while keys != {}
      invariant Pending(order, keys, m)
      invariant out == env + LinesIn(order, m)
      decreases keys
    {
      var k :| k in keys;
      PendingStep(order, keys, m, k);
      LinesInSnoc(order, k, m);
      out := out + [EnvLine(k, m[k])];
      order := order + [k];
      keys := keys - {k};
    }
    LinesInAfter(env, order, m);
  }

  /** Midway through the loop: `order` lists the keys of `m` done so far,
      once each, and `keys` holds the rest. */
  ghost predicate Pending(order: seq<string>, keys: set<string>, m: map<string, string>) {
    && keys <= m.Keys && |order| + |keys| == |m|
    && (forall i, j :: 0 <= i < j < |order| ==> order[i] != order[j])
    && (forall k :: k in order <==> k in m && k !in keys)
  }

  /** Taking one more key from `keys` keeps the loop's bookkeeping. */
  lemma PendingStep(order: seq<string>, keys: set<string>, m: map<string, string>, k: string)
    requires Pending(order, keys, m) && k in keys
    ensures Pending(order + [k], keys - {k}, m)
    ensures forall i :: 0 <= i < |order| ==> order[i] in m
    ensures k in m
  {
  }

  /** One more key adds its line at the end. */
  lemma LinesInSnoc(order: seq<string>, k: string, m: map<string, string>)
    requires forall i :: 0 <= i < |order| ==> order[i] in m
    requires k in m
    ensures LinesIn(order + [k], m) == LinesIn(order, m) + [EnvLine(k, m[k])]
  {
    assert (order + [k])[..|order|] == order;
  }

  /** The lines of `order`, after `env`: `env` stays in front and every key
      of `order` has its line after it. */
  lemma LinesInAfter(env: seq<string>, order: seq<string>, m: map<string, string>)
    requires forall i :: 0 <= i < |order| ==> order[i] in m
    requires forall k :: k in order <==> k in m
    requires |order| == |m|
    ensures |env + LinesIn(order, m)| == |env| + |m| && (env + LinesIn(order, m))[..|env|] == env
    ensures forall k :: k in m ==> EnvLine(k, m[k]) in (env + LinesIn(order, m))[|env|..]
  {
    assert (env + LinesIn(order, m))[|env|..] == LinesIn(order, m);
    LinesInHas(order, m);
  }

  /** Every key listed in `order` has its line among the lines. */
  lemma LinesInHas(order: seq<string>, m: map<string, string>)
    requires forall i :: 0 <= i < |order| ==> order[i] in m
    ensures forall k :: k in order ==> EnvLine(k, m[k]) in LinesIn(order, m)
  {
    forall k | k in order
      ensures EnvLine(k, m[k]) in LinesIn(order, m)
    {
      var i :| 0 <= i < |order| && order[i] == k;
      assert LinesIn(order, m)[i] == EnvLine(k, m[k]);
    }
  }

  /** The command's environment: the process environment, then a line per
      task setting, then a line per parameter (parameters already formatted
      as text), each block in some order of its keys. */
  method BuildEnv(environ: seq<string>, env: map<string, string>, params: map<string, string>)
    returns (cmdEnv: seq<string>, ghost envOrder: seq<string>, ghost paramOrder: seq<string>)
    ensures OrderOf(envOrder, env.Keys) && OrderOf(paramOrder, params.Keys)
    ensures cmdEnv == environ + LinesIn(envOrder, env) + LinesIn(paramOrder, params)
    ensures |cmdEnv| == |environ| + |env| + |params|
  {
    var withEnv;
    withEnv, envOrder := AppendLines(environ, env);
    cmdEnv, paramOrder := AppendLines(withEnv, params);
  }
}
