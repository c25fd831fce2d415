/**
 * The pieces of the HTTP server (server.go) that compute something: the
 * run parameters taken from a posted form, the run id of a stop request,
 * the task id in a request path, and the fixed time zone and listening
 * address chosen at start-up. HTTP handling itself is not modelled.
 */
module Server {
  import opened Wrappers
  import opened Decimal
  import opened Task

  // ------------------------------------------------------------ form params

  predicate HasPrefix(s: string, prefix: string) {
    |prefix| <= |s| && s[..|prefix|] == prefix
  }

  /** The parameter a form key sets: the rest of a key starting with
      "VARS." or "PARAMS.", and none for any other key. */
  function ParamName(key: string): (n: Option<string>)
    ensures n.Some? ==> |n.value| < |key| && key[|key| - |n.value|..] == n.value
  {
    if HasPrefix(key, "VARS.") then Some(key[5..])
    else if HasPrefix(key, "PARAMS.") then Some(key[7..])
    else None
  }

  /** Both prefixes give the name after them, and a key with neither names
      no parameter. */
  lemma ParamNameSpec(name: string, key: string)
    ensures ParamName("VARS." + name) == Some(name)
    ensures ParamName("PARAMS." + name) == Some(name)
    ensures !HasPrefix(key, "VARS.") && !HasPrefix(key, "PARAMS.") ==> ParamName(key) == None
  {
    assert ("VARS." + name)[..5] == "VARS.";
    assert ("PARAMS." + name)[..7] == "PARAMS.";
    assert ("PARAMS." + name)[..5][0] == 'P';
  }

  /** Whether some form key names the parameter `name`. */
  ghost predicate Named(form: map<string, seq<string>>, name: string) {
    exists fk :: fk in form && ParamName(fk) == Some(name)
  }

  /** The parameter loop of handlePostTask, starting from `seed` (the task's
      variables for an invoke, nothing for a run). A form key without a
      value would make Go index out of range; the form decoder never
      produces one. */
  method ExtractParams(seed: map<string, Value>, form: map<string, seq<string>>) returns (params: map<string, Value>)
    requires forall fk :: fk in form ==> form[fk] != []
    ensures forall k :: k in params <==> k in seed || Named(form, k)
    ensures forall k :: k in params && !Named(form, k) ==> params[k] == seed[k]
    ensures forall k :: k in params && Named(form, k) ==>
      exists fk :: fk in form && ParamName(fk) == Some(k) && params[k] == Val(form[fk][0])
  {
    params := seed;
    var keys := form.Keys;
    while keys != {}
      invariant keys <= form.Keys
      invariant forall k :: k in params <==> k in seed || exists fk :: fk in form && fk !in keys && ParamName(fk) == Some(k)
      invariant forall k :: k in params && !(exists fk :: fk in form && fk !in keys && ParamName(fk) == Some(k)) ==>
        params[k] == seed[k]
      invariant forall k :: k in params && (exists fk :: fk in form && fk !in keys && ParamName(fk) == Some(k)) ==>
        exists fk :: fk in form && fk !in keys && ParamName(fk) == Some(k) && params[k] == Val(form[fk][0])
      decreases keys
    {
      var fk :| fk in keys;
      var name := ParamName(fk);
      if name.Some? {
        params := params[name.value := Val(form[fk][0])];
      }
      keys := keys - {fk};
    }
  }

  /** When only one form key names a parameter, the parameter is that key's
      first value. */
  lemma ExtractedValue(seed: map<string, Value>, form: map<string, seq<string>>, params: map<string, Value>, fk: string)
    requires forall f :: f in form ==> form[f] != []
    requires forall k :: k in params <==> k in seed || Named(form, k)
    requires forall k :: k in params && Named(form, k) ==>
      exists f :: f in form && ParamName(f) == Some(k) && params[k] == Val(form[f][0])
    requires fk in form && ParamName(fk).Some?
    requires forall f :: f in form && ParamName(f) == ParamName(fk) ==> f == fk
    ensures ParamName(fk).value in params && params[ParamName(fk).value] == Val(form[fk][0])
  {
    assert Named(form, ParamName(fk).value);
  }

  // -------------------------------------------------------- ids in requests

  /** The run id of a stop request: ParseInt's value, where a syntax error
      (the field missing or not a number) gives 0 and a number out of range
      gives the nearest 64-bit bound. */
  function RunIdOf(s: string): (id: int)
    ensures MinInt64 <= id <= MaxInt64
  {
    ParsedOrZero(ParseInt(s))
  }

  /** Every 64-bit run id survives the trip through its decimal text, and a
      missing or non-numeric field means run 0. */
  lemma RunIdOfText(i: int)
    requires MinInt64 <= i <= MaxInt64
    ensures RunIdOf(IntToString(i)) == i
    ensures RunIdOf("") == 0 && RunIdOf("abc") == 0 && RunIdOf("-") == 0
  {
    ParseIntToString(i);
    assert !AllDigits("abc") by { assert !IsDigit("abc"[0]); }
  }

  /** A run of digits past 2^64-1 gives the bound of its sign, whatever
      follows it. */
  lemma RunIdOfOverflow(s: string)
    requires s == "99999999999999999999x"
    ensures RunIdOf(s) == MaxInt64 && RunIdOf("-" + s) == MinInt64
  {
    ParseIntOverflowExample(s);
  }

  /** taskHandler's task id: the path (with "/tasks/" already stripped) up to
      its first '/', or all of it. */
  function PathTaskId(path: string): (id: string)
    ensures |id| <= |path| && path[..|id|] == id
    ensures '/' !in id
  {
    var p := IndexOf(path, '/');
    IndexOfFirst(path, '/');
    if p == -1 then path else path[..p]
  }

  /** The task id is the longest prefix of the path without '/': the path is
      the id itself or continues with '/'. */
  lemma PathTaskIdSpec(path: string)
    ensures var id := PathTaskId(path);
      && |id| <= |path| && path[..|id|] == id
      && (forall j :: 0 <= j < |id| ==> id[j] != '/')
      && (id == path || path[|id|] == '/')
  {
    IndexOfFirst(path, '/');
  }

  /** The id ignores everything from the first '/' on. */
  lemma PathTaskIdOfSuffix(id: string, rest: string)
    requires forall j :: 0 <= j < |id| ==> id[j] != '/'
    ensures PathTaskId(id + "/" + rest) == id
    ensures PathTaskId(id) == id
  {
    var path := id + "/" + rest;
    IndexOfFirst(path, '/');
    IndexOfFirst(id, '/');
    var p := IndexOf(path, '/');
    assert path[|id|] == '/';
    assert p == |id|;
    assert path[..|id|] == id;
  }

  // ----------------------------------------------------------- start-up

  /** strings.LastIndexAny(s, "+-"): the last position of a sign, or -1. */
  function LastSign(s: string): (p: int)
    ensures -1 <= p < |s|
    ensures p >= 0 ==> (s[p] == '+' || s[p] == '-')
    ensures forall j :: p < j < |s| ==> s[j] != '+' && s[j] != '-'
  {
    if s == [] then -1
    else if s[|s| - 1] == '+' || s[|s| - 1] == '-' then |s| - 1
    else LastSign(s[..|s| - 1])
  }

  const TwoTo64: int := 0x1_0000_0000_0000_0000

  /** An int result of Go's 64-bit arithmetic: the value modulo 2^64, in the
      signed range. */
  function Wrap64(x: int): (r: int)
    ensures MinInt64 <= r <= MaxInt64
    ensures MinInt64 <= x <= MaxInt64 ==> r == x
  {
    (x - MinInt64) % TwoTo64 + MinInt64
  }

  /** A fixed time zone: its name and its offset east of UTC in seconds. */
  datatype Zone = Zone(name: string, offset: int)

  /** The fixed zone GOTASK_FIXED_TZ asks for: none without a sign; else the
      whole text names it, and the number from the last sign on, counted in
      hours west of UTC as in POSIX TZ, gives the offset (a text that is
      not a number counts as 0). */
  function FixedZone(tz: string): (z: Option<Zone>)
    ensures z.None? <==> forall j :: 0 <= j < |tz| ==> tz[j] != '+' && tz[j] != '-'
    ensures z.Some? ==> z.value.name == tz && MinInt64 <= z.value.offset <= MaxInt64
  {
    var p := LastSign(tz);
    if p < 0 then None
    else
      var hours := ParsedOrZero(ParseInt(tz[p..]));
      Some(Zone(tz, OffsetSeconds(hours)))
  }

  /** Go's `-offset*3600` on int: the seconds east of UTC of a zone `hours`
      west of it, wrapped to 64 bits. */
  function OffsetSeconds(hours: int): (s: int)
    ensures MinInt64 <= s <= MaxInt64
  {
    Wrap64(Wrap64(-hours) * 3600)
  }

  /** Text without signs after the last sign does not move it. */
  lemma {:induction false} LastSignAppend(a: string, b: string)
    requires forall j :: 0 <= j < |b| ==> b[j] != '+' && b[j] != '-'
    ensures LastSign(a + b) == LastSign(a)
  {
    if b != [] {
      var init := b[..|b| - 1];
      LastSignAppend(a, init);
      var ab := a + b;
      assert ab[|ab| - 1] == b[|b| - 1];
      assert ab[..|ab| - 1] == a + init;
      assert LastSign(ab) == LastSign(ab[..|ab| - 1]);
    } else {
      assert a + b == a;
    }
  }

  /** A sign and the decimal text of an hour count parse to the signed count. */
  lemma SignedHoursValue(sign: char, hours: int)
    requires sign == '+' || sign == '-'
    requires 0 <= hours <= MaxInt64
    ensures ParseInt([sign] + NatToString(hours)) == Parsed(if sign == '-' then 0 - hours else hours)
  {
    var digits := NatToString(hours);
    assert ([sign] + digits)[1..] == digits;
    NatToStringValue(hours);
  }

  /** The text from the last sign on parses to the signed hour count. */
  lemma SignedHours(name: string, sign: char, hours: int)
    requires forall j :: 0 <= j < |name| ==> name[j] != '+' && name[j] != '-'
    requires sign == '+' || sign == '-'
    requires 0 <= hours <= MaxInt64
    ensures var tz := name + [sign] + NatToString(hours);
      LastSign(tz) == |name| &&
      ParseInt(tz[|name|..]) == Parsed(if sign == '-' then 0 - hours else hours)
  {
    var digits := NatToString(hours);
    var tz := name + [sign] + digits;
    LastSignAppend(name + [sign], digits);
    assert LastSign(name + [sign]) == |name|;
    assert tz[|name|..] == [sign] + digits;
    SignedHoursValue(sign, hours);
  }

  /** For any hour count that fits, the offset is exactly the hours west of
      UTC in seconds; without a sign there is no fixed zone. */
  lemma FixedZoneOffset(name: string, hours: int)
    requires forall j :: 0 <= j < |name| ==> name[j] != '+' && name[j] != '-'
    requires 0 <= hours < 0x1_0000_0000
    ensures FixedZone(name + "-" + NatToString(hours)) == Some(Zone(name + "-" + NatToString(hours), hours * 3600))
    ensures FixedZone(name + "+" + NatToString(hours)) == Some(Zone(name + "+" + NatToString(hours), (0 - hours) * 3600))
    ensures FixedZone(name) == None
  {
    FixedZoneSigned(name, '-', hours);
    FixedZoneSigned(name, '+', hours);
  }

  /** One sign of FixedZoneOffset. */
  lemma FixedZoneSigned(name: string, sign: char, hours: int)
    requires forall j :: 0 <= j < |name| ==> name[j] != '+' && name[j] != '-'
    requires sign == '+' || sign == '-'
    requires 0 <= hours < 0x1_0000_0000
    ensures FixedZone(name + [sign] + NatToString(hours)) ==
      Some(Zone(name + [sign] + NatToString(hours), (if sign == '-' then hours else 0 - hours) * 3600))
  {
    var tz := name + [sign] + NatToString(hours);
    SignedHours(name, sign, hours);
    if sign == '-' {
      FixedZoneAt(tz, |name|, 0 - hours);
      NoWrap(0 - hours);
    } else {
      FixedZoneAt(tz, |name|, hours);
      NoWrap(hours);
    }
  }

  /** FixedZone of a text whose last sign is at `p` and whose number from
      there on is `hours`. */
  lemma FixedZoneAt(tz: string, p: nat, hours: int)
    requires LastSign(tz) == p
    requires ParseInt(tz[p..]) == Parsed(hours)
    ensures FixedZone(tz) == Some(Zone(tz, OffsetSeconds(hours)))
  {
    assert ParsedOrZero(ParseInt(tz[p..])) == hours;
  }

  /** Hour counts below 2^32 never wrap when turned into seconds. */
  lemma NoWrap(h: int)
    requires -0x1_0000_0000 < h < 0x1_0000_0000
    ensures OffsetSeconds(h) == (0 - h) * 3600
  {
    assert Wrap64(-h) == 0 - h;
    assert -0x1_0000_0000 * 3600 < (0 - h) * 3600 < 0x1_0000_0000 * 3600;
  }

  /** The zone of the example setting JST-9 is nine hours east of UTC. */
  lemma FixedZoneJst()
    ensures FixedZone("JST-9") == Some(Zone("JST-9", 32400))
  {
    FixedZoneOffset("JST", 9);
    assert NatToString(9) == "9";
    assert "JST" + "-" + "9" == "JST-9";
  }

  /** A sign followed by something that is not a number gives offset 0. */
  lemma FixedZoneNotANumber(name: string, rest: string)
    requires forall j :: 0 <= j < |name| ==> name[j] != '+' && name[j] != '-'
    requires forall j :: 0 <= j < |rest| ==> rest[j] != '+' && rest[j] != '-'
    requires rest == [] || !IsDigit(rest[0])
    ensures FixedZone(name + "-" + rest) == Some(Zone(name + "-" + rest, 0))
  {
    var tz := name + "-" + rest;
    assert tz[|name|] == '-';
    assert forall j :: |name| < j < |tz| ==> tz[j] == rest[j - |name| - 1];
    assert LastSign(tz) == |name|;
    assert tz[|name|..] == "-" + rest;
    assert ("-" + rest)[1..] == rest;
    if rest != [] {
      assert !AllDigits(rest) by { assert !IsDigit(rest[0]); }
    }
  }

  /** An hour count whose digits pass 2^64-1 is read as the sign's 64-bit
      bound whatever follows, and its seconds wrap around: after "+" the
      zone is one hour east of UTC, after "-" it is UTC. */
  lemma FixedZoneOverflow(name: string, d: string, rest: string)
    requires forall j :: 0 <= j < |name| ==> name[j] != '+' && name[j] != '-'
    requires forall j :: 0 <= j < |rest| ==> rest[j] != '+' && rest[j] != '-'
    requires AllDigits(d) && DigitsValue(d) > MaxUint64
    ensures FixedZone(name + "+" + (d + rest)) == Some(Zone(name + "+" + (d + rest), 3600))
    ensures FixedZone(name + "-" + (d + rest)) == Some(Zone(name + "-" + (d + rest), 0))
  {
    FixedZoneOverflowSigned(name, "+", d, rest);
    FixedZoneOverflowSigned(name, "-", d, rest);
    BoundHours();
  }

  /** The seconds of the two 64-bit bounds as hour counts west of UTC. */
  lemma BoundHours()
    ensures OffsetSeconds(MaxInt64) == 3600
    ensures OffsetSeconds(MinInt64) == 0
  {
    assert Wrap64(0 - MaxInt64) * 3600 == 3600 - 1800 * TwoTo64;
    WrapPeriod(3600 - 1800 * TwoTo64, 1800);
    WrapPeriod(MinInt64, 1);
    assert Wrap64(0 - MinInt64) * 3600 == 0 - 1800 * TwoTo64;
    WrapPeriod(0 - 1800 * TwoTo64, 1800);
  }

  /** Adding whole multiples of 2^64 does not change a wrapped value. */
  lemma {:induction false} WrapPeriod(x: int, k: nat)
    ensures Wrap64(x + k * TwoTo64) == Wrap64(x)
  {
    if k > 0 {
      WrapPeriod(x, k - 1);
      var y := x + (k - 1) * TwoTo64;
      assert x + k * TwoTo64 == y + TwoTo64;
      assert (y + TwoTo64 - MinInt64) % TwoTo64 == (y - MinInt64) % TwoTo64;
    }
  }

  /** One sign of FixedZoneOverflow, before the wrap-around is worked out. */
  lemma FixedZoneOverflowSigned(name: string, sign: string, d: string, rest: string)
    requires forall j :: 0 <= j < |name| ==> name[j] != '+' && name[j] != '-'
    requires forall j :: 0 <= j < |rest| ==> rest[j] != '+' && rest[j] != '-'
    requires sign == "+" || sign == "-"
    requires AllDigits(d) && DigitsValue(d) > MaxUint64
    ensures var hours := if sign == "-" then MinInt64 else MaxInt64;
      FixedZone(name + sign + (d + rest)) == Some(Zone(name + sign + (d + rest), OffsetSeconds(hours)))
  {
    var tail := d + rest;
    var bound := if sign == "-" then MinInt64 else MaxInt64;
    var tz := name + sign + tail;
    assert LastSign(tz) == |name| && tz[|name|..] == sign + tail by {
      DigitsThenNoSign(d, rest);
      SignBeforeTail(name, sign, tail);
    }
    assert ParseInt(sign + tail) == OutOfRange(bound) by {
      ParseIntOverflowFirst(sign, d, rest);
      assert sign + d + rest == sign + tail;
    }
    FixedZoneClamped(tz, |name|, bound);
  }

  /** A sign between text without signs is the last sign, and the text from
      it on is the sign and what follows. */
  lemma SignBeforeTail(name: string, sign: string, tail: string)
    requires forall j :: 0 <= j < |name| ==> name[j] != '+' && name[j] != '-'
    requires forall j :: 0 <= j < |tail| ==> tail[j] != '+' && tail[j] != '-'
    requires sign == "+" || sign == "-"
    ensures LastSign(name + sign + tail) == |name|
    ensures (name + sign + tail)[|name|..] == sign + tail
  {
    LastSignAppend(name + sign, tail);
    assert LastSign(name + sign) == |name|;
  }

  /** Digits followed by text without signs hold no sign. */
  lemma DigitsThenNoSign(d: string, rest: string)
    requires AllDigits(d)
    requires forall j :: 0 <= j < |rest| ==> rest[j] != '+' && rest[j] != '-'
    ensures forall j :: 0 <= j < |d + rest| ==> (d + rest)[j] != '+' && (d + rest)[j] != '-'
  {
    forall j | 0 <= j < |d + rest| ensures (d + rest)[j] != '+' && (d + rest)[j] != '-' {
      if j < |d| { assert IsDigit(d[j]); } else { assert (d + rest)[j] == rest[j - |d|]; }
    }
  }

  /** FixedZone of a text whose last sign is at `p` and whose number from
      there on overflows to `bound`. */
  lemma FixedZoneClamped(tz: string, p: nat, bound: int)
    requires LastSign(tz) == p
    requires ParseInt(tz[p..]) == OutOfRange(bound)
    ensures FixedZone(tz) == Some(Zone(tz, OffsetSeconds(bound)))
  {
    assert ParsedOrZero(ParseInt(tz[p..])) == bound;
  }

  /** X+ followed by twenty nines and a letter: one hour east of UTC. */
  lemma FixedZoneOverflowExample(name: string, d: string, rest: string)
    requires name == "X" && d == "99999999999999999999" && rest == "h"
    ensures FixedZone(name + "+" + (d + rest)) == Some(Zone(name + "+" + (d + rest), 3600))
  {
    TwentyNines();
    FixedZoneOverflow(name, d, rest);
  }

  const DefaultPort: string := "8080"

  /** GOTASK_HTTP_PORT, where an empty setting means 8080. */
  function PortOrDefault(port: string): (r: string)
    ensures r != []
    ensures port != [] ==> r == port
  {
    if port == "" then DefaultPort else port
  }

  /** What main sets up before serving: the local time zone (unchanged when
      None) and the address to listen on. */
  method StartUp(fixedTz: string, portEnv: string, host: string) returns (local: Option<Zone>, addr: string)
    ensures local == FixedZone(fixedTz)
    ensures addr == host + ":" + PortOrDefault(portEnv)
  {
    local := None;
    var p := LastSign(fixedTz);
    if p >= 0 {
      var offset := ParsedOrZero(ParseInt(fixedTz[p..]));
      local := Some(Zone(fixedTz, OffsetSeconds(offset)));
    }
    var port := portEnv;
    if port == "" {
      port := DefaultPort;
    }
    addr := host + ":" + port;
  }
}
