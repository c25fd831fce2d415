/**
 * Decimal text for integers, as both runtimes of the system produce and
 * read it: Go's fmt.Sprint / JavaScript's string concatenation of an
 * integer (IntToString), and Go's strconv.ParseInt(s, 10, 64) together with
 * strconv.Atoi on a 64-bit platform (ParseInt).
 */
module Decimal {

  const MinInt64: int := -0x8000_0000_0000_0000
  const MaxInt64: int := 0x7FFF_FFFF_FFFF_FFFF

  predicate IsDigit(c: char) {
    '0' <= c <= '9'
  }

  predicate AllDigits(s: string) {
    forall i :: 0 <= i < |s| ==> IsDigit(s[i])
  }

  function DigitChar(d: nat): (c: char)
    requires d < 10
    ensures IsDigit(c) && c as int - '0' as int == d
  {
    (('0' as int) + d) as char
  }

  function DigitValue(c: char): (d: nat)
    requires IsDigit(c)
    ensures d < 10
  {
    c as int - '0' as int
  }

  /** The value of a string of decimal digits, most significant first. */
  function DigitsValue(s: string): nat
    requires AllDigits(s)
  {
    if s == [] then 0 else DigitsValue(s[..|s| - 1]) * 10 + DigitValue(s[|s| - 1])
  }

  /** Shortest decimal representation of a natural number. */
  function NatToString(n: nat): (s: string)
    ensures |s| >= 1 && AllDigits(s)
    ensures |s| > 1 ==> s[0] != '0'
    decreases n
  {
    if n < 10 then [DigitChar(n)] else NatToString(n / 10) + [DigitChar(n % 10)]
  }

  /** Decimal representation of an integer, with a leading '-' when negative. */
  function IntToString(i: int): (s: string)
    ensures |s| >= 1
    ensures (s[0] == '-') <==> i < 0
    ensures i < 0 ==> s[1..] == NatToString(-i)
    ensures i >= 0 ==> s == NatToString(i)
  {
    if i < 0 then "-" + NatToString(-i) else NatToString(i)
  }

  lemma {:induction false} NatToStringValue(n: nat)
    ensures DigitsValue(NatToString(n)) == n
    decreases n
  {
    if n >= 10 {
      var s := NatToString(n);
      NatToStringValue(n / 10);
      assert s[..|s| - 1] == NatToString(n / 10);
    }
  }

  /** A number from 10 to 99 is written with its two digits. */
  lemma NatToStringTwoDigits(n: nat)
    requires 10 <= n < 100
    ensures NatToString(n) == [DigitChar(n / 10), DigitChar(n % 10)]
  {
    assert NatToString(n / 10) == [DigitChar(n / 10)];
  }

  /** NatToString is injective: distinct numbers have distinct text. */
  lemma NatToStringInjective(m: nat, n: nat)
    requires NatToString(m) == NatToString(n)
    ensures m == n
  {
    NatToStringValue(m);
    NatToStringValue(n);
  }

  /** What strconv.ParseInt(s, 10, 64) reports: a value, a range error with the
      clamped value, or a syntax error. */
  datatype ParseResult = Parsed(value: int) | OutOfRange(clamped: int) | SyntaxError

  const MaxUint64: int := 0xFFFF_FFFF_FFFF_FFFF

  /** The longest prefix of `s` made of decimal digits. */
  function DigitPrefix(s: string): (d: string)
    ensures |d| <= |s| && d == s[..|d|] && AllDigits(d)
    ensures |d| < |s| ==> !IsDigit(s[|d|])
  {
    if s == [] || !IsDigit(s[0]) then [] else [s[0]] + DigitPrefix(s[1..])
  }

  /** The base-10, 64-bit parse of Go's strconv: an optional sign, then one or
      more decimal digits and nothing else (underscores are accepted only for
      base 0). The digits are read left to right into an unsigned 64-bit
      value; the first digit that takes it past 2^64 - 1 ends the scan with a
      range error, before any later character is looked at, and a character
      that is not a digit met earlier is a syntax error. A valid number
      outside the signed 64-bit range, or an overflowed scan, yields the
      nearest bound together with a range error. strconv.Atoi gives the same
      values on a 64-bit platform. */
  function ParseInt(s: string): (r: ParseResult)
    ensures r.Parsed? ==> MinInt64 <= r.value <= MaxInt64
    ensures r.OutOfRange? ==> r.clamped == MinInt64 || r.clamped == MaxInt64
    ensures s == [] ==> r.SyntaxError?
  {
    if s == [] then SyntaxError
    else ParseDigits(s[0] == '-', if s[0] == '+' || s[0] == '-' then s[1..] else s)
  }

  /** The parse of the text after the sign; `neg` says the sign was '-'. */
  function ParseDigits(neg: bool, body: string): (r: ParseResult)
    ensures r.Parsed? ==> MinInt64 <= r.value <= MaxInt64
    ensures r.OutOfRange? ==> r.clamped == (if neg then MinInt64 else MaxInt64)
    ensures body == [] ==> r.SyntaxError?
  {
    if body != [] && AllDigits(body) then
      var un := DigitsValue(body);
      if !neg && un > MaxInt64 then OutOfRange(MaxInt64)
      else if neg && un > -MinInt64 then OutOfRange(MinInt64)
      else Parsed(if neg then 0 - un as int else un)
    else if DigitsValue(DigitPrefix(body)) > MaxUint64 then OutOfRange(if neg then MinInt64 else MaxInt64)
    else SyntaxError
  }

  /** A prefix of a digit string has no larger value. */
  lemma {:induction false} DigitsValuePrefix(s: string, k: nat)
    requires AllDigits(s) && k <= |s|
    ensures DigitsValue(s[..k]) <= DigitsValue(s)
    decreases |s|
  {
    if k < |s| {
      var init := s[..|s| - 1];
      assert init[..k] == s[..k];
      DigitsValuePrefix(init, k);
    } else {
      assert s[..k] == s;
    }
  }

  /** Digits followed by anything: the digit prefix starts with those digits. */
  lemma {:induction false} DigitPrefixOfDigits(d: string, rest: string)
    requires AllDigits(d)
    ensures |DigitPrefix(d + rest)| >= |d| && DigitPrefix(d + rest)[..|d|] == d
    decreases |d|
  {
    if d != [] {
      assert (d + rest)[1..] == d[1..] + rest;
      DigitPrefixOfDigits(d[1..], rest);
    }
  }

  /** A sign, then text starting with a digit: ParseInt parses that text
      with the sign's polarity. */
  lemma ParseIntSigned(sign: string, body: string)
    requires sign == "" || sign == "+" || sign == "-"
    requires body != [] && IsDigit(body[0])
    ensures ParseInt(sign + body) == ParseDigits(sign == "-", body)
  {
    var s := sign + body;
    if sign != "" {
      assert s[0] == sign[0] && s[1..] == body;
    } else {
      assert s == body;
    }
  }

  /** The scan stops at the first overflowing digit: digits worth more than
      2^64 - 1 give the bound of the sign with a range error, whatever
      follows them. */
  lemma ParseIntOverflowFirst(sign: string, d: string, rest: string)
    requires sign == "" || sign == "+" || sign == "-"
    requires AllDigits(d) && DigitsValue(d) > MaxUint64
    ensures ParseInt(sign + d + rest) == OutOfRange(if sign == "-" then MinInt64 else MaxInt64)
  {
    var body := d + rest;
    assert sign + d + rest == sign + body;
    ParseIntSigned(sign, body);
    ParseDigitsOverflow(sign == "-", d, rest);
  }

  /** The same after the sign. */
  lemma ParseDigitsOverflow(neg: bool, d: string, rest: string)
    requires AllDigits(d) && DigitsValue(d) > MaxUint64
    ensures ParseDigits(neg, d + rest) == OutOfRange(if neg then MinInt64 else MaxInt64)
  {
    var body := d + rest;
    if AllDigits(body) {
      assert body[..|d|] == d;
      DigitsValuePrefix(body, |d|);
    } else {
      DigitPrefixOfDigits(d, rest);
      DigitsValuePrefix(DigitPrefix(body), |d|);
    }
  }

  /** A character that is not a digit, met after one or more digits and
      before they overflow, is a syntax error. */
  lemma ParseIntSyntaxFirst(sign: string, d: string, rest: string)
    requires sign == "" || sign == "+" || sign == "-"
    requires d != [] && AllDigits(d) && DigitsValue(d) <= MaxUint64
    requires rest != [] && !IsDigit(rest[0])
    ensures ParseInt(sign + d + rest) == SyntaxError
  {
    var body := d + rest;
    assert sign + d + rest == sign + body;
    assert body[0] == d[0];
    ParseIntSigned(sign, body);
    ParseDigitsSyntax(sign == "-", d, rest);
  }

  /** The same after the sign. */
  lemma ParseDigitsSyntax(neg: bool, d: string, rest: string)
    requires AllDigits(d) && DigitsValue(d) <= MaxUint64
    requires rest != [] && !IsDigit(rest[0])
    ensures ParseDigits(neg, d + rest) == SyntaxError
  {
    var body := d + rest;
    assert body[..|d|] == d && body[|d|] == rest[0];
    ParseDigitsStop(neg, body, |d|);
  }

  /** Text whose first character that is not a digit comes at `k`, after
      digits worth at most 2^64 - 1, is a syntax error. */
  lemma ParseDigitsStop(neg: bool, body: string, k: nat)
    requires k < |body| && AllDigits(body[..k]) && !IsDigit(body[k])
    requires DigitsValue(body[..k]) <= MaxUint64
    ensures ParseDigits(neg, body) == SyntaxError
  {
    DigitPrefixAt(body, k);
    assert !AllDigits(body);
  }

  /** The digit prefix ends at the first character that is not a digit. */
  lemma DigitPrefixAt(s: string, k: nat)
    requires k < |s| && AllDigits(s[..k]) && !IsDigit(s[k])
    ensures DigitPrefix(s) == s[..k]
  {
    var p := DigitPrefix(s);
    assert forall i :: 0 <= i < |p| ==> IsDigit(s[i]);
    assert forall i :: 0 <= i < k ==> IsDigit(s[i]) by {
      forall i | 0 <= i < k ensures IsDigit(s[i]) {
        assert s[..k][i] == s[i];
      }
    }
  }

  /** The overflow case of the scan on a concrete text. */
  lemma ParseIntOverflowExample(s: string)
    requires s == "99999999999999999999x"
    ensures ParseInt(s) == OutOfRange(MaxInt64)
    ensures ParseInt("-" + s) == OutOfRange(MinInt64)
  {
    var d := "99999999999999999999";
    TwentyNines();
    assert s == "" + d + "x";
    ParseIntOverflowFirst("", d, "x");
    assert "-" + s == "-" + d + "x";
    ParseIntOverflowFirst("-", d, "x");
  }

  /** Twenty nines are worth more than 2^64 - 1. */
  lemma TwentyNines()
    ensures AllDigits("99999999999999999999") && DigitsValue("99999999999999999999") > MaxUint64
  {
    NinesValue(20);
    assert Pow10(10) == 10000000000;
    assert Pow10(20) == 100000000000000000000;
    assert Nines(10) == "9999999999";
    assert Nines(20) == "99999999999999999999";
  }

  /** `n` nines. */
  function Nines(n: nat): (s: string)
    ensures |s| == n
  {
    if n == 0 then [] else Nines(n - 1) + ['9']
  }

  function Pow10(n: nat): nat {
    if n == 0 then 1 else 10 * Pow10(n - 1)
  }

  /** `n` nines are worth 10^n - 1. */
  lemma {:induction false} NinesValue(n: nat)
    ensures AllDigits(Nines(n)) && DigitsValue(Nines(n)) + 1 == Pow10(n)
  {
    if n > 0 {
      NinesValue(n - 1);
      assert Nines(n)[..n - 1] == Nines(n - 1);
    }
  }

  /** The integer a caller that ignores the error (`v, _ := ...`) receives. */
  function ParsedOrZero(r: ParseResult): int {
    match r
    case Parsed(v) => v
    case OutOfRange(c) => c
    case SyntaxError => 0
  }

  /** Round trip: parsing the decimal text of any 64-bit integer gives it back. */
  lemma ParseIntToString(i: int)
    requires MinInt64 <= i <= MaxInt64
    ensures ParseInt(IntToString(i)) == Parsed(i)
  {
    var s := IntToString(i);
    if i < 0 {
      assert s[1..] == NatToString(-i);
      NatToStringValue(-i);
    } else {
      NatToStringValue(i);
    }
  }
}
