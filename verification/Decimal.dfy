/** Decimal text of integers, as produced by strconv.FormatInt and read back by
    strconv.ParseInt with base 10 and 64 bits. The user id travels through the
    access token in this form, and Redis keeps counters as decimal text. */
module Decimal {
  import opened Prelude

  const MIN_INT64: int := -0x8000_0000_0000_0000
  const MAX_INT64: int := 0x7fff_ffff_ffff_ffff

  predicate IsDigit(c: char) {
    '0' <= c <= '9'
  }

  function Digits(n: nat): string {
    if n < 10 then [('0' as int + n) as char]
    else Digits(n / 10) + [('0' as int + n % 10) as char]
  }

  /** The number a non-empty run of digits denotes, or None for any other text. */
  function Number(s: string): Option<nat> {
    if |s| == 0 || !IsDigit(s[|s| - 1]) then None
    else
      var last := s[|s| - 1] as int - '0' as int;
      if |s| == 1 then Some(last)
      else match Number(s[..|s| - 1])
        case None => None
        case Some(front) => Some(10 * front + last)
  }

  function FormatInt(i: int): string {
    if i < 0 then "-" + Digits(-i) else Digits(i)
  }

  /** An optional sign, at least one digit, nothing else, and a value that fits in 64 bits. */
  function ParseInt(s: string): Option<int> {
    if s == "" then None
    else
      var negative := s[0] == '-';
      var body := if s[0] == '-' || s[0] == '+' then s[1..] else s;
      match Number(body)
      case None => None
      case Some(n) =>
        var i := if negative then 0 - n as int else n as int;
        if MIN_INT64 <= i <= MAX_INT64 then Some(i) else None
  }

  lemma {:induction false} DigitsRoundTrip(n: nat)
    ensures Number(Digits(n)) == Some(n)
    ensures |Digits(n)| > 0 && forall k :: 0 <= k < |Digits(n)| ==> IsDigit(Digits(n)[k])
  {
    if n >= 10 {
      DigitsRoundTrip(n / 10);
      assert Digits(n)[..|Digits(n)| - 1] == Digits(n / 10);
    }
  }

  /** Text written by FormatInt is read back by ParseInt exactly when the number is a 64-bit one. */
  lemma IntRoundTrip(i: int)
    ensures ParseInt(FormatInt(i)) == if MIN_INT64 <= i <= MAX_INT64 then Some(i) else None
    ensures FormatInt(i) != ""
  {
    if i < 0 {
      DigitsRoundTrip(-i);
      assert FormatInt(i)[1..] == Digits(-i);
    } else {
      DigitsRoundTrip(i);
      assert IsDigit(Digits(i)[0]);
    }
  }

  function Power10(n: nat): nat {
    if n == 0 then 1 else 10 * Power10(n - 1)
  }

  lemma TenTimes(high: int, power: int, low: int)
    ensures 10 * (high * power + low) == high * (10 * power) + 10 * low
  {
  }

  lemma NumberOfLast(s: string)
    requires |s| > 1 && Number(s).Some?
    ensures Number(s[..|s| - 1]).Some? && IsDigit(s[|s| - 1])
    ensures Number(s).value == 10 * Number(s[..|s| - 1]).value + (s[|s| - 1] as int - '0' as int)
  {
  }

  /** A number followed by `k` more digits is ten to the `k` times it, and those. */
  lemma {:induction false} NumberOfBoth(a: string, b: string)
    requires Number(a).Some? && Number(b).Some?
    ensures Number(a + b) == Some(Number(a).value * Power10(|b|) + Number(b).value)
  {
    var n := |b| - 1;
    assert (a + b)[..|a + b| - 1] == a + b[..n];
    if n > 0 {
      NumberOfLast(b);
      NumberOfBoth(a, b[..n]);
      TenTimes(Number(a).value, Power10(n), Number(b[..n]).value);
    } else {
      assert a + b[..n] == a && Power10(1) == 10;
    }
  }

  /** The texts that denote a number are the non-empty runs of digits. */
  lemma {:induction false} NumberDomain(s: string)
    ensures Number(s).Some? <==> s != "" && forall k :: 0 <= k < |s| ==> IsDigit(s[k])
  {
    if |s| > 1 {
      NumberDomain(s[..|s| - 1]);
      assert forall k :: 0 <= k < |s| - 1 ==> s[k] == s[..|s| - 1][k];
    }
  }

  /** The ten digits count from nought to nine in the order of their characters. */
  lemma DigitsInOrder(c: char)
    ensures Number(['0']) == Some(0) && Number(['9']) == Some(9)
    ensures IsDigit(c) && c != '9' ==> Number([(c as int + 1) as char]) == Some(Number([c]).value + 1)
  {
  }

  /** The text is digits after at most one sign, and they denote this number. */
  ghost predicate Denotes(s: string, sign: string, body: string, i: int) {
    && s == sign + body && (sign == "" || sign == "+" || sign == "-") && Number(body).Some?
    && i == (if sign == "-" then 0 - Number(body).value as int else Number(body).value as int)
  }

  lemma ParsedDenotes(s: string) returns (sign: string, body: string)
    requires ParseInt(s).Some?
    ensures Denotes(s, sign, body, ParseInt(s).value) && MIN_INT64 <= ParseInt(s).value <= MAX_INT64
  {
    if s[0] == '-' || s[0] == '+' {
      sign, body := [s[0]], s[1..];
      assert s == sign + body;
    } else {
      sign, body := "", s;
      assert s == sign + body;
    }
  }

  lemma DenotedParses(s: string, sign: string, body: string, i: int)
    requires Denotes(s, sign, body, i) && MIN_INT64 <= i <= MAX_INT64
    ensures ParseInt(s) == Some(i)
  {
    NumberDomain(body);
    if sign == "" {
      assert s == body && IsDigit(s[0]);
    } else {
      assert s[0] == sign[0] && s[1..] == body;
    }
  }

  /** What strconv.ParseInt reads: digits after at most one sign, and only 64-bit values. */
  lemma ParseDomain(s: string, i: int)
    ensures ParseInt(s) == Some(i) <==>
              MIN_INT64 <= i <= MAX_INT64 && exists sign: string, body: string :: Denotes(s, sign, body, i)
  {
    if ParseInt(s) == Some(i) {
      var sign, body := ParsedDenotes(s);
    }
    if MIN_INT64 <= i <= MAX_INT64 && exists sign: string, body: string :: Denotes(s, sign, body, i) {
      var sign: string, body: string :| Denotes(s, sign, body, i);
      DenotedParses(s, sign, body, i);
    }
  }
}
