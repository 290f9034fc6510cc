/**
 * Decimal rendering of integers, as Python's f-string formatting writes them
 * (an optional '-' followed by digits without leading zeros), and the parsers
 * that read such text back.
 */
module Decimal {
  import opened Wrappers

  predicate IsDigit(c: char) {
    '0' <= c <= '9'
  }

  predicate AllDigits(s: string) {
    forall i :: 0 <= i < |s| ==> IsDigit(s[i])
  }

  function DigitValue(c: char): (d: nat)
    requires IsDigit(c)
    ensures d < 10
  {
    c as int - '0' as int
  }

  function DigitChar(d: nat): (c: char)
    requires d < 10
    ensures IsDigit(c) && DigitValue(c) == d
  {
    ('0' as int + d) as char
  }

  /** The digits of `n`, most significant first. */
  function NatToDecimal(n: nat): (s: string)
    ensures |s| >= 1 && AllDigits(s)
    ensures s[0] == '0' ==> n == 0
    decreases n
  {
    if n < 10 then [DigitChar(n)] else NatToDecimal(n / 10) + [DigitChar(n % 10)]
  }

  /** The number a run of digits denotes (0 for the empty run). */
  function DecimalValue(s: string): nat
    requires AllDigits(s)
    decreases |s|
  {
    if s == [] then 0 else DecimalValue(s[..|s| - 1]) * 10 + DigitValue(s[|s| - 1])
  }

  function ParseNat(s: string): Option<nat> {
    if |s| >= 1 && AllDigits(s) then Some(DecimalValue(s)) else None
  }

  /** Rendering of a (possibly negative) integer. */
  function IntToDecimal(i: int): (s: string)
    ensures |s| >= 1
    ensures s[0] == '-' <==> i < 0
  {
    if i < 0 then "-" + NatToDecimal(-i) else NatToDecimal(i)
  }

  function ParseInt(s: string): Option<int> {
    if |s| >= 1 && s[0] == '-' then
      var n :- ParseNat(s[1..]);
      Some(-(n as int))
    else
      var n :- ParseNat(s);
      Some(n)
  }

  /** Length of the longest run of digits at the start of `s`. */
  function DigitRun(s: string): (k: nat)
    ensures k <= |s|
    ensures AllDigits(s[..k])
    ensures k < |s| ==> !IsDigit(s[k])
    decreases |s|
  {
    if s == [] || !IsDigit(s[0]) then 0 else 1 + DigitRun(s[1..])
  }

  /** Reads a natural number at the start of `s`, returning it and the text after it. */
  function ReadNat(s: string): Option<(nat, string)> {
    var k := DigitRun(s);
    if k == 0 then None else Some((DecimalValue(s[..k]), s[k..]))
  }

  lemma {:induction false} DecimalValueOfNatToDecimal(n: nat)
    ensures DecimalValue(NatToDecimal(n)) == n
    decreases n
  {
    var s := NatToDecimal(n);
    if n >= 10 {
      DecimalValueOfNatToDecimal(n / 10);
      assert s[..|s| - 1] == NatToDecimal(n / 10);
    }
  }

  /** Reading back what NatToDecimal wrote gives the same number. */
  lemma NatRoundTrip(n: nat)
    ensures ParseNat(NatToDecimal(n)) == Some(n)
  {
    DecimalValueOfNatToDecimal(n);
  }

  lemma {:induction false} LeadingDigitPositive(s: string)
    requires |s| >= 1 && AllDigits(s) && s[0] != '0'
    ensures DecimalValue(s) >= 1
    decreases |s|
  {
    if |s| > 1 {
      LeadingDigitPositive(s[..|s| - 1]);
    }
  }

  /** Conversely, every canonical digit string is what NatToDecimal writes for its value. */
  lemma {:induction false} CanonicalRoundTrip(s: string)
    requires |s| >= 1 && AllDigits(s)
    requires s[0] != '0' || |s| == 1
    ensures NatToDecimal(DecimalValue(s)) == s
    decreases |s|
  {
    var last := s[|s| - 1];
    if |s| == 1 {
      assert s == [DigitChar(DigitValue(last))];
    } else {
      var p := s[..|s| - 1];
      CanonicalRoundTrip(p);
      LeadingDigitPositive(p);
      var n := DecimalValue(s);
      assert n / 10 == DecimalValue(p) && n % 10 == DigitValue(last);
      assert s == p + [DigitChar(DigitValue(last))];
    }
  }

  lemma IntRoundTrip(i: int)
    ensures ParseInt(IntToDecimal(i)) == Some(i)
  {
    var s := IntToDecimal(i);
    if i < 0 {
      NatRoundTrip(-i);
      assert s[1..] == NatToDecimal(-i);
    } else {
      NatRoundTrip(i);
    }
  }

  lemma {:induction false} DigitRunOfConcat(d: string, t: string)
    requires AllDigits(d)
    requires t == [] || !IsDigit(t[0])
    ensures DigitRun(d + t) == |d|
    decreases |d|
  {
    if d != [] {
      DigitRunOfConcat(d[1..], t);
      assert (d + t)[1..] == d[1..] + t;
    }
  }

  /** A number followed by text not starting with a digit is read back exactly. */
  lemma ReadNatOfConcat(n: nat, t: string)
    requires t == [] || !IsDigit(t[0])
    ensures ReadNat(NatToDecimal(n) + t) == Some((n, t))
  {
    var d := NatToDecimal(n);
    DigitRunOfConcat(d, t);
    assert (d + t)[..|d|] == d && (d + t)[|d|..] == t;
    DecimalValueOfNatToDecimal(n);
  }
}
