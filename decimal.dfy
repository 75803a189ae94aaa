/**
 * Decimal text of integers, as `operator<<` writes an `int` into the
 * statement text of the insert functions: an optional minus sign followed by
 * the digits, with no leading zeros and no padding.
 *
 * `ReadInt` is the partner that reads such a number back off the front of a
 * text.
 */
module Decimal {
  import opened Wrappers

  predicate IsDigit(c: char)
  {
    '0' <= c <= '9'
  }

  predicate AllDigits(s: string)
  {
    forall k :: 0 <= k < |s| ==> IsDigit(s[k])
  }

  function DigitChar(d: nat): (c: char)
    requires d < 10
  {
    ('0' as int + d) as char
  }

  function DigitValue(c: char): (d: nat)
    requires IsDigit(c)
  {
    c as int - '0' as int
  }

  /** The shortest decimal text of `n`: digits only, and a leading zero only for 0 itself. */
  function NatToDecimal(n: nat): (r: string)
    ensures |r| > 0 && AllDigits(r)
    ensures r[0] == '0' <==> n == 0
    decreases n
  {
    if n < 10 then [DigitChar(n)] else NatToDecimal(n / 10) + [DigitChar(n % 10)]
  }

  /** The number a text of digits stands for. */
  function DecimalValue(ds: string): (n: nat)
    requires AllDigits(ds)
    decreases |ds|
  {
    if ds == [] then 0 else 10 * DecimalValue(ds[..|ds| - 1]) + DigitValue(ds[|ds| - 1])
  }

  lemma {:induction false} DecimalValueOfNat(n: nat)
    ensures DecimalValue(NatToDecimal(n)) == n
    decreases n
  {
    if n >= 10 {
      DecimalValueOfNat(n / 10);
      var r := NatToDecimal(n);
      assert r[..|r| - 1] == NatToDecimal(n / 10);
    }
  }

  /** How an `int` is written: a minus sign for a negative number, then its magnitude. */
  function IntToDecimal(i: int): (r: string)
    ensures |r| > 0 && (r[0] == '-' || IsDigit(r[0]))
  {
    if i < 0 then "-" + NatToDecimal(-i) else NatToDecimal(i)
  }

  /** Length of the longest prefix of `t` made of digits. */
  function DigitRun(t: string): (k: nat)
    ensures k <= |t|
    ensures forall j :: 0 <= j < k ==> IsDigit(t[j])
    ensures k < |t| ==> !IsDigit(t[k])
    decreases |t|
  {
    if t != [] && IsDigit(t[0]) then 1 + DigitRun(t[1..]) else 0
  }

  /** Reads the digits at the front of `t`; None when `t` does not start with a digit. */
  function ReadNat(t: string): (r: Option<(nat, string)>)
    ensures r.Some? ==> |r.value.1| < |t|
  {
    var k := DigitRun(t);
    if k == 0 then None else Some((DecimalValue(t[..k]), t[k..]))
  }

  /** Reads an optionally negative decimal number at the front of `t`. */
  function ReadInt(t: string): (r: Option<(int, string)>)
    ensures r.Some? ==> |r.value.1| < |t|
  {
    if t != [] && t[0] == '-' then
      match ReadNat(t[1..])
      case None => None
      case Some((n, rest)) => Some((-(n as int), rest))
    else
      match ReadNat(t)
      case None => None
      case Some((n, rest)) => Some((n as int, rest))
  }

  /** The digit run of a text of digits stops exactly where the digits stop. */
  lemma {:induction false} DigitRunOfDigits(ds: string, rest: string)
    requires AllDigits(ds)
    requires rest == [] || !IsDigit(rest[0])
    ensures DigitRun(ds + rest) == |ds|
    decreases |ds|
  {
    if ds == [] {
      assert ds + rest == rest;
    } else {
      assert (ds + rest)[1..] == ds[1..] + rest;
      DigitRunOfDigits(ds[1..], rest);
    }
  }

  lemma ReadNatDecimal(n: nat, rest: string)
    requires rest == [] || !IsDigit(rest[0])
    ensures ReadNat(NatToDecimal(n) + rest) == Some((n, rest))
  {
    var ds := NatToDecimal(n);
    var t := ds + rest;
    var k := DigitRun(t);
    DigitRunOfDigits(ds, rest);
    assert t[..k] == ds && t[k..] == rest;
    DecimalValueOfNat(n);
  }

  /**
   * Round trip: the decimal text of `i`, followed by anything that is not a
   * digit, reads back as `i` and leaves exactly what followed.
   */
  lemma ReadIntDecimal(i: int, rest: string)
    requires rest == [] || !IsDigit(rest[0])
    ensures ReadInt(IntToDecimal(i) + rest) == Some((i, rest))
  {
    if i < 0 {
      ReadIntNegative(-i, rest);
    } else {
      ReadIntNonNegative(i, rest);
    }
  }

  lemma ReadIntNegative(n: nat, rest: string)
    requires n > 0
    requires rest == [] || !IsDigit(rest[0])
    ensures ReadInt("-" + NatToDecimal(n) + rest) == Some((-(n as int), rest))
  {
    var u := NatToDecimal(n) + rest;
    var t := "-" + NatToDecimal(n) + rest;
    assert t[0] == '-' && t[1..] == u;
    ReadNatDecimal(n, rest);
  }

  lemma ReadIntNonNegative(n: nat, rest: string)
    requires rest == [] || !IsDigit(rest[0])
    ensures ReadInt(NatToDecimal(n) + rest) == Some((n, rest))
  {
    var ds := NatToDecimal(n);
    assert (ds + rest)[0] == ds[0] && IsDigit(ds[0]);
    ReadNatDecimal(n, rest);
  }
}
