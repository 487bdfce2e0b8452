/**
 * Decimal rendering of whole numbers as JavaScript does it: `String(n)` for a
 * non-negative integer and `padStart(2, "0")`, with the parser that inverts them.
 */
module Decimal {
  import opened Wrappers

  predicate IsDigit(c: char) {
    '0' <= c <= '9'
  }

  predicate AllDigits(s: string) {
    forall k :: 0 <= k < |s| ==> IsDigit(s[k])
  }

  function DigitChar(d: nat): (c: char)
    requires d < 10
    ensures IsDigit(c) && c as int - '0' as int == d
  {
    ('0' as int + d) as char
  }

  /** The number a string of decimal digits denotes (the empty string denotes 0). */
  function Value(s: string): nat
    requires AllDigits(s)
  {
    if |s| == 0 then 0 else 10 * Value(s[..|s| - 1]) + (s[|s| - 1] as int - '0' as int)
  }

  /**
   * `String(n)` for a non-negative integer: the shortest decimal numeral of n,
   * with no leading zero.
   */
  function NatToString(n: nat): (r: string)
    ensures |r| >= 1 && AllDigits(r) && Value(r) == n
    ensures |r| == 1 <==> n < 10
    ensures |r| <= 2 <==> n < 100
    ensures r[0] == '0' ==> n == 0
  {
    if n < 10 then [DigitChar(n)]
    else
      var p := NatToString(n / 10);
      var r := p + [DigitChar(n % 10)];
      assert r[..|r| - 1] == p;
      r
  }

  /** `s.padStart(2, "0")`. */
  function PadStart2(s: string): (r: string)
    ensures |s| >= 2 ==> r == s
    ensures |s| < 2 ==> |r| == 2 && r[2 - |s|..] == s && forall k :: 0 <= k < 2 - |s| ==> r[k] == '0'
  {
    if |s| >= 2 then s else if |s| == 1 then "0" + s else "00"
  }

  /**
   * `String(n).padStart(2, "0")`: a numeral of at least two digits whose
   * value is n; it is exactly two digits long when n < 100.
   */
  function Field2(n: nat): (r: string)
    ensures AllDigits(r) && |r| >= 2
    ensures |r| == 2 <==> n < 100
    ensures Value(r) == n
  {
    var d := NatToString(n);
    if |d| == 1 then
      var r := "0" + d;
      assert r[..1] == "0" && r[1..] == d;
      assert Value(r) == 10 * Value(r[..1]) + Value(d);
      r
    else d
  }

  /** An unsigned decimal numeral of at least one digit, if s is one. */
  function ParseNat(s: string): (r: Option<nat>)
    ensures r.Some? <==> |s| > 0 && AllDigits(s)
  {
    if |s| > 0 && AllDigits(s) then Some(Value(s)) else None
  }

  /** Parsing a two-digit field gives back its number. */
  lemma ParseField2(n: nat)
    ensures ParseNat(Field2(n)) == Some(n)
  {
  }

  /** The number rendered never contains a given non-digit character. */
  lemma Field2Excludes(n: nat, c: char)
    requires !IsDigit(c)
    ensures c !in Field2(n)
  {
    var r := Field2(n);
    assert forall k :: 0 <= k < |r| ==> r[k] != c;
  }
}
