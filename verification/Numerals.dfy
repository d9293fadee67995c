/** Numbers as fmt prints them. */
module Numerals {
  // %d of a natural number.
  function Decimal(n: nat): (s: string)
    ensures s != "" && forall i :: 0 <= i < |s| ==> '0' <= s[i] <= '9'
  {
    var digit := '0' + (n % 10) as char;
    if n < 10 then [digit] else Decimal(n / 10) + [digit]
  }

  function Number(digits: string): int {
    if digits == "" then 0 else Number(digits[..|digits| - 1]) * 10 + (digits[|digits| - 1] as int - '0' as int)
  }

  lemma {:induction false} NumberOfDecimal(n: nat)
    ensures Number(Decimal(n)) == n
  {
    var s := Decimal(n);
    if n >= 10 {
      NumberOfDecimal(n / 10);
      assert s[..|s| - 1] == Decimal(n / 10);
    } else {
      assert s[..|s| - 1] == "";
    }
  }

  // What stands between a common beginning and a common end.
  lemma Cancel(a: string, x: string, y: string, b: string)
    requires a + x + b == a + y + b
    ensures x == y
  {
    assert |x| == |y|;
    assert (a + x + b)[|a|..|a| + |x|] == x;
    assert (a + y + b)[|a|..|a| + |y|] == y;
  }

  // %d of any integer.
  function Signed(n: int): string {
    if n < 0 then "-" + Decimal(-n) else Decimal(n)
  }

  lemma DecimalInjective(m: nat, n: nat)
    requires Decimal(m) == Decimal(n)
    ensures m == n
  {
    NumberOfDecimal(m);
    NumberOfDecimal(n);
  }

  lemma SignsAgree(minus: bool, m: nat, negative: bool, n: nat)
    requires (if minus then "-" else "") + Decimal(m) == (if negative then "-" else "") + Decimal(n)
    ensures minus == negative && m == n
  {
    hide Decimal;
    var s, t := (if minus then "-" else "") + Decimal(m), (if negative then "-" else "") + Decimal(n);
    assert s[0] == t[0];
    assert minus ==> s[1..] == Decimal(m);
    assert negative ==> t[1..] == Decimal(n);
    assert !minus ==> s == Decimal(m);
    assert !negative ==> t == Decimal(n);
    DecimalInjective(m, n);
  }

  lemma SignedInjective(m: int, n: int)
    requires Signed(m) == Signed(n)
    ensures m == n
  {
    hide Decimal;
    var i, j := if m < 0 then -m else m, if n < 0 then -n else n;
    assert "" + Decimal(i) == Decimal(i) && "" + Decimal(j) == Decimal(j);
    SignsAgree(m < 0, i, n < 0, j);
  }

  // The last `width` decimal digits.
  function Digits(n: nat, width: nat): (s: string)
    ensures |s| == width && forall i :: 0 <= i < |s| ==> '0' <= s[i] <= '9'
  {
    if width == 0 then "" else Digits(n / 10, width - 1) + ['0' + (n % 10) as char]
  }

  // What is left without them.
  function Whole(n: nat, width: nat): nat {
    if width == 0 then n else Whole(n / 10, width - 1)
  }

  // %.<places>f of a number given in units of the last place.
  function Fixed(n: int, places: nat): string {
    var m := if n < 0 then -n else n;
    (if n < 0 then "-" else "") + Decimal(Whole(m, places)) + "." + Digits(m, places)
  }

  lemma {:induction false} WholeAndDigitsInjective(m: nat, n: nat, width: nat)
    requires Whole(m, width) == Whole(n, width) && Digits(m, width) == Digits(n, width)
    ensures m == n
  {
    if width > 0 {
      var s, t := Digits(m, width), Digits(n, width);
      assert s[..width - 1] == Digits(m / 10, width - 1) && t[..width - 1] == Digits(n / 10, width - 1);
      assert s[width - 1] == t[width - 1];
      WholeAndDigitsInjective(m / 10, n / 10, width - 1);
    }
  }

  // Text up to the first occurrence of a character decides the rest.
  lemma CutAt(c: char, a: string, x: string, b: string, y: string)
    requires c !in a && c !in b && a + [c] + x == b + [c] + y
    ensures a == b && x == y
  {
    var s, t := a + [c] + x, b + [c] + y;
    assert s[|a|] == c && t[|b|] == c;
    assert forall i :: 0 <= i < |a| ==> s[i] == a[i] && s[i] != c;
    assert forall i :: 0 <= i < |b| ==> t[i] == b[i] && t[i] != c;
    assert s[..|a|] == a && t[..|b|] == b;
    assert s[|a| + 1..] == x && t[|b| + 1..] == y;
  }

  lemma FixedInjective(m: int, n: int, places: nat)
    requires Fixed(m, places) == Fixed(n, places)
    ensures m == n
  {
    hide Decimal, Digits, Whole;
    var i, j := if m < 0 then -m else m, if n < 0 then -n else n;
    var a, b := (if m < 0 then "-" else "") + Decimal(Whole(i, places)), (if n < 0 then "-" else "") + Decimal(Whole(j, places));
    CutAt('.', a, Digits(i, places), b, Digits(j, places));
    SignsAgree(m < 0, Whole(i, places), n < 0, Whole(j, places));
    WholeAndDigitsInjective(i, j, places);
  }

  // Printed numbers stay on their line.
  lemma OneLine(n: int, places: nat)
    ensures '\n' !in Signed(n) && '\n' !in Fixed(n, places)
  {
    hide Decimal, Digits, Whole;
  }
}
