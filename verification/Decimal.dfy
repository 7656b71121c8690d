/** Decimal notation of integers, as %d and the JSON encoder write it. */
module Decimal {
  import opened Wrappers

  predicate IsDigit(c: char) {
    '0' <= c <= '9'
  }

  function Digit(d: int): (c: char)
    requires 0 <= d < 10
    ensures IsDigit(c) && c as int == '0' as int + d
  {
    ('0' as int + d) as char
  }

  function OfNat(n: nat): string {
    if n < 10 then [Digit(n)] else OfNat(n / 10) + [Digit(n % 10)]
  }

  function OfInt(n: int): string {
    if n < 0 then "-" + OfNat(-n) else OfNat(n)
  }

  predicate AllDigits(s: string) {
    forall i :: 0 <= i < |s| ==> IsDigit(s[i])
  }

  function ValueOf(s: string): nat
    requires AllDigits(s)
  {
    if s == [] then 0 else ValueOf(s[..|s| - 1]) * 10 + (s[|s| - 1] as int - '0' as int)
  }

  lemma {:induction false} OfNatIsNumeral(n: nat)
    ensures OfNat(n) != [] && AllDigits(OfNat(n)) && ValueOf(OfNat(n)) == n
    ensures OfNat(n)[0] == '0' <==> n == 0
  {
    if n >= 10 {
      OfNatIsNumeral(n / 10);
      assert OfNat(n)[..|OfNat(n)| - 1] == OfNat(n / 10);
    }
  }

  /** The length of the run of digits at the start. */
  function Digits(s: string): (k: nat)
    ensures k <= |s| && AllDigits(s[..k])
    ensures k < |s| ==> !IsDigit(s[k])
  {
    if s == [] || !IsDigit(s[0]) then 0
    else
      var k := Digits(s[1..]);
      assert s[..k + 1] == [s[0]] + s[1..][..k];
      k + 1
  }

  /** Reads the longest numeral at the start of a string. */
  function ReadNat(s: string): Option<(nat, string)> {
    var k := Digits(s);
    if k == 0 then None else Some((ValueOf(s[..k]), s[k..]))
  }

  lemma ReadNatOfNat(n: nat, rest: string)
    requires rest == [] || !IsDigit(rest[0])
    ensures ReadNat(OfNat(n) + rest) == Some((n, rest))
  {
    OfNatIsNumeral(n);
    var s := OfNat(n) + rest;
    var k := Digits(s);
    assert forall i :: 0 <= i < |OfNat(n)| ==> s[i] == OfNat(n)[i];
    assert forall i :: 0 <= i < k ==> s[..k][i] == s[i] && IsDigit(s[i]);
    assert rest != [] ==> s[|OfNat(n)|] == rest[0];
    assert k == |OfNat(n)|;
    assert s[..k] == OfNat(n) && s[k..] == rest;
  }

  lemma OfIntSign(n: int)
    ensures OfInt(n) != [] && (OfInt(n)[0] == '-' <==> n < 0)
    ensures forall c :: c in OfInt(n) ==> IsDigit(c) || c == '-'
  {
    OfNatIsNumeral(if n < 0 then -n else n);
  }

  lemma OfIntInjective(m: int, n: int)
    requires OfInt(m) == OfInt(n)
    ensures m == n
  {
    OfIntSign(m);
    OfIntSign(n);
    OfNatIsNumeral(if m < 0 then -m else m);
    OfNatIsNumeral(if n < 0 then -n else n);
    if m < 0 {
      assert OfInt(m)[1..] == OfNat(-m) && OfInt(n)[1..] == OfNat(-n);
    }
  }
}
