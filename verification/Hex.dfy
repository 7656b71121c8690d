/** Lower-case hexadecimal, as hex.EncodeToString writes it. */
module Hex {
  import opened Wrappers
  import opened Text

  function Digit(d: int): char
    requires 0 <= d < 16
  {
    if d < 10 then ('0' as int + d) as char else ('a' as int + d - 10) as char
  }

  function Value(c: char): Option<int> {
    if '0' <= c <= '9' then Some(c as int - '0' as int)
    else if 'a' <= c <= 'f' then Some(c as int - 'a' as int + 10)
    else None
  }

  /** A digit is one of the sixteen, in its place. */
  lemma DigitIsInPlace(d: int)
    requires 0 <= d < 16
    ensures Digit(d) == "0123456789abcdef"[d] && Value(Digit(d)) == Some(d)
  {
  }

  lemma ValueIsDigit(c: char)
    ensures Value(c).Some? <==> c in "0123456789abcdef"
    ensures Value(c).Some? ==> 0 <= Value(c).value < 16 && Digit(Value(c).value) == c
  {
    var digits := "0123456789abcdef";
    if c in digits {
      var d :| 0 <= d < |digits| && digits[d] == c;
      DigitIsInPlace(d);
    }
    if Value(c).Some? {
      DigitIsInPlace(Value(c).value);
    }
  }

  function Encode(bs: seq<byte>): string {
    if bs == [] then [] else [Digit(bs[0] / 16), Digit(bs[0] % 16)] + Encode(bs[1..])
  }

  predicate IsLower(s: string) {
    forall i :: 0 <= i < |s| ==> Value(s[i]).Some?
  }

  lemma {:induction false} EncodingIsLower(bs: seq<byte>)
    ensures |Encode(bs)| == 2 * |bs| && IsLower(Encode(bs))
  {
    if bs != [] {
      DigitIsInPlace(bs[0] / 16);
      DigitIsInPlace(bs[0] % 16);
      EncodingIsLower(bs[1..]);
    }
  }

  lemma {:induction false} EncodeInjective(a: seq<byte>, b: seq<byte>)
    requires Encode(a) == Encode(b)
    ensures a == b
  {
    EncodingIsLower(a);
    EncodingIsLower(b);
    if a != [] {
      DigitIsInPlace(a[0] / 16);
      DigitIsInPlace(a[0] % 16);
      DigitIsInPlace(b[0] / 16);
      DigitIsInPlace(b[0] % 16);
      assert Encode(a)[0] == Encode(b)[0] && Encode(a)[1] == Encode(b)[1];
      assert Encode(a)[2..] == Encode(a[1..]) && Encode(b)[2..] == Encode(b[1..]);
      EncodeInjective(a[1..], b[1..]);
      assert a == [a[0]] + a[1..] && b == [b[0]] + b[1..];
    }
  }

  /** The strings of lower-case digits of even length are the encodings, and nothing else is. */
  lemma {:induction false} LowerIsEncoded(s: string) returns (bs: seq<byte>)
    requires |s| % 2 == 0 && IsLower(s)
    ensures Encode(bs) == s
    decreases |s|
  {
    if s == [] {
      bs := [];
    } else {
      ValueIsDigit(s[0]);
      ValueIsDigit(s[1]);
      var b: byte := Value(s[0]).value * 16 + Value(s[1]).value;
      var rest := LowerIsEncoded(s[2..]);
      bs := [b] + rest;
      assert b / 16 == Value(s[0]).value && b % 16 == Value(s[1]).value;
      assert s == [s[0], s[1]] + s[2..];
    }
  }
}
