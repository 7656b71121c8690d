/** Text as a Go `range` loop sees it: Unicode scalar values, and single bytes
    that are not part of any valid UTF-8 encoding. */
module Text {
  type byte = x: int | 0 <= x < 256

  datatype Rune = Scalar(c: char) | Bad(b: byte)

  type Text = seq<Rune>

  predicate IsUtf8(t: Text) {
    forall i :: 0 <= i < |t| ==> t[i].Scalar?
  }

  function Of(s: string): (t: Text)
    ensures |t| == |s| && IsUtf8(t)
  {
    seq(|s|, i requires 0 <= i < |s| => Scalar(s[i]))
  }

  lemma OfInjective(s: string, t: string)
    requires Of(s) == Of(t)
    ensures s == t
  {
    forall i | 0 <= i < |s| ensures i < |t| && s[i] == t[i] {
      assert Of(s)[i] == Of(t)[i];
    }
    assert |Of(s)| == |s| && |Of(t)| == |t|;
  }

  /** The rune value a `range` loop yields; a byte that is not UTF-8 yields U+FFFD. */
  function Value(r: Rune): int {
    match r
    case Scalar(c) => c as int
    case Bad(_) => 0xFFFD
  }

  /** unicode.IsSpace. */
  predicate IsSpace(v: int) {
    || 0x09 <= v <= 0x0D || v == 0x20 || v == 0x85 || v == 0xA0 || v == 0x1680
    || 0x2000 <= v <= 0x200A || v == 0x2028 || v == 0x2029 || v == 0x202F || v == 0x205F || v == 0x3000
  }

  /** strings.TrimSpace leaves nothing. */
  predicate Blank(t: Text) {
    forall i :: 0 <= i < |t| ==> IsSpace(Value(t[i]))
  }

  function RuneBytes(r: Rune): (n: nat)
    ensures 1 <= n <= 4
  {
    match r
    case Bad(_) => 1
    case Scalar(c) => if c as int < 0x80 then 1 else if c as int < 0x800 then 2 else if c as int < 0x10000 then 3 else 4
  }

  /** len of the Go string. */
  function ByteLength(t: Text): nat {
    if t == [] then 0 else RuneBytes(t[0]) + ByteLength(t[1..])
  }

  /** The white space of Unicode. A byte that is not UTF-8 counts as U+FFFD, which is none. */
  lemma SpacesAre(r: Rune)
    ensures IsSpace(Value(r)) <==>
              && r.Scalar?
              && r.c as int in {
                0x09, 0x0A, 0x0B, 0x0C, 0x0D, 0x20, 0x85, 0xA0, 0x1680, 0x2000, 0x2001, 0x2002, 0x2003, 0x2004,
                0x2005, 0x2006, 0x2007, 0x2008, 0x2009, 0x200A, 0x2028, 0x2029, 0x202F, 0x205F, 0x3000}
    ensures r.Bad? ==> Value(r) == 0xFFFD
  {
  }

  function TrimLeft(t: Text): Text {
    if t != [] && IsSpace(Value(t[0])) then TrimLeft(t[1..]) else t
  }

  function TrimRight(t: Text): Text {
    if t != [] && IsSpace(Value(t[|t| - 1])) then TrimRight(t[..|t| - 1]) else t
  }

  lemma {:induction false} TrimRightIsBlind(t: Text)
    ensures TrimRight(t) == [] <==> Blank(t)
  {
    if t != [] && IsSpace(Value(t[|t| - 1])) {
      TrimRightIsBlind(t[..|t| - 1]);
    }
  }

  lemma {:induction false} TrimLeftKeepsBlank(t: Text)
    ensures Blank(TrimLeft(t)) <==> Blank(t)
  {
    if t != [] && IsSpace(Value(t[0])) {
      TrimLeftKeepsBlank(t[1..]);
    }
  }

  /** Blank text is what trimming on both sides leaves empty. */
  lemma BlankIffTrimmed(t: Text)
    ensures Blank(t) <==> TrimRight(TrimLeft(t)) == []
  {
    TrimLeftKeepsBlank(t);
    TrimRightIsBlind(TrimLeft(t));
  }
}
