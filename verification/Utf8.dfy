/** The bytes of a Go string and the text they denote. */
module Utf8 {
  import opened Text

  function EncodeRune(r: Rune): seq<byte> {
    match r
    case Bad(b) => [b]
    case Scalar(c) => EncodeValue(c as int)
  }

  function EncodeValue(v: nat): seq<byte>
    requires v <= 0x10FFFF
  {
    if v < 0x80 then [v]
    else if v < 0x800 then [0xC0 + v / 64, 0x80 + v % 64]
    else if v < 0x10000 then [0xE0 + v / 64 / 64, 0x80 + v / 64 % 64, 0x80 + v % 64]
    else [0xF0 + v / 64 / 64 / 64, 0x80 + v / 64 / 64 % 64, 0x80 + v / 64 % 64, 0x80 + v % 64]
  }

  /** How many bytes a value takes, their ranges, and how they carry its bits (section 3 of
      RFC 3629). */
  lemma BytesCarryValue(v: nat)
    requires v <= 0x10FFFF
    ensures var e := EncodeValue(v);
            && |e| == (if v <= 0x7F then 1 else if v <= 0x7FF then 2 else if v <= 0xFFFF then 3 else 4)
            && (forall i :: 1 <= i < |e| ==> 0x80 <= e[i] <= 0xBF)
            && (|e| == 1 ==> v == e[0])
            && (|e| == 2 ==> 0xC2 <= e[0] <= 0xDF && v == (e[0] as int - 0xC0) * 64 + (e[1] as int - 0x80))
            && (|e| == 3 ==>
                  && 0xE0 <= e[0] <= 0xEF
                  && v == (e[0] as int - 0xE0) * 4096 + (e[1] as int - 0x80) * 64 + (e[2] as int - 0x80))
            && (|e| == 4 ==>
                  && 0xF0 <= e[0] <= 0xF4
                  && v == (e[0] as int - 0xF0) * 262144 + (e[1] as int - 0x80) * 4096 + (e[2] as int - 0x80) * 64 +
                      (e[3] as int - 0x80))
  {
  }

  function Encode(t: Text): seq<byte> {
    if t == [] then [] else EncodeRune(t[0]) + Encode(t[1..])
  }

  predicate Continues(b: byte) {
    0x80 <= b <= 0xBF
  }

  /** The range of the second byte after a given first byte: it rules out overlong
      forms, surrogates, and values past U+10FFFF. */
  predicate SecondByte(first: byte, second: byte) {
    match first
    case 0xE0 => 0xA0 <= second <= 0xBF
    case 0xED => 0x80 <= second <= 0x9F
    case 0xF0 => 0x90 <= second <= 0xBF
    case 0xF4 => 0x80 <= second <= 0x8F
    case _ => Continues(second)
  }

  /** A value from its leading part and one more group of six bits. */
  function Shift(high: int, low: int): int {
    high * 64 + (low - 0x80)
  }

  function Three(b0: int, b1: int, b2: int): int {
    Shift(Shift(b0 - 0xE0, b1), b2)
  }

  function Four(b0: int, b1: int, b2: int, b3: int): int {
    Shift(Shift(Shift(b0 - 0xF0, b1), b2), b3)
  }

  /** utf8.DecodeRune: the first rune, taking a single byte when none is valid. */
  function DecodeRune(bs: seq<byte>): Rune
    requires bs != []
  {
    var b := bs[0];
    if b < 0x80 then Scalar(b as char)
    else if 0xC2 <= b <= 0xDF && |bs| >= 2 && Continues(bs[1]) then
      Scalar(Shift(b - 0xC0, bs[1]) as char)
    else if 0xE0 <= b <= 0xEF && |bs| >= 3 && SecondByte(b, bs[1]) && Continues(bs[2]) then
      Scalar(Three(b, bs[1], bs[2]) as char)
    else if 0xF0 <= b <= 0xF4 && |bs| >= 4 && SecondByte(b, bs[1]) && Continues(bs[2]) && Continues(bs[3]) then
      Scalar(Four(b, bs[1], bs[2], bs[3]) as char)
    else Bad(b)
  }

  lemma ShiftSplits(high: nat, low: int)
    requires 0x80 <= low <= 0xBF
    ensures Shift(high, low) / 64 == high && 0x80 + Shift(high, low) % 64 == low
  {
  }

  lemma ThreeBytesEncode(b0: byte, b1: byte, b2: byte)
    requires 0xE0 <= b0 <= 0xEF && SecondByte(b0, b1) && Continues(b2)
    ensures 0x800 <= Three(b0, b1, b2) < 0x10000 && !(0xD800 <= Three(b0, b1, b2) < 0xE000)
    ensures EncodeValue(Three(b0, b1, b2)) == [b0, b1, b2]
  {
    ShiftSplits(b0 - 0xE0, b1);
    ShiftSplits(Shift(b0 - 0xE0, b1), b2);
  }

  lemma FourIsInRange(b0: byte, b1: byte, b2: byte, b3: byte)
    requires 0xF0 <= b0 <= 0xF4 && SecondByte(b0, b1) && Continues(b2) && Continues(b3)
    ensures 0x10000 <= Four(b0, b1, b2, b3) <= 0x10FFFF
  {
    assert 0x10 <= Shift(b0 - 0xF0, b1) <= 0x10F;
  }

  lemma FourBytesEncode(b0: byte, b1: byte, b2: byte, b3: byte)
    requires 0xF0 <= b0 <= 0xF4 && SecondByte(b0, b1) && Continues(b2) && Continues(b3)
    ensures 0x10000 <= Four(b0, b1, b2, b3) <= 0x10FFFF
    ensures EncodeValue(Four(b0, b1, b2, b3)) == [b0, b1, b2, b3]
  {
    FourIsInRange(b0, b1, b2, b3);
    FourthByte(b0 - 0xF0, b1, b2, b3);
    EncodeOfParts(Four(b0, b1, b2, b3), b0, b1, b2, b3);
  }

  lemma EncodeOfParts(v: nat, b0: byte, b1: byte, b2: byte, b3: byte)
    requires 0x10000 <= v <= 0x10FFFF
    requires 0x80 + v % 64 == b3 && 0x80 + v / 64 % 64 == b2 && 0x80 + v / 64 / 64 % 64 == b1
    requires 0xF0 + v / 64 / 64 / 64 == b0
    ensures EncodeValue(v) == [b0, b1, b2, b3]
  {
  }

  /** Dividing by 64 takes the groups of six bits off one by one. */
  lemma FourthByte(high: nat, b1: byte, b2: byte, b3: byte)
    requires Continues(b1) && Continues(b2) && Continues(b3)
    ensures var v := Shift(Shift(Shift(high, b1), b2), b3);
            && 0x80 + v % 64 == b3 && 0x80 + v / 64 % 64 == b2 && 0x80 + v / 64 / 64 % 64 == b1
            && v / 64 / 64 / 64 == high
  {
    ShiftSplits(high, b1);
    ShiftSplits(Shift(high, b1), b2);
    ShiftSplits(Shift(Shift(high, b1), b2), b3);
  }

  /** The bytes that the first rune was decoded from are the bytes that encode it. */
  lemma DecodeIsPrefix(bs: seq<byte>)
    requires bs != []
    ensures EncodeRune(DecodeRune(bs)) != [] && EncodeRune(DecodeRune(bs)) <= bs
  {
    var b := bs[0];
    if DecodeRune(bs).Scalar? {
      if b >= 0xF0 {
        FourBytesEncode(b, bs[1], bs[2], bs[3]);
      } else if b >= 0xE0 {
        ThreeBytesEncode(b, bs[1], bs[2]);
      } else if b >= 0x80 {
        ShiftSplits(b - 0xC0, bs[1]);
      }
    }
  }

  /** A `range` loop over the bytes. */
  function Decode(bs: seq<byte>): Text {
    if bs == [] then []
    else
      DecodeIsPrefix(bs);
      var r := DecodeRune(bs);
      [r] + Decode(bs[|EncodeRune(r)|..])
  }

  lemma ShiftJoins(v: nat)
    ensures Shift(v / 64, 0x80 + v % 64) == v
  {
  }

  lemma DecodeOfEncodedValue(c: char, bs: seq<byte>)
    requires EncodeValue(c as int) <= bs
    ensures DecodeRune(bs) == Scalar(c)
  {
    var v := c as int;
    var e := EncodeValue(v);
    assert forall i :: 0 <= i < |e| ==> bs[i] == e[i];
    ShiftJoins(v);
    ShiftJoins(v / 64);
    ShiftJoins(v / 64 / 64);
  }

  /** Decoding inverts encoding on valid text. */
  lemma {:induction false} DecodeOfEncode(t: Text)
    requires IsUtf8(t)
    ensures Decode(Encode(t)) == t
  {
    if t != [] {
      DecodeOfEncodedValue(t[0].c, Encode(t));
      DecodeOfEncode(t[1..]);
      assert (EncodeRune(t[0]) + Encode(t[1..]))[|EncodeRune(t[0])|..] == Encode(t[1..]);
    }
  }

  lemma EncodeCons(r: Rune, t: Text)
    ensures Encode([r] + t) == EncodeRune(r) + Encode(t)
  {
  }

  lemma PrefixSplits(e: seq<byte>, bs: seq<byte>)
    requires e <= bs
    ensures bs == e + bs[|e|..]
  {
  }

  /** Encoding inverts decoding on all byte strings. */
  lemma {:induction false} EncodeOfDecode(bs: seq<byte>)
    ensures Encode(Decode(bs)) == bs
    decreases |bs|
  {
    if bs != [] {
      DecodeIsPrefix(bs);
      var r := DecodeRune(bs);
      var rest := bs[|EncodeRune(r)|..];
      EncodeOfDecode(rest);
      EncodeCons(r, Decode(rest));
      PrefixSplits(EncodeRune(r), bs);
    }
  }

  lemma {:induction false} LengthOfEncode(t: Text)
    ensures |Encode(t)| == ByteLength(t)
  {
    if t != [] {
      LengthOfEncode(t[1..]);
    }
  }
}
