/** Nostr events: validation, the canonical serialization of NIP-01 (section
    "Events and signatures"), and a reader that inverts it. */
module NostrEvent {
  import opened Wrappers
  import opened Text
  import opened JsonText
  import Decimal
  import Hex
  import Utf8

  const MAX_CONTENT := 0x10000
  const KIND_TEXT_NOTE := 1
  const KIND_RELAY_AUTH := 22242

  /** A slice that may be nil. */
  type Slice<T> = Option<seq<T>>

  type Tag = Slice<Text>

  datatype UnsignedEvent = UnsignedEvent(
    pubKey: Text,
    createdAt: int,
    kind: int,
    tags: Slice<Tag>,
    content: Text)

  predicate IsLowerHexDigit(r: Rune) {
    r.Scalar? && ('0' <= r.c <= '9' || 'a' <= r.c <= 'f')
  }

  predicate IsLowerHex(t: Text, length: nat) {
    |t| == length && forall i :: 0 <= i < |t| ==> IsLowerHexDigit(t[i])
  }

  predicate ValidTag(tag: Tag) {
    tag.Some? && forall i :: 0 <= i < |tag.value| ==> IsUtf8(tag.value[i])
  }

  predicate ValidEvent(e: UnsignedEvent) {
    && IsLowerHex(e.pubKey, 64)
    && e.createdAt >= 0
    && e.kind >= 0
    && e.tags.Some?
    && IsUtf8(e.content) && ByteLength(e.content) <= MAX_CONTENT
    && forall i :: 0 <= i < |e.tags.value| ==> ValidTag(e.tags.value[i])
  }

  // Writing.

  function Joined<T>(write: T -> string, xs: seq<T>): string {
    if xs == [] then [] else if |xs| == 1 then write(xs[0]) else write(xs[0]) + ("," + Joined(write, xs[1..]))
  }

  function WriteArray<T>(write: T -> string, xs: seq<T>): string {
    "[" + (Joined(write, xs) + "]")
  }

  function WriteSlice<T>(write: T -> string, xs: Slice<T>): string {
    if xs.None? then "null" else WriteArray(write, xs.value)
  }

  function WriteText(t: Text): string {
    Quote(false, t)
  }

  function WriteTag(tag: Tag): string {
    WriteSlice(WriteText, tag)
  }

  function WriteTags(tags: Slice<Tag>): string {
    WriteSlice(WriteTag, tags)
  }

  /** The bytes hashed into an event ID, or nothing for an invalid event. */
  function CanonicalSerialize(e: UnsignedEvent): Option<string> {
    if !ValidEvent(e) then None
    else
      Some("[0," + (WriteText(e.pubKey) + ("," + (Decimal.OfInt(e.createdAt) + ("," + (Decimal.OfInt(e.kind)
           + ("," + (WriteTags(e.tags) + ("," + (WriteText(e.content) + "]"))))))))))
  }

  /** Text is written between quotes, without HTML escaping: characters that JSON need not
      escape stand for themselves. */
  lemma WriteTextOfPlain(s: string)
    requires forall i :: 0 <= i < |s| ==> s[i] as int >= 0x20 && s[i] as int !in {0x22, 0x5C, 0x2028, 0x2029}
    ensures WriteText(Of(s)) == "\"" + s + "\""
  {
    PlainIsUnchanged(false, s);
  }

  /** Hexadecimal of a given length is the lower-case encoding of half as many bytes. */
  lemma LowerHexIs(t: Text, length: nat)
    requires length % 2 == 0
    ensures IsLowerHex(t, length) <==> exists bs: seq<byte> :: 2 * |bs| == length && t == Of(Hex.Encode(bs))
  {
    if IsLowerHex(t, length) {
      var s := seq(|t|, i requires 0 <= i < |t| => t[i].c);
      var bs := Hex.LowerIsEncoded(s);
      Hex.EncodingIsLower(bs);
      assert t == Of(Hex.Encode(bs));
    }
    if bs: seq<byte> :| 2 * |bs| == length && t == Of(Hex.Encode(bs)) {
      Hex.EncodingIsLower(bs);
      forall i | 0 <= i < |t| ensures IsLowerHexDigit(t[i]) {
        assert Hex.Value(Hex.Encode(bs)[i]).Some?;
      }
    }
  }

  /** An event can be serialized exactly with a key of 32 bytes in hexadecimal, a time and a
      kind that are not negative, no nil slice, text in UTF-8, and at most 65536 bytes of content. */
  lemma SerializableIff(e: UnsignedEvent)
    ensures CanonicalSerialize(e).Some? <==>
              && (exists key: seq<byte> :: 2 * |key| == 64 && e.pubKey == Of(Hex.Encode(key)))
              && e.createdAt >= 0 && e.kind >= 0
              && IsUtf8(e.content) && |Utf8.Encode(e.content)| <= 65536
              && e.tags.Some?
              && forall i :: 0 <= i < |e.tags.value| ==>
                   && e.tags.value[i].Some?
                   && forall j :: 0 <= j < |e.tags.value[i].value| ==> IsUtf8(e.tags.value[i].value[j])
  {
    LowerHexIs(e.pubKey, 64);
    Utf8.LengthOfEncode(e.content);
  }

  /** The bytes of an event whose key and content need no escapes, whatever its tags. */
  lemma SerializationOfPlain(e: UnsignedEvent, key: string, content: string)
    requires ValidEvent(e) && e.pubKey == Of(key) && e.content == Of(content)
    requires forall i :: 0 <= i < |key| ==> Plain(false, key[i])
    requires forall i :: 0 <= i < |content| ==> Plain(false, content[i])
    ensures CanonicalSerialize(e) == Some(
              "[0,\"" + key + "\"," + Decimal.OfInt(e.createdAt) + "," + Decimal.OfInt(e.kind) + ","
              + WriteTags(e.tags) + ",\"" + content + "\"]")
  {
    PlainIsUnchanged(false, key);
    PlainIsUnchanged(false, content);
    EventFlattened(key, Decimal.OfInt(e.createdAt), Decimal.OfInt(e.kind), WriteTags(e.tags), content);
  }

  lemma EventFlattened(key: string, created: string, kind: string, tags: string, content: string)
    ensures var quotedKey, quotedContent := "\"" + key + "\"", "\"" + content + "\"";
            "[0," + (quotedKey + ("," + (created + ("," + (kind + ("," + (tags + ("," + (quotedContent + "]")))))))))
            == "[0,\"" + key + "\"," + created + "," + kind + "," + tags + ",\"" + content + "\"]"
  {
    assert "[0,\"" == "[0," + "\"" && "\"," == "\"" + "," && ",\"" == "," + "\"" && "\"]" == "\"" + "]";
  }

  /** How tags are written: none, and one with two values that need no escapes. */
  lemma TagsOfPlain(name: string, value: string)
    requires forall i :: 0 <= i < |name| ==> Plain(false, name[i])
    requires forall i :: 0 <= i < |value| ==> Plain(false, value[i])
    ensures WriteTags(None) == "null" && WriteTags(Some([])) == "[]" && WriteTags(Some([Some([])])) == "[[]]"
    ensures WriteTags(Some([Some([Of(name), Of(value)])])) == "[[\"" + name + "\",\"" + value + "\"]]"
  {
    PlainIsUnchanged(false, name);
    PlainIsUnchanged(false, value);
    var values := [Of(name), Of(value)];
    assert values[1..] == [Of(value)];
    var quotedName, quotedValue := "\"" + name + "\"", "\"" + value + "\"";
    assert Joined(WriteText, values[1..]) == quotedValue;
    assert Joined(WriteText, values) == quotedName + ("," + quotedValue);
    assert WriteTag(Some(values)) == "[" + ((quotedName + ("," + quotedValue)) + "]");
    assert WriteTag(Some([])) == "[]";
    TagsFlattened(name, value);
  }

  lemma TagsFlattened(name: string, value: string)
    ensures var quotedName, quotedValue := "\"" + name + "\"", "\"" + value + "\"";
            "[" + (("[" + ((quotedName + ("," + quotedValue)) + "]")) + "]")
            == "[[\"" + name + "\",\"" + value + "\"]]"
  {
    assert "[[\"" == "[" + "[" + "\"" && "\",\"" == "\"" + "," + "\"" && "\"]]" == "\"" + "]" + "]";
  }

  // Reading.

  type Reader<!T> = string -> Option<(T, string)>

  /** Reads items up to the closing bracket; the opening one is already read. */
  function ReadItems<T>(read: Reader<T>, s: string): Option<(seq<T>, string)>
    decreases |s|
  {
    match read(s)
    case None => None
    case Some((x, rest)) =>
      if rest == [] || |rest| >= |s| then None
      else if rest[0] == ']' then Some(([x], rest[1..]))
      else if rest[0] == ',' then
        match ReadItems(read, rest[1..])
        case None => None
        case Some((xs, rest')) => Some(([x] + xs, rest'))
      else None
  }

  function ReadArray<T>(read: Reader<T>, s: string): Option<(seq<T>, string)> {
    if s == [] || s[0] != '[' then None
    else if |s| >= 2 && s[1] == ']' then Some(([], s[2..]))
    else ReadItems(read, s[1..])
  }

  function ReadText(s: string): Option<(Text, string)> {
    ReadQuoted(s)
  }

  function ReadTag(s: string): Option<(Tag, string)> {
    match ReadArray(ReadText, s)
    case None => None
    case Some((xs, rest)) => Some((Some(xs), rest))
  }

  function ReadTags(s: string): Option<(Slice<Tag>, string)> {
    match ReadArray(ReadTag, s)
    case None => None
    case Some((xs, rest)) => Some((Some(xs), rest))
  }

  function ReadTextField(s: string): Option<(Text, string)> {
    match ReadText(s)
    case None => None
    case Some((t, rest)) => match Expect(",", rest) case None => None case Some(rest') => Some((t, rest'))
  }

  function ReadNatField(s: string): Option<(nat, string)> {
    match Decimal.ReadNat(s)
    case None => None
    case Some((n, rest)) => match Expect(",", rest) case None => None case Some(rest') => Some((n, rest'))
  }

  /** Reads tags, content and the end of the event. */
  function ReadBodyOfEvent(pubKey: Text, createdAt: nat, kind: nat, s: string): Option<UnsignedEvent> {
    match ReadTags(s)
    case None => None
    case Some((tags, s1)) =>
      match Expect(",", s1)
      case None => None
      case Some(s2) =>
        match ReadText(s2)
        case None => None
        case Some((content, s3)) =>
          if s3 == "]" then Some(UnsignedEvent(pubKey, createdAt, kind, tags, content)) else None
  }

  function ReadEvent(s: string): Option<UnsignedEvent> {
    match Expect("[0,", s)
    case None => None
    case Some(s1) =>
      match ReadTextField(s1)
      case None => None
      case Some((pubKey, s2)) =>
        match ReadNatField(s2)
        case None => None
        case Some((createdAt, s3)) =>
          match ReadNatField(s3)
          case None => None
          case Some((kind, s4)) => ReadBodyOfEvent(pubKey, createdAt, kind, s4)
  }

  // Reading inverts writing.

  ghost predicate Inverts<T(!new)>(read: Reader<T>, write: T -> string, x: T) {
    && write(x) != [] && write(x)[0] != ']'
    && forall rest :: read(write(x) + rest) == Some((x, rest))
  }

  lemma ReadLastItem<T(!new)>(read: Reader<T>, e: string, x: T, rest: string)
    requires e != [] && read(e + ("]" + rest)) == Some((x, "]" + rest))
    ensures ReadItems(read, e + ("]" + rest)) == Some(([x], rest))
  {
    assert ("]" + rest)[1..] == rest;
  }

  lemma ReadNextItem<T(!new)>(read: Reader<T>, e: string, x: T, tail: string)
    requires e != [] && read(e + ("," + tail)) == Some((x, "," + tail)) && ReadItems(read, tail).Some?
    ensures var (xs, rest) := ReadItems(read, tail).value; ReadItems(read, e + ("," + tail)) == Some(([x] + xs, rest))
  {
    assert ("," + tail)[1..] == tail;
  }

  lemma {:induction false} ReadItemsOfJoined<T(!new)>(read: Reader<T>, write: T -> string, xs: seq<T>, rest: string)
    requires xs != [] && forall i :: 0 <= i < |xs| ==> Inverts(read, write, xs[i])
    ensures ReadItems(read, Joined(write, xs) + ("]" + rest)) == Some((xs, rest))
    decreases |xs|
  {
    assert Inverts(read, write, xs[0]);
    if |xs| == 1 {
      ReadLastItem(read, write(xs[0]), xs[0], rest);
      assert xs == [xs[0]];
    } else {
      ReadItemsOfJoined(read, write, xs[1..], rest);
      ReadJoinedNext(read, write, xs, rest);
    }
  }

  lemma ReadJoinedNext<T(!new)>(read: Reader<T>, write: T -> string, xs: seq<T>, rest: string)
    requires |xs| > 1 && Inverts(read, write, xs[0])
    requires ReadItems(read, Joined(write, xs[1..]) + ("]" + rest)) == Some((xs[1..], rest))
    ensures ReadItems(read, Joined(write, xs) + ("]" + rest)) == Some((xs, rest))
  {
    ReadNextItem(read, write(xs[0]), xs[0], Joined(write, xs[1..]) + ("]" + rest));
    JoinedSplits(write, xs, "]" + rest);
    assert xs == [xs[0]] + xs[1..];
  }

  lemma JoinedSplits<T>(write: T -> string, xs: seq<T>, end: string)
    requires |xs| > 1
    ensures Joined(write, xs) + end == write(xs[0]) + ("," + (Joined(write, xs[1..]) + end))
  {
  }

  lemma JoinedStart<T(!new)>(read: Reader<T>, write: T -> string, xs: seq<T>)
    requires xs != [] && Inverts(read, write, xs[0])
    ensures Joined(write, xs) != [] && Joined(write, xs)[0] != ']'
  {
  }

  lemma ReadArrayOfWriteArray<T(!new)>(read: Reader<T>, write: T -> string, xs: seq<T>, rest: string)
    requires forall i :: 0 <= i < |xs| ==> Inverts(read, write, xs[i])
    ensures ReadArray(read, WriteArray(write, xs) + rest) == Some((xs, rest))
  {
    var s := WriteArray(write, xs) + rest;
    if xs == [] {
      assert s == "[" + ("]" + rest) && s[2..] == rest;
    } else {
      JoinedStart(read, write, xs);
      ReadItemsOfJoined(read, write, xs, rest);
      assert s[1..] == Joined(write, xs) + ("]" + rest);
    }
  }

  lemma TextInverts(t: Text)
    requires IsUtf8(t)
    ensures Inverts(ReadText, WriteText, t)
  {
    forall rest ensures ReadText(WriteText(t) + rest) == Some((t, rest)) {
      ReadQuotedOfQuote(false, t, rest);
    }
  }

  lemma TagInverts(tag: Tag)
    requires ValidTag(tag)
    ensures Inverts(ReadTag, WriteTag, tag)
  {
    forall i | 0 <= i < |tag.value| ensures Inverts(ReadText, WriteText, tag.value[i]) {
      TextInverts(tag.value[i]);
    }
    forall rest ensures ReadTag(WriteTag(tag) + rest) == Some((tag, rest)) {
      ReadArrayOfWriteArray(ReadText, WriteText, tag.value, rest);
    }
  }

  lemma TagsInvert(e: UnsignedEvent, rest: string)
    requires ValidEvent(e)
    ensures ReadTags(WriteTags(e.tags) + rest) == Some((e.tags, rest))
  {
    forall i | 0 <= i < |e.tags.value| ensures Inverts(ReadTag, WriteTag, e.tags.value[i]) {
      TagInverts(e.tags.value[i]);
    }
    ReadArrayOfWriteArray(ReadTag, WriteTag, e.tags.value, rest);
  }

  lemma ReadTextFieldOfText(t: Text, rest: string)
    requires IsUtf8(t)
    ensures ReadTextField(WriteText(t) + ("," + rest)) == Some((t, rest))
  {
    TextInverts(t);
    ExpectPrefix(",", rest);
  }

  lemma ReadNatFieldOfNat(n: nat, rest: string)
    ensures ReadNatField(Decimal.OfInt(n) + ("," + rest)) == Some((n, rest))
  {
    Decimal.ReadNatOfNat(n, "," + rest);
    ExpectPrefix(",", rest);
  }

  lemma ReadBodyOfWritten(e: UnsignedEvent)
    requires ValidEvent(e)
    ensures var body := WriteTags(e.tags) + ("," + (WriteText(e.content) + "]"));
            ReadBodyOfEvent(e.pubKey, e.createdAt, e.kind, body) == Some(e)
  {
    TagsInvert(e, "," + (WriteText(e.content) + "]"));
    ExpectPrefix(",", WriteText(e.content) + "]");
    TextInverts(e.content);
  }

  /** The reader gives back every event that can be serialized. */
  lemma ReadEventOfSerialized(e: UnsignedEvent)
    requires ValidEvent(e)
    ensures ReadEvent(CanonicalSerialize(e).value) == Some(e)
  {
    var s4 := WriteTags(e.tags) + ("," + (WriteText(e.content) + "]"));
    var s3 := Decimal.OfInt(e.kind) + ("," + s4);
    var s2 := Decimal.OfInt(e.createdAt) + ("," + s3);
    var s1 := WriteText(e.pubKey) + ("," + s2);
    ExpectPrefix("[0,", s1);
    ReadTextFieldOfText(e.pubKey, s2);
    ReadNatFieldOfNat(e.createdAt, s3);
    ReadNatFieldOfNat(e.kind, s4);
    ReadBodyOfWritten(e);
  }

  /** Events with one serialization are one event. */
  lemma SerializationIsInjective(a: UnsignedEvent, b: UnsignedEvent)
    requires ValidEvent(a) && ValidEvent(b) && CanonicalSerialize(a) == CanonicalSerialize(b)
    ensures a == b
  {
    ReadEventOfSerialized(a);
    ReadEventOfSerialized(b);
  }
}
