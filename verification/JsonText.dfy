/** JSON strings (section 7 of RFC 8259) as Go's encoder writes them, with HTML
    escaping on or off, and a reader for them. */
module JsonText {
  import opened Wrappers
  import opened Text
  import Hex

  /** What follows an expected prefix. */
  function Expect(prefix: string, s: string): Option<string> {
    if prefix <= s then Some(s[|prefix|..]) else None
  }

  lemma ExpectPrefix(prefix: string, rest: string)
    ensures Expect(prefix, prefix + rest) == Some(rest)
  {
  }

  function EscapeScalar(html: bool, c: char): string {
    if c == '"' || c == '\\' then ['\\', c]
    else if c as int == 0x08 then "\\b"
    else if c as int == 0x0C then "\\f"
    else if c == '\n' then "\\n"
    else if c == '\r' then "\\r"
    else if c == '\t' then "\\t"
    else if c as int < 0x20 || (html && (c == '<' || c == '>' || c == '&')) then
      "\\u00" + [Hex.Digit(c as int / 16), Hex.Digit(c as int % 16)]
    else if c as int == 0x2028 || c as int == 0x2029 then "\\u202" + [Hex.Digit(c as int % 16)]
    else [c]
  }

  function EscapeRune(html: bool, r: Rune): string {
    match r
    case Scalar(c) => EscapeScalar(html, c)
    case Bad(_) => "\\ufffd"
  }

  function Escape(html: bool, t: Text): string {
    if t == [] then [] else EscapeRune(html, t[0]) + Escape(html, t[1..])
  }

  function Quote(html: bool, t: Text): string {
    "\"" + (Escape(html, t) + "\"")
  }

  /** The text with all bytes that are not UTF-8 made alike. */
  function BlindRune(r: Rune): Rune {
    if r.Bad? then Bad(0) else r
  }

  function Blind(t: Text): (u: Text)
    ensures |u| == |t|
    ensures IsUtf8(t) ==> u == t
  {
    if t == [] then [] else [BlindRune(t[0])] + Blind(t[1..])
  }

  function ShortEscape(c: char): Option<Rune> {
    if c == '"' || c == '\\' || c == '/' then Some(Scalar(c))
    else if c == 'b' then Some(Scalar(0x08 as char))
    else if c == 'f' then Some(Scalar(0x0C as char))
    else if c == 'n' then Some(Scalar('\n'))
    else if c == 'r' then Some(Scalar('\r'))
    else if c == 't' then Some(Scalar('\t'))
    else None
  }

  /** The escape of U+FFFD is written for bytes that are not UTF-8 and for nothing
      else, so it reads back as such a byte. */
  function LongEscape(a: char, b: char, c: char, d: char): Option<Rune> {
    match (Hex.Value(a), Hex.Value(b), Hex.Value(c), Hex.Value(d))
    case (Some(w), Some(x), Some(y), Some(z)) =>
      var v := ((w * 16 + x) * 16 + y) * 16 + z;
      if v == 0xFFFD then Some(Bad(0))
      else if 0 <= v < 0xD800 || 0xE000 <= v < 0x10000 then Some(Scalar(v as char))
      else None
    case _ => None
  }

  /** Reads the first rune of a string body: the rune and how many characters it took. */
  function ReadRune(s: string): Option<(Rune, nat)>
    requires s != []
  {
    if s[0] == '\\' then
      if |s| >= 6 && s[1] == 'u' then
        match LongEscape(s[2], s[3], s[4], s[5])
        case Some(r) => Some((r, 6))
        case None => None
      else if |s| >= 2 then
        match ShortEscape(s[1])
        case Some(r) => Some((r, 2))
        case None => None
      else None
    else if s[0] as int < 0x20 then None
    else Some((Scalar(s[0]), 1))
  }

  /** Reads a string body up to its closing quote; gives the text and what follows. */
  function ReadBody(s: string): Option<(Text, string)>
    decreases |s|
  {
    if s == [] then None
    else if s[0] == '"' then Some(([], s[1..]))
    else
      match ReadRune(s)
      case None => None
      case Some((r, n)) =>
        if n == 0 || n > |s| then None
        else
          match ReadBody(s[n..])
          case None => None
          case Some((t, rest)) => Some(([r] + t, rest))
  }

  function ReadQuoted(s: string): Option<(Text, string)> {
    if s == [] || s[0] != '"' then None else ReadBody(s[1..])
  }

  /** What follows a whole escape, or a plain character, does not matter for reading it. */
  lemma ReadRuneIsLocal(e: string, tail: string)
    requires e != [] && (e[0] != '\\' || |e| == 6 || (|e| == 2 && e[1] != 'u'))
    ensures ReadRune(e + tail) == ReadRune(e)
  {
    assert forall i :: 0 <= i < |e| ==> (e + tail)[i] == e[i];
  }

  lemma ReadScalar(html: bool, c: char)
    ensures var e := EscapeScalar(html, c);
            && e != [] && e[0] != '"' && (e[0] != '\\' || |e| == 6 || (|e| == 2 && e[1] != 'u'))
            && ReadRune(e) == Some((Scalar(c), |e|))
  {
    if |EscapeScalar(html, c)| == 6 {
      assert (c as int / 16) * 16 + c as int % 16 == c as int;
    }
  }

  lemma ReadEscapedRune(html: bool, r: Rune, tail: string)
    ensures EscapeRune(html, r) != [] && EscapeRune(html, r)[0] != '"'
    ensures ReadRune(EscapeRune(html, r) + tail) == Some((BlindRune(r), |EscapeRune(html, r)|))
  {
    if r.Scalar? {
      ReadScalar(html, r.c);
    }
    ReadRuneIsLocal(EscapeRune(html, r), tail);
  }

  /** One rune further, when the string body starts with one. */
  lemma ReadBodyOfRune(e: string, r: Rune, tail: string)
    requires e != [] && e[0] != '"' && ReadRune(e + tail) == Some((r, |e|)) && ReadBody(tail).Some?
    ensures ReadBody(e + tail) == Some(([r] + ReadBody(tail).value.0, ReadBody(tail).value.1))
  {
    assert (e + tail)[|e|..] == tail;
  }

  lemma ReadBodyOfEscapedRune(html: bool, r: Rune, tail: string)
    requires ReadBody(tail).Some?
    ensures ReadBody(EscapeRune(html, r) + tail) == Some(([BlindRune(r)] + ReadBody(tail).value.0,
                                                          ReadBody(tail).value.1))
  {
    ReadEscapedRune(html, r, tail);
    ReadBodyOfRune(EscapeRune(html, r), BlindRune(r), tail);
  }

  lemma EscapeSplits(html: bool, t: Text, tail: string)
    requires t != []
    ensures Escape(html, t) + tail == EscapeRune(html, t[0]) + (Escape(html, t[1..]) + tail)
  {
  }

  lemma {:induction false} ReadBodyOfEscape(html: bool, t: Text, rest: string)
    ensures ReadBody(Escape(html, t) + ("\"" + rest)) == Some((Blind(t), rest))
  {
    if t == [] {
      assert Escape(html, t) + ("\"" + rest) == "\"" + rest;
    } else {
      ReadBodyOfEscape(html, t[1..], rest);
      ReadBodyOfEscapedRune(html, t[0], Escape(html, t[1..]) + ("\"" + rest));
      EscapeSplits(html, t, "\"" + rest);
    }
  }

  /** Reading inverts quoting, up to the identity of bytes that are not UTF-8. */
  lemma ReadQuotedOfQuote(html: bool, t: Text, rest: string)
    ensures ReadQuoted(Quote(html, t) + rest) == Some((Blind(t), rest))
  {
    ReadBodyOfEscape(html, t, rest);
    QuoteThenRest(Escape(html, t), rest);
  }

  lemma QuoteThenRest(body: string, rest: string)
    ensures ("\"" + (body + "\"") + rest)[1..] == body + ("\"" + rest)
  {
  }

  /** A quoted string after a key. */
  function ReadTextAfter(key: string, s: string): Option<(Text, string)> {
    match Expect(key, s) case None => None case Some(rest) => ReadQuoted(rest)
  }

  lemma ReadTextAfterKey(key: string, t: Text, rest: string)
    ensures ReadTextAfter(key, key + (Quote(true, t) + rest)) == Some((Blind(t), rest))
  {
    ExpectPrefix(key, Quote(true, t) + rest);
    ReadQuotedOfQuote(true, t, rest);
  }

  lemma {:induction false} EscapeIsBlind(html: bool, t: Text)
    ensures Escape(html, t) == Escape(html, Blind(t))
  {
    if t != [] {
      EscapeIsBlind(html, t[1..]);
      assert Blind(t)[1..] == Blind(t[1..]);
    }
  }

  /** A character that JSON writes as it is. */
  predicate Plain(html: bool, c: char) {
    && c as int >= 0x20 && c != '"' && c != '\\' && c as int != 0x2028 && c as int != 0x2029
    && (html ==> c != '<' && c != '>' && c != '&')
  }

  lemma {:induction false} PlainIsUnchanged(html: bool, s: string)
    requires forall i :: 0 <= i < |s| ==> Plain(html, s[i])
    ensures Escape(html, Of(s)) == s
    ensures Quote(html, Of(s)) == "\"" + s + "\""
  {
    if s != [] {
      PlainIsUnchanged(html, s[1..]);
      assert Of(s)[1..] == Of(s[1..]);
      assert s == [s[0]] + s[1..];
    }
  }

  /** The escapes of all other characters: two-character ones where JSON has them, and
      otherwise the value in four lower-case hexadecimal digits. */
  lemma EscapesAre(html: bool, c: char)
    ensures Plain(html, c) <==> EscapeScalar(html, c) == [c]
    ensures EscapeScalar(html, '"') == ['\\', '"'] && EscapeScalar(html, '\\') == ['\\', '\\']
    ensures EscapeScalar(html, 0x08 as char) == ['\\', 'b'] && EscapeScalar(html, 0x0C as char) == ['\\', 'f']
    ensures EscapeScalar(html, 0x0A as char) == ['\\', 'n'] && EscapeScalar(html, 0x0D as char) == ['\\', 'r']
    ensures EscapeScalar(html, 0x09 as char) == ['\\', 't']
    ensures EscapeScalar(true, '<') == "\\u003c" && EscapeScalar(true, '>') == "\\u003e"
    ensures EscapeScalar(true, '&') == "\\u0026"
    ensures EscapeScalar(html, 0x2028 as char) == "\\u2028" && EscapeScalar(html, 0x2029 as char) == "\\u2029"
    ensures c as int < 0x20 && c as int !in {0x08, 0x09, 0x0A, 0x0C, 0x0D} ==>
              EscapeScalar(html, c)
              == "\\u00" + ["0123456789abcdef"[c as int / 16], "0123456789abcdef"[c as int % 16]]
    ensures forall b :: EscapeRune(html, Bad(b)) == "\\ufffd"
  {
    if c as int < 0x20 {
      Hex.DigitIsInPlace(c as int / 16);
      Hex.DigitIsInPlace(c as int % 16);
    }
  }
}
