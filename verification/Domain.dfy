/** Job states and their transitions, content normalization, and the encoding
    that an approval hash covers. */
module Domain {
  import opened Wrappers
  import opened Text
  import opened JsonText

  datatype JobState = Draft | Approved | Routing | Publishing | Complete | Partial | Failed | Unknown | Cancelled

  function Successors(from: JobState): set<JobState> {
    match from
    case Draft => {Approved, Cancelled}
    case Approved => {Routing, Cancelled}
    case Routing => {Publishing, Failed, Cancelled}
    case Publishing => {Complete, Partial, Failed, Unknown}
    case Partial => {Publishing, Complete, Failed, Unknown}
    case Failed => {Routing, Cancelled}
    case Unknown => {Complete, Failed, Partial}
    case Complete => {}
    case Cancelled => {}
  }

  predicate CanTransition(from: JobState, to: JobState) {
    to in Successors(from)
  }

  /** The table, edge by edge. */
  lemma TransitionsAre(from: JobState, to: JobState)
    ensures CanTransition(from, to) <==>
              (from, to) in {
                (Draft, Approved), (Draft, Cancelled),
                (Approved, Routing), (Approved, Cancelled),
                (Routing, Publishing), (Routing, Failed), (Routing, Cancelled),
                (Publishing, Complete), (Publishing, Partial), (Publishing, Failed), (Publishing, Unknown),
                (Partial, Publishing), (Partial, Complete), (Partial, Failed), (Partial, Unknown),
                (Failed, Routing), (Failed, Cancelled),
                (Unknown, Complete), (Unknown, Failed), (Unknown, Partial)}
  {
  }

  datatype DomainError = InvalidContent | NoDestination

  const CR := Scalar('\r')
  const LF := Scalar('\n')
  const NUL := Scalar(0 as char)

  /** strings.ReplaceAll for a non-empty pattern. */
  function ReplaceAll(t: Text, old_: Text, new_: Text): Text
    requires old_ != []
  {
    if t == [] then []
    else if old_ <= t then new_ + ReplaceAll(t[|old_|..], old_, new_)
    else [t[0]] + ReplaceAll(t[1..], old_, new_)
  }

  function NormalizeNewlines(t: Text): Text {
    ReplaceAll(ReplaceAll(t, [CR, LF], [LF]), [CR], [LF])
  }

  function NormalizeContent(content: Text): Result<Text, DomainError> {
    var content := NormalizeNewlines(content);
    if !IsUtf8(content) || NUL in content || Blank(content)
    then Err(InvalidContent)
    else Ok(content)
  }

  /** One pass: each CRLF pair and each lone CR becomes one LF. */
  function FoldNewlines(t: Text): Text {
    if t == [] then []
    else if t[0] == CR then [LF] + FoldNewlines(if |t| >= 2 && t[1] == LF then t[2..] else t[1..])
    else [t[0]] + FoldNewlines(t[1..])
  }

  /** What is not a line-ending character. */
  function WithoutNewlines(t: Text): Text {
    if t == [] then []
    else if t[0] == CR || t[0] == LF then WithoutNewlines(t[1..])
    else [t[0]] + WithoutNewlines(t[1..])
  }

  function Count(t: Text, r: Rune): nat {
    if t == [] then 0 else (if t[0] == r then 1 else 0) + Count(t[1..], r)
  }

  /** The number of line endings: LF, CRLF and lone CR each count once. */
  function LineEndings(t: Text): nat {
    if t == [] then 0
    else if t[0] == CR && |t| >= 2 && t[1] == LF then 1 + LineEndings(t[2..])
    else (if t[0] == CR || t[0] == LF then 1 else 0) + LineEndings(t[1..])
  }

  lemma {:induction false} TwoPassesAreOneFold(t: Text)
    ensures NormalizeNewlines(t) == FoldNewlines(t)
  {
    if t != [] {
      if [CR, LF] <= t {
        TwoPassesAreOneFold(t[2..]);
        var rest := ReplaceAll(t[2..], [CR, LF], [LF]);
        assert ([LF] + rest)[1..] == rest;
      } else {
        TwoPassesAreOneFold(t[1..]);
        var rest := ReplaceAll(t[1..], [CR, LF], [LF]);
        assert ([t[0]] + rest)[1..] == rest;
        assert [CR] <= [t[0]] + rest <==> t[0] == CR;
      }
    }
  }

  /** No CR is left, every other character stays in order, and each line ending has
      become exactly one LF. */
  lemma {:induction false} NormalizationMeaning(t: Text)
    ensures CR !in NormalizeNewlines(t)
    ensures WithoutNewlines(NormalizeNewlines(t)) == WithoutNewlines(t)
    ensures Count(NormalizeNewlines(t), LF) == LineEndings(t)
  {
    TwoPassesAreOneFold(t);
    if t != [] {
      var rest := if t[0] == CR && |t| >= 2 && t[1] == LF then t[2..] else t[1..];
      NormalizationMeaning(rest);
      TwoPassesAreOneFold(rest);
      assert FoldNewlines(t)[1..] == FoldNewlines(rest);
    }
  }

  function Lines(t: Text): (r: seq<Text>)
    ensures r != []
  {
    if t == [] then [[]]
    else if t[0] == Scalar('\r') && |t| >= 2 && t[1] == Scalar('\n') then [[]] + Lines(t[2..])
    else if t[0] == Scalar('\r') || t[0] == Scalar('\n') then [[]] + Lines(t[1..])
    else [[t[0]] + Lines(t[1..])[0]] + Lines(t[1..])[1..]
  }

  function JoinedLines(lines: seq<Text>): Text
    requires lines != []
  {
    if |lines| == 1 then lines[0] else lines[0] + [Scalar('\n')] + JoinedLines(lines[1..])
  }

  lemma JoinedFirst(r: Rune, lines: seq<Text>)
    requires lines != []
    ensures JoinedLines([[r] + lines[0]] + lines[1..]) == [r] + JoinedLines(lines)
  {
    assert ([[r] + lines[0]] + lines[1..])[1..] == lines[1..];
  }

  lemma JoinedBlankLine(lines: seq<Text>)
    requires lines != []
    ensures JoinedLines([[]] + lines) == [Scalar('\n')] + JoinedLines(lines)
  {
    assert ([[]] + lines)[1..] == lines;
  }

  lemma {:induction false} FoldJoinsLines(t: Text)
    ensures FoldNewlines(t) == JoinedLines(Lines(t))
  {
    if t != [] {
      if t[0] == CR || t[0] == LF {
        var rest := if t[0] == CR && |t| >= 2 && t[1] == LF then t[2..] else t[1..];
        FoldJoinsLines(rest);
        JoinedBlankLine(Lines(rest));
      } else {
        FoldJoinsLines(t[1..]);
        JoinedFirst(t[0], Lines(t[1..]));
      }
    }
  }

  /** Normalized text is the lines of the original, ended in any way, joined by line feeds. */
  lemma NormalizationJoinsLines(t: Text)
    ensures NormalizeNewlines(t) == JoinedLines(Lines(t))
  {
    TwoPassesAreOneFold(t);
    FoldJoinsLines(t);
  }

  lemma {:induction false} FoldKeepsNature(t: Text)
    ensures IsUtf8(FoldNewlines(t)) <==> IsUtf8(t)
    ensures Scalar(0 as char) in FoldNewlines(t) <==> Scalar(0 as char) in t
    ensures Blank(FoldNewlines(t)) <==> Blank(t)
  {
    if t != [] {
      var rest := if t[0] == CR && |t| >= 2 && t[1] == LF then t[2..] else t[1..];
      FoldKeepsNature(rest);
      assert FoldNewlines(t)[1..] == FoldNewlines(rest);
      assert t == t[..|t| - |rest|] + rest && FoldNewlines(t) == [FoldNewlines(t)[0]] + FoldNewlines(rest);
    }
  }

  /** Content is refused exactly if it is not UTF-8, has a NUL, or is blank. */
  lemma RefusedContent(content: Text)
    ensures NormalizeContent(content).Err? <==> !IsUtf8(content) || Scalar(0 as char) in content || Blank(content)
  {
    TwoPassesAreOneFold(content);
    FoldKeepsNature(content);
  }

  lemma {:induction false} FoldFixesNormalized(t: Text)
    requires CR !in t
    ensures FoldNewlines(t) == t
  {
    if t != [] {
      FoldFixesNormalized(t[1..]);
      assert t == [t[0]] + t[1..];
    }
  }

  /** Normalizing stored content again changes nothing, so the hash taken at preview
      is the hash of the stored text itself. */
  lemma NormalizationIsIdempotent(t: Text)
    requires NormalizeContent(t).Ok?
    ensures NormalizeContent(NormalizeContent(t).value) == NormalizeContent(t)
  {
    var u := NormalizeNewlines(t);
    NormalizationMeaning(t);
    FoldFixesNormalized(u);
    TwoPassesAreOneFold(u);
  }

  // The approval encoding.

  function EncodeBool(b: bool): string {
    if b then "true" else "false"
  }

  const KEY_CONTENT := "{\"version\":1,\"content\":"
  const KEY_X := ",\"post_to_x\":"
  const KEY_NOSTR := ",\"post_to_nostr\":"
  const KEY_SCHEDULE := ",\"scheduled_at\":"

  /** The JSON that is hashed, for content already normalized. */
  function EncodeApproval(content: Text, x: bool, nostr: bool, scheduledAt: Text): string {
    KEY_CONTENT + (Quote(true, content) + (KEY_X + (EncodeBool(x) + (KEY_NOSTR + (EncodeBool(nostr)
    + (KEY_SCHEDULE + (Quote(true, scheduledAt) + "}")))))))
  }

  /** The text that ApprovalHash hashes, or why there is none. */
  function ApprovalEncoding(content: Text, x: bool, nostr: bool, scheduledAt: Text): Result<string, DomainError> {
    if !x && !nostr then Err(NoDestination)
    else
      match NormalizeContent(content)
      case Err(e) => Err(e)
      case Ok(normalized) => Ok(EncodeApproval(normalized, x, nostr, scheduledAt))
  }

  function ReadBool(s: string): Option<(bool, string)> {
    if "true" <= s then Some((true, s[4..]))
    else if "false" <= s then Some((false, s[5..]))
    else None
  }

  function ReadBoolAfter(key: string, s: string): Option<(bool, string)> {
    match Expect(key, s) case None => None case Some(rest) => ReadBool(rest)
  }

  function ReadApproval(s: string): Option<(Text, bool, bool, Text)> {
    match ReadTextAfter(KEY_CONTENT, s)
    case None => None
    case Some((content, s1)) =>
      match ReadBoolAfter(KEY_X, s1)
      case None => None
      case Some((x, s2)) =>
        match ReadBoolAfter(KEY_NOSTR, s2)
        case None => None
        case Some((nostr, s3)) =>
          match ReadTextAfter(KEY_SCHEDULE, s3)
          case None => None
          case Some((scheduledAt, s4)) => if s4 == "}" then Some((content, x, nostr, scheduledAt)) else None
  }

  lemma ReadBoolAfterKey(key: string, b: bool, rest: string)
    ensures ReadBoolAfter(key, key + (EncodeBool(b) + rest)) == Some((b, rest))
  {
    ExpectPrefix(key, EncodeBool(b) + rest);
    if !b {
      assert (EncodeBool(b) + rest)[0] == 'f';
    }
  }

  lemma ReadApprovalOfEncoded(content: Text, x: bool, nostr: bool, scheduledAt: Text)
    ensures ReadApproval(EncodeApproval(content, x, nostr, scheduledAt))
         == Some((Blind(content), x, nostr, Blind(scheduledAt)))
  {
    var s3 := KEY_SCHEDULE + (Quote(true, scheduledAt) + "}");
    var s2 := KEY_NOSTR + (EncodeBool(nostr) + s3);
    var s1 := KEY_X + (EncodeBool(x) + s2);
    ReadTextAfterKey(KEY_CONTENT, content, s1);
    ReadBoolAfterKey(KEY_X, x, s2);
    ReadBoolAfterKey(KEY_NOSTR, nostr, s3);
    ReadTextAfterKey(KEY_SCHEDULE, scheduledAt, "}");
  }

  /** There is nothing to hash exactly without a destination or without acceptable content. */
  lemma RefusedEncoding(content: Text, x: bool, nostr: bool, scheduledAt: Text)
    ensures ApprovalEncoding(content, x, nostr, scheduledAt).Err? <==>
              (!x && !nostr) || !IsUtf8(content) || Scalar(0 as char) in content || Blank(content)
  {
    RefusedContent(content);
  }

  /** The bytes hashed for content and schedule that JSON writes as they are, with HTML escaping. */
  lemma EncodingOfPlain(content: string, x: bool, nostr: bool, scheduledAt: string)
    requires forall i :: 0 <= i < |content| ==> Plain(true, content[i])
    requires forall i :: 0 <= i < |scheduledAt| ==> Plain(true, scheduledAt[i])
    requires (x || nostr) && !Blank(Of(content))
    ensures ApprovalEncoding(Of(content), x, nostr, Of(scheduledAt)) == Ok(
              "{\"version\":1,\"content\":\"" + content + "\",\"post_to_x\":" + (if x then "true" else "false")
              + ",\"post_to_nostr\":" + (if nostr then "true" else "false")
              + ",\"scheduled_at\":\"" + scheduledAt + "\"}")
  {
    assert CR !in Of(content) && NUL !in Of(content);
    TwoPassesAreOneFold(Of(content));
    FoldFixesNormalized(Of(content));
    PlainIsUnchanged(true, content);
    PlainIsUnchanged(true, scheduledAt);
    assert KEY_CONTENT + "\"" == "{\"version\":1,\"content\":\"" && "\"" + KEY_X == "\",\"post_to_x\":";
    assert KEY_SCHEDULE + "\"" == ",\"scheduled_at\":\"" && "\"" + "}" == "\"}";
    Flattened(KEY_CONTENT, content, KEY_X, EncodeBool(x), KEY_NOSTR, EncodeBool(nostr), KEY_SCHEDULE, scheduledAt);
  }

  lemma Flattened(k1: string, c: string, k2: string, x: string, k3: string, n: string, k4: string, s: string)
    ensures k1 + (("\"" + c + "\"") + (k2 + (x + (k3 + (n + (k4 + (("\"" + s + "\"") + "}")))))))
         == (k1 + "\"") + c + ("\"" + k2) + x + k3 + n + (k4 + "\"") + s + ("\"" + "}")
  {
  }

  lemma AcceptedContentIsUtf8(t: Text)
    requires NormalizeContent(t).Ok?
    ensures IsUtf8(NormalizeContent(t).value)
  {
  }

  /** Equal encodings mean equal normalized content, equal destinations and equal
      schedules, exactly up to the identity of schedule bytes that are not UTF-8. */
  lemma ApprovalEncodingInjective(c1: Text, x1: bool, n1: bool, s1: Text, c2: Text, x2: bool, n2: bool, s2: Text)
    requires ApprovalEncoding(c1, x1, n1, s1).Ok? && ApprovalEncoding(c2, x2, n2, s2).Ok?
    ensures ApprovalEncoding(c1, x1, n1, s1) == ApprovalEncoding(c2, x2, n2, s2)
       <==> NormalizeContent(c1) == NormalizeContent(c2) && x1 == x2 && n1 == n2 && Blind(s1) == Blind(s2)
  {
    var t1 := NormalizeContent(c1).value;
    var t2 := NormalizeContent(c2).value;
    ReadApprovalOfEncoded(t1, x1, n1, s1);
    ReadApprovalOfEncoded(t2, x2, n2, s2);
    EscapeIsBlind(true, s1);
    EscapeIsBlind(true, s2);
  }

  /** For schedules in valid UTF-8, such as every formatted time, the encoding is injective. */
  lemma ApprovalEncodingInjectiveOnTimes(c1: Text, x1: bool, n1: bool, s1: Text, c2: Text, x2: bool, n2: bool, s2: Text)
    requires ApprovalEncoding(c1, x1, n1, s1).Ok? && IsUtf8(s1) && IsUtf8(s2)
    requires ApprovalEncoding(c1, x1, n1, s1) == ApprovalEncoding(c2, x2, n2, s2)
    ensures NormalizeContent(c1) == NormalizeContent(c2) && x1 == x2 && n1 == n2 && s1 == s2
  {
    ApprovalEncodingInjective(c1, x1, n1, s1, c2, x2, n2, s2);
  }

  /** Two schedules that differ only in a byte that is not UTF-8 share an encoding. */
  lemma BadScheduleBytesCollide()
    ensures var content := Of("a");
            [Bad(0xFE)] != [Bad(0xFF)]
            && ApprovalEncoding(content, true, false, [Bad(0xFE)]).Ok?
            && ApprovalEncoding(content, true, false, [Bad(0xFE)])
            == ApprovalEncoding(content, true, false, [Bad(0xFF)])
  {
    var content := Of("a");
    FoldFixesNormalized(content);
    TwoPassesAreOneFold(content);
    assert content[0] == Scalar('a');
    EscapeIsBlind(true, [Bad(0xFE)]);
    EscapeIsBlind(true, [Bad(0xFF)]);
  }
}
