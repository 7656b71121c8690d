/** Publication to Nostr: sign one event once, submit it to three relays, and judge
    the result by the number of acknowledgements. */
module NostrPublish {
  import opened Wrappers
  import opened Text
  import opened Platform
  import opened NostrEvent
  import Hex
  import Ordering
  import Utf8

  datatype SignedEvent = SignedEvent(
    id: string,
    pubKey: Text,
    createdAt: int,
    kind: int,
    tags: Slice<Tag>,
    content: Text,
    sig: Text)

  /** A relay's answer to one submission. */
  datatype RelayReply = Unreachable | Answered(accepted: bool, code: string)

  datatype RelayResult = RelayResult(endpointID: string, accepted: bool, code: string)

  /** What the remote signer may answer: to the two key lookups and to the signing request. */
  datatype SignerReplies = SignerReplies(firstKey: Option<Text>, secondKey: Option<Text>, signed: Option<SignedEvent>)

  datatype Receipt = Receipt(
    state: PublicationState,
    externalID: string,
    attemptCount: nat,
    relayResults: seq<RelayResult>)

  const REJECTIONS := {"rejected", "auth_required", "duplicate", "timeout", "protocol_error"}

  function NormalizeRelayCode(accepted: bool, code: string): string {
    if accepted then "ok" else if code in REJECTIONS then code else "rejected"
  }

  function ResultOf(relay: string, reply: RelayReply): RelayResult {
    match reply
    case Unreachable => RelayResult(relay, false, "transport_error")
    case Answered(accepted, code) => RelayResult(relay, accepted, NormalizeRelayCode(accepted, code))
  }

  function Acceptances(results: seq<RelayResult>): nat {
    if results == [] then 0
    else Acceptances(results[..|results| - 1]) + if results[|results| - 1].accepted then 1 else 0
  }

  /** The signer may not change the event, and must sign it in the expected notation. */
  predicate MatchesRequest(unsigned: UnsignedEvent, expectedID: string, signed: SignedEvent) {
    && signed.id == expectedID
    && UnsignedEvent(signed.pubKey, signed.createdAt, signed.kind, signed.tags, signed.content) == unsigned
    && IsLowerHex(signed.sig, 128)
  }

  predicate PublishableText(content: Text) {
    !Blank(content) && IsUtf8(content) && ByteLength(content) <= MAX_CONTENT
  }

  predicate ForbiddenInRelayID(c: char) {
    c == '\r' || c == '\n' || c == '/' || c == '\\' || c == ':' || c == ' '
  }

  predicate ValidRelayID(relay: string) {
    && !Blank(Of(relay))
    && ByteLength(Of(relay)) <= 128
    && forall i :: 0 <= i < |relay| ==> !ForbiddenInRelayID(relay[i])
  }

  predicate ValidRelays(relays: seq<string>) {
    && |relays| == 3
    && (forall i :: 0 <= i < 3 ==> ValidRelayID(relays[i]))
    && relays[0] != relays[1] && relays[0] != relays[2] && relays[1] != relays[2]
  }

  function CopiesTo(relays: seq<string>, event: SignedEvent, n: nat): seq<(string, SignedEvent)>
    requires n <= |relays|
  {
    if n == 0 then [] else CopiesTo(relays, event, n - 1) + [(relays[n - 1], event)]
  }

  function ResultsTo(relays: seq<string>, replies: seq<RelayReply>, n: nat): seq<RelayResult>
    requires n <= |relays| && n <= |replies|
  {
    if n == 0 then [] else ResultsTo(relays, replies, n - 1) + [ResultOf(relays[n - 1], replies[n - 1])]
  }

  lemma CopiesOfOneMore(before: seq<(string, SignedEvent)>, relays: seq<string>, event: SignedEvent, n: nat)
    requires n < |relays|
    ensures before + CopiesTo(relays, event, n) + [(relays[n], event)] == before + CopiesTo(relays, event, n + 1)
  {
  }

  lemma {:induction false} AcceptancesAreResults(relays: seq<string>, replies: seq<RelayReply>, n: nat)
    requires n <= |relays| && n <= |replies|
    ensures Acceptances(ResultsTo(relays, replies, n)) <= n
  {
    if n > 0 {
      AcceptancesAreResults(relays, replies, n - 1);
      AcceptancesOfOneMore(ResultsTo(relays, replies, n - 1), ResultOf(relays[n - 1], replies[n - 1]));
    }
  }

  /** Each relay gets one copy, in order, and its own result in its own place. */
  lemma {:induction false} SubmissionsAlign(relays: seq<string>, event: SignedEvent, replies: seq<RelayReply>, n: nat)
    requires n <= |relays| && n <= |replies|
    ensures |CopiesTo(relays, event, n)| == n == |ResultsTo(relays, replies, n)|
    ensures forall i :: 0 <= i < n ==> CopiesTo(relays, event, n)[i] == (relays[i], event)
    ensures forall i :: 0 <= i < n ==> ResultsTo(relays, replies, n)[i] == ResultOf(relays[i], replies[i])
  {
    if n > 0 {
      SubmissionsAlign(relays, event, replies, n - 1);
    }
  }

  class NostrConnector {
    const relays: seq<string>
    /** The hash behind an event ID. */
    const digest: string -> string
    /** Every event handed to the signer, and every event handed to a relay. */
    var signRequests: seq<UnsignedEvent>
    var submissions: seq<(string, SignedEvent)>

    ghost predicate Valid() {
      ValidRelays(relays)
    }

    constructor (relays: seq<string>, digest: string -> string)
      ensures this.relays == relays && this.digest == digest && signRequests == [] && submissions == []
    {
      this.relays, this.digest := relays, digest;
      signRequests, submissions := [], [];
    }

    /** Whether a signer and a publisher are given; sorting brings equal IDs together. */
    static method New(signer: bool, publisher: bool, relays: seq<string>, digest: string -> string)
      returns (c: Option<NostrConnector>)
      ensures c.Some? <==> signer && publisher && ValidRelays(relays)
      ensures c.Some? ==> fresh(c.value) && c.value.Valid() && c.value.relays == relays && c.value.digest == digest
    {
      if !signer || !publisher {
        return None;
      }
      if |relays| != 3 {
        return None;
      }
      for i := 0 to |relays|
        invariant forall k :: 0 <= k < i ==> ValidRelayID(relays[k])
      {
        if !ValidRelayID(relays[i]) {
          return None;
        }
      }
      var distinct := AllDistinct(relays);
      if !distinct {
        return None;
      }
      var connector := new NostrConnector(relays, digest);
      return Some(connector);
    }

    /** The event signed, when every check passes. */
    ghost function AcceptedSignature(unsigned: UnsignedEvent, key: Option<Text>,
                                     signed: Option<SignedEvent>): Option<SignedEvent> {
      if (unsigned.kind == KIND_TEXT_NOTE || unsigned.kind == KIND_RELAY_AUTH)
         && key == Some(unsigned.pubKey) && ValidEvent(unsigned)
         && signed.Some? && MatchesRequest(unsigned, digest(CanonicalSerialize(unsigned).value), signed.value)
      then signed else None
    }

    /** A signature is accepted exactly for the unchanged event, under its own ID and the signer's
        key, in 64 bytes of hexadecimal. */
    lemma SignatureIsAcceptedIff(unsigned: UnsignedEvent, key: Option<Text>, signed: Option<SignedEvent>)
      ensures AcceptedSignature(unsigned, key, signed).Some? <==>
                && unsigned.kind in {1, 22242} && key == Some(unsigned.pubKey)
                && CanonicalSerialize(unsigned).Some? && signed.Some?
                && signed.value.id == digest(CanonicalSerialize(unsigned).value)
                && signed.value.pubKey == unsigned.pubKey && signed.value.createdAt == unsigned.createdAt
                && signed.value.kind == unsigned.kind && signed.value.tags == unsigned.tags
                && signed.value.content == unsigned.content
                && exists sig: seq<byte> :: 2 * |sig| == 128 && signed.value.sig == Of(Hex.Encode(sig))
      ensures AcceptedSignature(unsigned, key, signed).Some? ==> AcceptedSignature(unsigned, key, signed) == signed
    {
      if signed.Some? {
        LowerHexIs(signed.value.sig, 128);
      }
    }

    method SignNostrEvent(unsigned: UnsignedEvent, key: Option<Text>, reply: Option<SignedEvent>)
      returns (signed: Option<SignedEvent>, err: Option<PlatformError>)
      modifies this`signRequests
      ensures signed == AcceptedSignature(unsigned, key, reply)
      ensures signed.None? <==> err.Some?
      ensures signRequests == old(signRequests)
           || (signRequests == old(signRequests) + [unsigned] && ValidEvent(unsigned)
               && (unsigned.kind == KIND_TEXT_NOTE || unsigned.kind == KIND_RELAY_AUTH))
      ensures signed.Some? ==> signRequests == old(signRequests) + [unsigned]
      // The signer is asked exactly for a valid event of an allowed kind under its own key.
      ensures signRequests == old(signRequests)
                + if unsigned.kind in {1, 22242} && key == Some(unsigned.pubKey)
                    && ValidEvent(unsigned) then [unsigned] else []
      ensures err == if unsigned.kind !in {1, 22242} then Some(PlatformError(Forbidden, 0, false))
                     else if key != Some(unsigned.pubKey) || !IsLowerHex(unsigned.pubKey, 64) then
                       Some(PlatformError(Signing, 0, false))
                     else if !ValidEvent(unsigned) then Some(PlatformError(InvalidPayload, 0, false))
                     else if signed.None? then Some(PlatformError(Signing, 0, false))
                     else None
    {
      if unsigned.kind != KIND_TEXT_NOTE && unsigned.kind != KIND_RELAY_AUTH {
        return None, Some(PlatformError(Forbidden, 0, false));
      }
      if key.None? {
        return None, Some(PlatformError(Signing, 0, false));
      }
      if !IsLowerHex(key.value, 64) || unsigned.pubKey != key.value {
        return None, Some(PlatformError(Signing, 0, false));
      }
      var serialized := CanonicalSerialize(unsigned);
      if serialized.None? {
        return None, Some(PlatformError(InvalidPayload, 0, false));
      }
      var expectedID := digest(serialized.value);
      signRequests := signRequests + [unsigned];
      if reply.None? {
        return None, Some(PlatformError(Signing, 0, false));
      }
      if !MatchesRequest(unsigned, expectedID, reply.value) {
        return None, Some(PlatformError(Signing, 0, false));
      }
      return reply, None;
    }

    /** One copy of the event for each relay, in order. */
    ghost function Copies(event: SignedEvent): seq<(string, SignedEvent)>
      requires Valid()
    {
      CopiesTo(relays, event, |relays|)
    }

    /** One submission and what its outcome becomes in the receipt. */
    method SubmitTo(relay: string, event: SignedEvent, reply: RelayReply) returns (result: RelayResult)
      modifies this`submissions
      ensures submissions == old(submissions) + [(relay, event)]
      ensures result == ResultOf(relay, reply)
    {
      submissions := submissions + [(relay, event)];
      match reply {
        case Unreachable =>
          result := RelayResult(relay, false, "transport_error");
        case Answered(ok, code) =>
          result := RelayResult(relay, ok, NormalizeRelayCode(ok, code));
      }
    }

    /** The loop over the relays. */
    method Submit(event: SignedEvent, replies: seq<RelayReply>)
      returns (results: seq<RelayResult>, accepted: nat, attempts: nat)
      requires Valid() && |replies| == 3
      modifies this`submissions
      ensures submissions == old(submissions) + Copies(event)
      ensures results == ResultsTo(relays, replies, |relays|)
      ensures accepted == Acceptances(results) <= 3 && attempts == 3
    {
      results, accepted, attempts := [], 0, 0;
      for i := 0 to |relays|
        invariant attempts == i && accepted == Acceptances(results)
        invariant results == ResultsTo(relays, replies, i)
        invariant submissions == old(submissions) + CopiesTo(relays, event, i)
      {
        attempts := attempts + 1;
        var result := SubmitTo(relays[i], event, replies[i]);
        AcceptancesOfOneMore(results, result);
        if result.accepted {
          accepted := accepted + 1;
        }
        results := results + [result];
        CopiesOfOneMore(old(submissions), relays, event, i);
      }
      AcceptancesAreResults(relays, replies, |relays|);
    }

    /** What must hold when an event was submitted. */
    ghost predicate Submitted(requested: UnsignedEvent, event: SignedEvent, replies: seq<RelayReply>, receipt: Receipt)
      requires Valid() && |replies| == 3 && ValidEvent(requested)
    {
      && receipt.externalID == event.id == digest(CanonicalSerialize(requested).value)
      && receipt.attemptCount == 3
      && receipt.relayResults == ResultsTo(relays, replies, |relays|)
      && receipt.state == JudgedBy(Acceptances(receipt.relayResults))
    }

    /** `createdAt` is the clock in Unix seconds when publication starts. Either nothing
        is submitted, or the one event requested is signed once and submitted once to
        each relay in order. */
    method Publish(content: Text, createdAt: int, signer: SignerReplies, replies: seq<RelayReply>)
      returns (receipt: Receipt, err: Option<PlatformError>)
      requires Valid() && |replies| == 3
      modifies this`signRequests, this`submissions
      ensures old(signRequests) <= signRequests && |signRequests| <= |old(signRequests)| + 1
      ensures var requested := Requested(content, createdAt, signer);
              var event := AcceptedSignature(requested, signer.secondKey, signer.signed);
              if PublishableText(content) && signer.firstKey.Some? && event.Some? then
                && submissions == old(submissions) + Copies(event.value)
                && signRequests == old(signRequests) + [requested]
                && Submitted(requested, event.value, replies, receipt)
                && (err.None? <==> receipt.state == Complete)
              else
                && submissions == old(submissions)
                && receipt == Receipt(Failed, "", 0, []) && err.Some?
      ensures !PublishableText(content) ==> err == Some(PlatformError(InvalidPayload, 0, false))
      ensures PublishableText(content) && signer.firstKey.None? ==> err == Some(PlatformError(Signing, 0, false))
      ensures receipt.attemptCount > 0 && err.Some? ==> err == Some(PlatformError(RemoteRejected, 0, false))
    {
      receipt := Receipt(Failed, "", 0, []);
      if Blank(content) || !IsUtf8(content) || ByteLength(content) > MAX_CONTENT {
        return receipt, Some(PlatformError(InvalidPayload, 0, false));
      }
      if signer.firstKey.None? {
        return receipt, Some(PlatformError(Signing, 0, false));
      }
      var unsigned := UnsignedEvent(signer.firstKey.value, createdAt, KIND_TEXT_NOTE, Some([]), content);
      var event, signErr := SignNostrEvent(unsigned, signer.secondKey, signer.signed);
      if event.None? {
        return receipt, signErr;
      }
      receipt := receipt.(externalID := event.value.id);
      var results, accepted, attempts := Submit(event.value, replies);
      receipt := receipt.(attemptCount := attempts, relayResults := results);
      match accepted {
        case 3 =>
          receipt := receipt.(state := Complete);
          return receipt, None;
        case 2 =>
          receipt := receipt.(state := Complete);
          return receipt, None;
        case 1 =>
          receipt := receipt.(state := Partial);
          return receipt, Some(PlatformError(RemoteRejected, 0, false));
        case _ =>
          receipt := receipt.(state := Failed);
          return receipt, Some(PlatformError(RemoteRejected, 0, false));
      }
    }
  }

  /** Sorts and compares neighbours. */
  method AllDistinct(relays: seq<string>) returns (distinct: bool)
    ensures distinct <==> forall i, j :: 0 <= i < j < |relays| ==> relays[i] != relays[j]
  {
    var sorted := Ordering.SortBy(relays, Ordering.Itself);
    var k := 1;
    while k < |sorted|
      invariant 1 <= k
      invariant forall i :: 0 < i < k && i < |sorted| ==> sorted[i] != sorted[i - 1]
    {
      if sorted[k] == sorted[k - 1] {
        RepeatComesFromRepeat(relays, sorted, k);
        return false;
      }
      k := k + 1;
    }
    NeighboursDecide(sorted);
    Ordering.PermutationKeepsDistinctKeys(sorted, relays, Ordering.Itself);
    assert forall i :: 0 <= i < |relays| ==> Ordering.Itself(relays[i]) == relays[i];
    return true;
  }

  lemma RepeatComesFromRepeat(relays: seq<string>, sorted: seq<string>, k: nat)
    requires multiset(sorted) == multiset(relays) && 0 < k < |sorted| && sorted[k] == sorted[k - 1]
    ensures exists i, j :: 0 <= i < j < |relays| && relays[i] == relays[j]
  {
    var a, b := Ordering.Itself(sorted[k - 1]), Ordering.Itself(sorted[k]);
    if forall i, j :: 0 <= i < j < |relays| ==> relays[i] != relays[j] {
      Ordering.PermutationKeepsDistinctKeys(relays, sorted, Ordering.Itself);
      assert false;
    }
  }

  lemma NeighboursDecide(sorted: seq<string>)
    requires forall i, j :: 0 <= i < j < |sorted| ==> !Ordering.Less(Ordering.Itself(sorted[j]),
                                                                     Ordering.Itself(sorted[i]))
    requires forall i :: 0 < i < |sorted| ==> sorted[i] != sorted[i - 1]
    ensures forall i, j :: 0 <= i < j < |sorted| ==> Ordering.Itself(sorted[i]) != Ordering.Itself(sorted[j])
  {
    forall i, j | 0 <= i < j < |sorted| ensures Ordering.Itself(sorted[i]) != Ordering.Itself(sorted[j]) {
      if sorted[i] == sorted[j] {
        assert !Ordering.Less(Ordering.Itself(sorted[i + 1]), Ordering.Itself(sorted[i]));
        assert !Ordering.Less(Ordering.Itself(sorted[j]), Ordering.Itself(sorted[i + 1]));
        Ordering.LessTotal(sorted[i], sorted[i + 1]);
      }
    }
  }

  /** The event that Publish asks the signer for. */
  function Requested(content: Text, createdAt: int, signer: SignerReplies): UnsignedEvent {
    var key := if signer.firstKey.Some? then signer.firstKey.value else [];
    UnsignedEvent(key, createdAt, KIND_TEXT_NOTE, Some([]), content)
  }

  lemma AcceptancesOfOneMore(results: seq<RelayResult>, result: RelayResult)
    ensures Acceptances(results + [result]) == Acceptances(results) + if result.accepted then 1 else 0
  {
  }

  function JudgedBy(accepted: nat): PublicationState {
    if accepted >= 2 then Complete else if accepted == 1 then Partial else Failed
  }

  /** What may be published: text in UTF-8 that is not blank, of at most 65536 bytes. */
  lemma PublishableIs(content: Text)
    ensures PublishableText(content) <==>
              TrimRight(TrimLeft(content)) != [] && IsUtf8(content) && |Utf8.Encode(content)| <= 65536
  {
    BlankIffTrimmed(content);
    Utf8.LengthOfEncode(content);
  }

  /** A relay is named by 1 to 128 bytes, not blank and without separators. */
  lemma RelayIDIs(relay: string)
    ensures ValidRelayID(relay) <==>
              && TrimRight(TrimLeft(Of(relay))) != [] && |Utf8.Encode(Of(relay))| <= 128
              && forall c :: c in relay ==> c !in {'\r', '\n', '/', '\\', ':', ' '}
  {
    BlankIffTrimmed(Of(relay));
    Utf8.LengthOfEncode(Of(relay));
    assert forall i :: 0 <= i < |relay| ==> relay[i] in relay;
  }

  /** Relays are three different such names. */
  lemma RelaysAre(relays: seq<string>)
    ensures ValidRelays(relays) <==>
              && |relays| == 3
              && (forall i :: 0 <= i < |relays| ==> ValidRelayID(relays[i]))
              && forall i, j :: 0 <= i < j < |relays| ==> relays[i] != relays[j]
  {
  }

  /** What is requested: a text note under the signer's key, without tags. */
  lemma RequestedIs(content: Text, createdAt: int, signer: SignerReplies)
    requires signer.firstKey.Some?
    ensures Requested(content, createdAt, signer) == UnsignedEvent(signer.firstKey.value, createdAt, 1, Some([]),
                                                                   content)
  {
  }

  predicate Accepted(reply: RelayReply) {
    reply.Answered? && reply.accepted
  }

  /** The quorum: COMPLETE when two of the three relays accept, PARTIAL when only one does,
      and FAILED when none does. */
  lemma QuorumIs(relays: seq<string>, replies: seq<RelayReply>)
    requires |relays| == 3 && |replies| == 3
    ensures var state := JudgedBy(Acceptances(ResultsTo(relays, replies, 3)));
            var first, second, third := Accepted(replies[0]), Accepted(replies[1]), Accepted(replies[2]);
            && (state == Complete <==> (first && second) || (first && third) || (second && third))
            && (state == Failed <==> !first && !second && !third)
            && state in {Complete, Partial, Failed}
  {
    AcceptancesTo(relays, replies, 3);
    assert AcceptedAmong(replies, 1) == if Accepted(replies[0]) then 1 else 0;
    assert AcceptedAmong(replies, 2) == AcceptedAmong(replies, 1) + if Accepted(replies[1]) then 1 else 0;
  }

  function AcceptedAmong(replies: seq<RelayReply>, n: nat): nat
    requires n <= |replies|
  {
    if n == 0 then 0 else AcceptedAmong(replies, n - 1) + if Accepted(replies[n - 1]) then 1 else 0
  }

  lemma {:induction false} AcceptancesTo(relays: seq<string>, replies: seq<RelayReply>, n: nat)
    requires n <= |relays| && n <= |replies|
    ensures Acceptances(ResultsTo(relays, replies, n)) == AcceptedAmong(replies, n)
  {
    if n > 0 {
      AcceptancesTo(relays, replies, n - 1);
      AcceptancesOfOneMore(ResultsTo(relays, replies, n - 1), ResultOf(relays[n - 1], replies[n - 1]));
    }
  }

  /** The codes in a receipt come from a closed set, whatever the relays wrote, and an
      "ok" is an acceptance. */
  lemma RelayCodesAreClosed(relay: string, reply: RelayReply)
    ensures ResultOf(relay, reply).code in REJECTIONS + {"ok", "transport_error"}
    ensures reply.Unreachable? ==> ResultOf(relay, reply).code == "transport_error"
    ensures reply.Answered? && !reply.accepted ==>
              ResultOf(relay, reply).code ==
              if reply.code in {"rejected", "auth_required", "duplicate", "timeout", "protocol_error"} then reply.code
              else "rejected"
    ensures ResultOf(relay, reply).endpointID == relay
    ensures ResultOf(relay, reply).code == "ok" <==> reply.Answered? && reply.accepted
    ensures ResultOf(relay, reply).code == "ok" <==> ResultOf(relay, reply).accepted
  {
    assert "ok" !in REJECTIONS && "ok" != "transport_error" && "ok" != "rejected" by {
      assert |"ok"| == 2;
    }
  }

  /** When event IDs do not collide, a receipt's ID names exactly one content. */
  lemma IdentifierNamesContent(digest: string -> string, a: UnsignedEvent, b: UnsignedEvent)
    requires forall s, t :: digest(s) == digest(t) ==> s == t
    requires ValidEvent(a) && ValidEvent(b)
    ensures digest(CanonicalSerialize(a).value) == digest(CanonicalSerialize(b).value) ==> a == b
  {
    if digest(CanonicalSerialize(a).value) == digest(CanonicalSerialize(b).value) {
      SerializationIsInjective(a, b);
    }
  }
}
