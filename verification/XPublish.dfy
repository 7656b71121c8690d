/** Publication to X: one request, and one more after a 401 and a token refresh. */
module XPublish {
  import opened Wrappers
  import opened Text
  import opened JsonText
  import opened Platform
  import XLength

  /** What reading a response body gives: the post ID, if the JSON decodes to one. */
  datatype Body = Unreadable | TooLarge | Decoded(id: Option<Text>)

  /** What the transport and the remote service may answer. */
  datatype Reply = TransportFailure | Response(status: int, body: Body)

  /** What the token source may answer when asked to refresh. */
  datatype Refresh = Unsupported | Refreshed(token: Option<Text>)

  datatype Request = Request(token: Text, body: string)

  const KEY_TEXT := "{\"text\":"

  function RequestBody(content: Text): string {
    KEY_TEXT + (Quote(true, content) + "}")
  }

  function ReadRequestBody(s: string): Option<Text> {
    match ReadTextAfter(KEY_TEXT, s)
    case None => None
    case Some((t, rest)) => if rest == "}" then Some(t) else None
  }

  /** The remote service can read exactly the approved content from the request. */
  lemma RequestCarriesContent(content: Text)
    requires XLength.ValidText(content)
    ensures ReadRequestBody(RequestBody(content)) == Some(content)
  {
    ReadTextAfterKey(KEY_TEXT, content, "}");
  }

  predicate Usable(token: Option<Text>) {
    token.Some? && !Blank(token.value) && Scalar('\r') !in token.value && Scalar('\n') !in token.value
  }

  predicate Succeeded(reply: Reply) {
    reply.Response? && reply.status == 201 && reply.body.Decoded? && reply.body.id.Some? && !Blank(reply.body.id.value)
  }

  /** The post may or may not exist after such a reply. */
  predicate IsAmbiguous(reply: Reply) {
    || reply.TransportFailure?
    || reply.body.Unreadable? || reply.body.TooLarge?
    || (reply.status == 201 && !Succeeded(reply))
  }

  predicate HasStatus(reply: Reply, status: int) {
    reply.Response? && reply.status == status
  }

  function ClassifyXStatus(status: int): PlatformError {
    PlatformError(
      if status == 400 || status == 404 || status == 422 then RemoteRejected
      else if status == 401 then Unauthorized
      else if status == 402 || status == 403 then Forbidden
      else if status == 429 then RateLimited
      else if 500 <= status <= 599 then Temporary
      else Protocol,
      status, false)
  }

  /** Every reply is exactly one of: a success, which is 201 with a usable ID; a definite
      refusal, which is any other status with a readable body; or ambiguous. */
  lemma RepliesAre(reply: Reply)
    ensures Succeeded(reply) <==>
              && reply.Response? && reply.status == 201
              && reply.body.Decoded? && reply.body.id.Some? && TrimRight(TrimLeft(reply.body.id.value)) != []
    ensures !Succeeded(reply) && !IsAmbiguous(reply) <==>
              reply.Response? && reply.status != 201 && reply.body.Decoded?
    ensures !(Succeeded(reply) && IsAmbiguous(reply))
  {
    if reply.Response? && reply.body.Decoded? && reply.body.id.Some? {
      BlankIffTrimmed(reply.body.id.value);
    }
  }

  /** What each definite refusal is called. */
  lemma RefusalsAre(status: int)
    ensures var e := ClassifyXStatus(status);
            && e.httpStatus == status && !e.ambiguous
            && (e.code == RemoteRejected <==> status in {400, 404, 422})
            && (e.code == Unauthorized <==> status == 401)
            && (e.code == Forbidden <==> status in {402, 403})
            && (e.code == RateLimited <==> status == 429)
            && (e.code == Temporary <==> 500 <= status <= 599)
            && e.code in {RemoteRejected, Unauthorized, Forbidden, RateLimited, Temporary, Protocol}
  {
  }

  lemma TokensAre(token: Option<Text>)
    ensures Usable(token) <==>
              && token.Some? && TrimRight(TrimLeft(token.value)) != []
              && forall i :: 0 <= i < |token.value| ==> token.value[i] !in {Scalar('\r'), Scalar('\n')}
  {
    if token.Some? {
      BlankIffTrimmed(token.value);
    }
  }

  /** The body for content that JSON writes as it is. */
  lemma BodyOfPlain(content: string)
    requires forall i :: 0 <= i < |content| ==> Plain(true, content[i])
    ensures RequestBody(Of(content)) == "{\"text\":\"" + content + "\"}"
  {
    PlainIsUnchanged(true, content);
    assert KEY_TEXT + "\"" == "{\"text\":\"" && "\"" + "}" == "\"}";
    assert KEY_TEXT + (("\"" + content + "\"") + "}") == (KEY_TEXT + "\"") + content + ("\"" + "}");
  }

  class Receipt {
    var state: PublicationState
    var externalID: Text
    var attemptCount: nat

    constructor ()
      ensures state == Failed && externalID == [] && attemptCount == 0
    {
      state, externalID, attemptCount := Failed, [], 0;
    }
  }

  class XConnector {
    /** Every request handed to the transport so far. */
    var sent: seq<Request>

    constructor ()
      ensures sent == []
    {
      sent := [];
    }

    method PublishOnce(content: Text, token: Text, receipt: Receipt, reply: Reply) returns (err: Option<PlatformError>)
      modifies this, receipt
      ensures sent == old(sent) + [Request(token, RequestBody(content))]
      ensures receipt.attemptCount == old(receipt.attemptCount) + 1
      ensures receipt.state == if Succeeded(reply) then Complete
                               else if IsAmbiguous(reply) then Unknown
                               else old(receipt.state)
      ensures receipt.externalID == if Succeeded(reply) then reply.body.id.value else old(receipt.externalID)
      ensures err.None? <==> Succeeded(reply)
      ensures err.Some? ==> err.value.ambiguous == IsAmbiguous(reply)
      ensures err.Some? ==> (err.value.httpStatus == 401 <==> HasStatus(reply, 401))
      ensures !Succeeded(reply) && !IsAmbiguous(reply) ==> err == Some(ClassifyXStatus(reply.status))
      ensures reply.TransportFailure? ==> err == Some(PlatformError(Ambiguous, 0, true))
      ensures reply.Response? && reply.body.Unreadable? ==> err == Some(PlatformError(Ambiguous, reply.status, true))
      ensures reply.Response? && reply.body.TooLarge? ==>
                err == Some(PlatformError(ResponseTooLarge, reply.status, true))
      ensures reply.Response? && reply.body.Decoded? && reply.status == 201 && !Succeeded(reply) ==>
                err == Some(PlatformError(Protocol, 201, true))
    {
      var body := RequestBody(content);
      receipt.attemptCount := receipt.attemptCount + 1;
      sent := sent + [Request(token, body)];
      if reply.TransportFailure? {
        receipt.state := Unknown;
        return Some(PlatformError(Ambiguous, 0, true));
      }
      if reply.body.Unreadable? {
        receipt.state := Unknown;
        return Some(PlatformError(Ambiguous, reply.status, true));
      }
      if reply.body.TooLarge? {
        receipt.state := Unknown;
        return Some(PlatformError(ResponseTooLarge, reply.status, true));
      }
      if reply.status != 201 {
        return Some(ClassifyXStatus(reply.status));
      }
      if reply.body.id.None? || Blank(reply.body.id.value) {
        receipt.state := Unknown;
        return Some(PlatformError(Protocol, reply.status, true));
      }
      receipt.state := Complete;
      receipt.externalID := reply.body.id.value;
      return None;
    }

    /** `first` and `second` are the replies the two possible requests would get. */
    method Publish(content: Text, bearer: Option<Text>, refresh: Refresh, first: Reply, second: Reply)
      returns (receipt: Receipt, err: Option<PlatformError>)
      modifies this
      ensures fresh(receipt)
      // At most two transmissions, counted, and of one and the same body.
      ensures old(sent) <= sent && |sent| == |old(sent)| + receipt.attemptCount
      ensures forall i :: |old(sent)| <= i < |sent| ==> sent[i].body == RequestBody(content)
      // None without valid text and a usable token; a second exactly after a first
      // reply with status 401 and a usable refreshed token.
      ensures receipt.attemptCount ==
                if !XLength.ValidText(content) || !Usable(bearer) then 0
                else if HasStatus(first, 401) && refresh.Refreshed? && Usable(refresh.token) then 2
                else 1
      ensures receipt.attemptCount >= 1 ==> sent[|old(sent)|].token == bearer.value
      ensures receipt.attemptCount == 2 ==> sent[|old(sent)| + 1].token == refresh.token.value
      // Success, with a usable ID, exactly when no error is returned.
      ensures err.None? <==> receipt.state == Complete
      ensures err.None? <==> !Blank(receipt.externalID)
      ensures err.None? <==> receipt.attemptCount >= 1 && Succeeded(if receipt.attemptCount == 1 then first else second)
      ensures err.None? ==> receipt.externalID == (if receipt.attemptCount == 1 then first else second).body.id.value
      // An ambiguous error leaves UNKNOWN, and UNKNOWN means that some attempt was ambiguous.
      ensures err.Some? && err.value.ambiguous ==> receipt.state == Unknown
      ensures receipt.state == Unknown <==>
                && err.Some?
                && ((receipt.attemptCount >= 1 && IsAmbiguous(first))
                    || (receipt.attemptCount == 2 && IsAmbiguous(second)))
      ensures receipt.state != Partial
      ensures !XLength.ValidText(content) ==> err == Some(PlatformError(InvalidPayload, 0, false))
      ensures XLength.ValidText(content) && !Usable(bearer) ==> err == Some(PlatformError(Unauthorized, 0, false))
      ensures err.Some? && receipt.attemptCount == 2 && !IsAmbiguous(second) ==>
                err == Some(ClassifyXStatus(second.status))
      ensures receipt.attemptCount == 1 && !Succeeded(first) && !IsAmbiguous(first) ==>
                err == Some(ClassifyXStatus(first.status))
      ensures receipt.attemptCount == 1 && HasStatus(first, 401) && refresh.Refreshed? ==>
                err == Some(PlatformError(Unauthorized, 401, false))
    {
      receipt := new Receipt();
      var valid := XLength.ValidateXText(content);
      if !valid {
        return receipt, Some(PlatformError(InvalidPayload, 0, false));
      }
      if bearer.None? {
        return receipt, Some(PlatformError(Unauthorized, 0, false));
      }
      if Blank(bearer.value) || Scalar('\r') in bearer.value || Scalar('\n') in bearer.value {
        return receipt, Some(PlatformError(Unauthorized, 0, false));
      }
      err := PublishOnce(content, bearer.value, receipt, first);
      if err.None? || err.value.httpStatus != 401 {
        return;
      }
      if refresh.Unsupported? {
        return;
      }
      var refreshed := refresh.token;
      if refreshed.None? || Blank(refreshed.value)
         || Scalar('\r') in refreshed.value || Scalar('\n') in refreshed.value {
        return receipt, Some(PlatformError(Unauthorized, 401, false));
      }
      err := PublishOnce(content, refreshed.value, receipt, second);
    }
  }

  /** A 401 whose body could not be read, or was too large, is retried like any other; after
      a definite refusal of the second request the receipt still says UNKNOWN, and the error
      says that nothing is uncertain. */
  method RetryAfterUnreadable(connector: XConnector, content: Text, bearer: Text, fresher: Text, body: Body)
    returns (receipt: Receipt, err: Option<PlatformError>)
    requires XLength.ValidText(content) && Usable(Some(bearer)) && Usable(Some(fresher))
    requires body.Unreadable? || body.TooLarge?
    modifies connector
    ensures |connector.sent| == |old(connector.sent)| + 2
    ensures receipt.state == Unknown && err == Some(PlatformError(Forbidden, 403, false))
  {
    var refusal := Response(403, Decoded(None));
    receipt, err := connector.Publish(content, Some(bearer), Refreshed(Some(fresher)), Response(401, body), refusal);
  }
}
