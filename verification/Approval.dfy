/** What a stored job shows at preview, the hash that approves it, and what a draft
    is stored as. */
module Approval {
  import opened Wrappers
  import opened Domain
  import opened EgressTypes
  import opened Sealing
  import opened StoreContexts
  import opened JobStore
  import JsonText
  import Text
  import Utf8

  /** The cipher with its master key, the hash, and the formatting of times. */
  datatype Env = Env(aead: AEAD, master: Bytes, digest: string -> string, format: Instant -> string)

  ghost predicate Works(env: Env) {
    Correct(env.aead) && |env.master| == KEY_SIZE
  }

  function IdBytes(id: string): Bytes {
    Utf8.Encode(Text.Of(id))
  }

  function ScheduleText(env: Env, scheduledAt: Option<Instant>): Text.Text {
    match scheduledAt case None => [] case Some(t) => Text.Of(env.format(t))
  }

  function ApprovalHash(env: Env, content: Text.Text, x: bool, nostr: bool,
                        scheduledAt: Option<Instant>): Option<string> {
    match ApprovalEncoding(content, x, nostr, ScheduleText(env, scheduledAt))
    case Err(_) => None
    case Ok(encoded) => Some(env.digest(encoded))
  }

  datatype Shown = Shown(content: Text.Text, hash: string)

  /** The preview of a job, or nothing if its content is gone or does not open. */
  function PreviewOf(env: Env, job: PostJob): Option<Shown> {
    if job.contentDestroyed || job.encryptedContent == [] then None
    else
      match Opened(env.aead, env.master, job.encryptedContent, IdBytes(job.id))
      case None => None
      case Some(plaintext) =>
        var content := Utf8.Decode(plaintext);
        match ApprovalHash(env, content, job.postToX, job.postToNostr, job.scheduledAt)
        case None => None
        case Some(hash) => Some(Shown(content, hash))
  }

  /** What a job was created from. */
  datatype Origin = Origin(content: Text.Text, postToX: bool, postToNostr: bool, scheduledAt: Option<int>)

  ghost predicate ValidOrigin(o: Origin) {
    (o.postToX || o.postToNostr) && NormalizeContent(o.content) == Ok(o.content)
  }

  /** The hash that approving a job of this origin must quote. */
  function OriginHash(env: Env, o: Origin): Option<string> {
    ApprovalHash(env, o.content, o.postToX, o.postToNostr, TimePtr(o.scheduledAt))
  }

  /** The row holds the origin: its destinations, its schedule, and content that opens
      to its text or is gone. */
  ghost predicate Holds(env: Env, id: string, r: Row, o: Origin) {
    && r.postToX == o.postToX && r.postToNostr == o.postToNostr && r.scheduledAt == o.scheduledAt
    && if r.contentDestroyed then r.encryptedContent == [] else OpensTo(env, id, r.encryptedContent, o.content)
  }

  ghost predicate OpensTo(env: Env, id: string, sealed: Bytes, content: Text.Text) {
    sealed != [] && Opened(env.aead, env.master, sealed, IdBytes(id)) == Some(Utf8.Encode(content))
  }

  function DraftJob(env: Env, id: string, content: Text.Text, x: bool, nostr: bool, scheduledAt: Option<Instant>,
                    entropy: Entropy, now: Instant): PostJob
  {
    PostJob(id, Sealed(env.aead, env.master, Utf8.Encode(content), IdBytes(id), entropy), "", x, nostr, Draft, None,
            scheduledAt,
            now, now, "", false)
  }

  /** The hash covers these bytes, for content and schedule that JSON writes as they are. */
  lemma HashOfPlain(env: Env, content: string, x: bool, nostr: bool, scheduledAt: Option<Instant>)
    requires forall i :: 0 <= i < |content| ==> JsonText.Plain(true, content[i])
    requires scheduledAt.Some? ==>
               forall i :: 0 <= i < |env.format(scheduledAt.value)| ==>
                   JsonText.Plain(true, env.format(scheduledAt.value)[i])
    requires (x || nostr) && !Text.Blank(Text.Of(content))
    ensures ApprovalHash(env, Text.Of(content), x, nostr, scheduledAt) == Some(env.digest(
              "{\"version\":1,\"content\":\"" + content + "\",\"post_to_x\":" + (if x then "true" else "false")
              + ",\"post_to_nostr\":" + (if nostr then "true" else "false")
              + ",\"scheduled_at\":\"" + (if scheduledAt.None? then "" else env.format(scheduledAt.value)) + "\"}"))
  {
    var schedule := if scheduledAt.None? then "" else env.format(scheduledAt.value);
    assert ScheduleText(env, scheduledAt) == Text.Of(schedule);
    EncodingOfPlain(content, x, nostr, schedule);
  }

  /** Sealed content opens for the job it was sealed for and for no other. */
  lemma ContentOpensForItsJob(env: Env, id: string, id': string, content: Text.Text, entropy: Entropy)
    requires Works(env) && Bound(env.aead) && entropy.Fits(env.aead)
    ensures var sealed := Sealed(env.aead, env.master, Utf8.Encode(content), IdBytes(id), entropy);
            Opened(env.aead, env.master, sealed, IdBytes(id')).Some? <==> id' == id
  {
    OpensInContext(env.aead, env.master, Utf8.Encode(content), IdBytes(id), IdBytes(id'), entropy);
    if IdBytes(id) == IdBytes(id') {
      Utf8.DecodeOfEncode(Text.Of(id));
      Utf8.DecodeOfEncode(Text.Of(id'));
      Text.OfInjective(id, id');
    }
  }

  lemma DraftHoldsOrigin(env: Env, id: string, content: Text.Text, x: bool, nostr: bool, scheduledAt: Option<Instant>,
                         entropy: Entropy, now: Instant)
    requires Works(env) && entropy.Fits(env.aead)
    ensures Holds(env, id, ToRow(DraftJob(env, id, content, x, nostr, scheduledAt, entropy, now)),
                  Origin(content, x, nostr, NullTime(scheduledAt)))
  {
    OpenInvertsSeal(env.aead, env.master, Utf8.Encode(content), IdBytes(id), entropy);
  }

  /** A job that still has its content shows exactly what it was created from. */
  lemma PreviewShowsOrigin(env: Env, id: string, r: Row, o: Origin)
    requires ValidOrigin(o) && Holds(env, id, r, o)
    ensures PreviewOf(env, ToJob(id, r)).Some? <==> !r.contentDestroyed
    ensures !r.contentDestroyed ==> PreviewOf(env, ToJob(id, r)) == Some(Shown(o.content, OriginHash(env, o).value))
    ensures OriginHash(env, o).Some?
  {
    AcceptedContentIsUtf8(o.content);
    Utf8.DecodeOfEncode(o.content);
  }

  /** When hashes do not collide and formatted times are distinct, the hash names one
      content, one set of destinations and one schedule. */
  lemma HashNamesOrigin(env: Env, a: Origin, b: Origin)
    requires ValidOrigin(a) && ValidOrigin(b) && OriginHash(env, a) == OriginHash(env, b)
    requires forall s, t :: env.digest(s) == env.digest(t) ==> s == t
    requires forall s, t :: env.format(s) != [] && (env.format(s) == env.format(t) ==> s == t)
    ensures a.content == b.content && a.postToX == b.postToX && a.postToNostr == b.postToNostr
    ensures TimePtr(a.scheduledAt) == TimePtr(b.scheduledAt)
  {
    ApprovalEncodingInjectiveOnTimes(
      a.content, a.postToX, a.postToNostr, ScheduleText(env, TimePtr(a.scheduledAt)),
      b.content, b.postToX, b.postToNostr, ScheduleText(env, TimePtr(b.scheduledAt)));
    if a.scheduledAt.Some? && b.scheduledAt.Some? {
      Text.OfInjective(env.format(TimePtr(a.scheduledAt).value), env.format(TimePtr(b.scheduledAt).value));
    }
  }

  datatype ServiceError = Stopped | Missing | NoPreview | WrongState | HashMismatch | NotYet | Rejected | Unaudited

  /** Whether an approval goes through when nothing else runs in between. */
  function ApprovalRefused(env: Env, jobs: Jobs, stopped: bool, id: string,
                           expectedHash: string): Option<ServiceError> {
    if stopped then Some(Stopped)
    else if id !in jobs then Some(Missing)
    else
      match PreviewOf(env, ToJob(id, jobs[id]))
      case None => Some(NoPreview)
      case Some(shown) =>
        if jobs[id].state != Draft then Some(WrongState)
        else if expectedHash == "" || expectedHash != shown.hash then Some(HashMismatch)
        else None
  }

  /** Whether a job read at one moment may be dispatched, and with what content. */
  function Dispatchable(env: Env, job: PostJob, now: Instant): Result<Text.Text, ServiceError> {
    match PreviewOf(env, job)
    case None => Err(NoPreview)
    case Some(shown) =>
      if job.state != Approved then Err(WrongState)
      else if job.scheduledAt.Some? && job.scheduledAt.value > now then Err(NotYet)
      else if job.payloadHash != shown.hash then Err(HashMismatch)
      else Ok(shown.content)
  }

  /** An approval goes through exactly if the stop is off, the job is a draft that still has
      its content, and the hash quoted is the non-empty one of what it was created from. */
  lemma ApprovableIff(env: Env, jobs: Jobs, stopped: bool, id: string, o: Origin, expectedHash: string)
    requires id in jobs && ValidOrigin(o) && Holds(env, id, jobs[id], o)
    ensures ApprovalRefused(env, jobs, stopped, id, expectedHash).None? <==>
              && !stopped && jobs[id].state == Draft && !jobs[id].contentDestroyed
              && expectedHash != "" && OriginHash(env, o) == Some(expectedHash)
    ensures var refused := ApprovalRefused(env, jobs, stopped, id, expectedHash);
            && (refused == Some(Stopped) <==> stopped)
            && (refused == Some(NoPreview) <==> !stopped && jobs[id].contentDestroyed)
            && (refused == Some(WrongState) <==> !stopped && !jobs[id].contentDestroyed && jobs[id].state != Draft)
  {
    PreviewShowsOrigin(env, id, jobs[id], o);
  }

  lemma UnknownIsNotApproved(env: Env, jobs: Jobs, stopped: bool, id: string, expectedHash: string)
    requires id !in jobs
    ensures ApprovalRefused(env, jobs, stopped, id, expectedHash) == Some(if stopped then Stopped else Missing)
  {
  }

  /** A job is handed out exactly if it is approved, still has its content, is due, and carries
      the hash of what it was created from; and then it is handed out with that content. */
  lemma DispatchableIff(env: Env, id: string, r: Row, o: Origin, now: Instant)
    requires ValidOrigin(o) && Holds(env, id, r, o)
    ensures Dispatchable(env, ToJob(id, r), now).Ok? <==>
              && r.state == Approved && !r.contentDestroyed
              && (o.scheduledAt.Some? ==> FromMillis(o.scheduledAt.value) <= now)
              && OriginHash(env, o) == Some(r.payloadHash)
    ensures var read := Dispatchable(env, ToJob(id, r), now);
            && (read.Ok? ==> read == Ok(o.content))
            && (read == Err(NoPreview) <==> r.contentDestroyed)
            && (read == Err(WrongState) <==> !r.contentDestroyed && r.state != Approved)
            && (read == Err(NotYet) <==>
                  && !r.contentDestroyed && r.state == Approved
                  && o.scheduledAt.Some? && FromMillis(o.scheduledAt.value) > now)
  {
    PreviewShowsOrigin(env, id, r, o);
  }
}
