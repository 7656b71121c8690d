/** The service operations, each a short sequence of store calls. */
module Service {
  import opened Wrappers
  import opened Domain
  import opened EgressTypes
  import opened Sealing
  import opened StoreContexts
  import opened AuditLog
  import opened JobStore
  import opened Approval
  import Text
  import Utf8

  /** When an operation writes its audit event, the entropy to seal it with, and whether the
      database takes it. */
  datatype Audited = Audited(at: Instant, entropy: Option<Entropy>, inserted: bool)

  function DestinationDetail(x: bool, nostr: bool): string {
    if x && nostr then "destinations=x,nostr" else if x then "destination=x" else "destination=nostr"
  }

  function StopKind(stopped: bool): string {
    if stopped then "system.emergency_stop.enabled" else "system.emergency_stop.disabled"
  }

  class Service {
    const store: SQLite
    const sealer: Envelope
    const env: Env

    ghost predicate Valid() {
      store.sealer.Valid() && sealer.Valid() && env.aead == sealer.aead && env.master == sealer.master
    }

    constructor (store: SQLite, sealer: Envelope, digest: string -> string, format: Instant -> string)
      requires store.sealer.Valid() && sealer.Valid()
      ensures Valid() && this.store == store && this.sealer == sealer
      ensures env.digest == digest && env.format == format
    {
      this.store, this.sealer := store, sealer;
      env := Env(sealer.aead, sealer.master, digest, format);
    }

    ghost predicate Fits(audited: Audited) {
      audited.entropy.Some? ==> audited.entropy.value.Fits(store.sealer.aead)
    }

    /** The row that an operation logs, if it can be sealed and stored. */
    ghost function LogRow(jobID: string, kind: string, detail: string, audited: Audited): Option<AuditRow> {
      var row := RowOf(store.sealer.aead, store.sealer.master, store.auditCodec,
                       AuditEvent(jobID, kind, detail, audited.at), audited.entropy);
      if audited.inserted then row else None
    }

    /** The log after an operation that had something to record. */
    ghost function Logged(log: seq<AuditRow>, row: Option<AuditRow>): seq<AuditRow> {
      if row.Some? then log + [row.value] else log
    }

    ghost function CreatedRow(id: string, x: bool, nostr: bool, audited: Audited): Option<AuditRow> {
      var to := if x && nostr then "destinations=x,nostr" else if nostr then "destination=nostr" else "destination=x";
      LogRow(id, "draft.created", to, audited)
    }

    ghost function ApprovalRow(id: string, audited: Audited): Option<AuditRow> {
      LogRow(id, "job.approved", "exact preview hash verified", audited)
    }

    ghost function CancelRow(id: string, audited: Audited): Option<AuditRow> {
      LogRow(id, "job.cancelled", "operator cancelled before completion", audited)
    }

    ghost function StopRow(stopped: bool, why: string, audited: Audited): Option<AuditRow> {
      LogRow("", if stopped then "system.emergency_stop.enabled" else "system.emergency_stop.disabled", why, audited)
    }

    ghost function ReconcileRow(id: string, audited: Audited): Option<AuditRow> {
      LogRow(id, "job.reconcile.requested", "manual reconciliation queued; no automatic resend", audited)
    }

    /** `id` and `entropy` are what the random source gives, if anything. */
    method CreateDraft(content: Text.Text, postToX: bool, postToNostr: bool, scheduledAt: Option<Instant>,
                       id: Option<string>, entropy: Option<Entropy>, now: Instant, audited: Audited)
      returns (r: Result<PostJob, ServiceError>)
      requires Valid() && Fits(audited) && (entropy.Some? ==> entropy.value.Fits(env.aead))
      modifies store`jobs, store`audit
      ensures r.Ok? <==> && NormalizeContent(content).Ok? && (postToX || postToNostr)
                         && id.Some? && entropy.Some? && id.value !in old(store.jobs)
      ensures r.Err? ==> store.jobs == old(store.jobs) && store.audit == old(store.audit)
      ensures r.Ok? ==>
                && store.audit == Logged(old(store.audit), CreatedRow(id.value, postToX, postToNostr, audited))
                && store.jobs == old(store.jobs)[id.value := ToRow(r.value)]
                && r.value.state == Draft && r.value.payloadHash == "" && r.value.approvedAt.None?
                && r.value.scheduledAt == scheduledAt && r.value.createdAt == now == r.value.updatedAt
                && !r.value.contentDestroyed && r.value.lastNostrCountry == ""
                && r.value == DraftJob(env, id.value, NormalizeContent(content).value, postToX, postToNostr,
                                       scheduledAt, entropy.value, now)
                && Holds(env, id.value, ToRow(r.value),
                         Origin(NormalizeContent(content).value, postToX, postToNostr, NullTime(scheduledAt)))
    {
      var normalized := NormalizeContent(content);
      if normalized.Err? {
        return Err(Rejected);
      }
      if !postToX && !postToNostr {
        return Err(Rejected);
      }
      if id.None? {
        return Err(Rejected);
      }
      var sealed := sealer.Seal(Utf8.Encode(normalized.value), IdBytes(id.value), entropy);
      if sealed.None? {
        return Err(Rejected);
      }
      var job := PostJob(id.value, sealed.value, "", postToX, postToNostr, Draft, None, scheduledAt, now, now, "",
                         false);
      var created := store.CreateJob(job);
      if created.Err? {
        return Err(Rejected);
      }
      DraftHoldsOrigin(env, id.value, normalized.value, postToX, postToNostr, scheduledAt, entropy.value, now);
      var ignored := Log(id.value, "draft.created", DestinationDetail(postToX, postToNostr), audited);
      return Ok(job);
    }

    method Preview(id: string) returns (r: Result<(PostJob, Shown), ServiceError>)
      requires Valid()
      ensures r == if id !in store.jobs then Err(Missing)
                   else if PreviewOf(env, ToJob(id, store.jobs[id])).None? then Err(NoPreview)
                   else Ok((ToJob(id, store.jobs[id]), PreviewOf(env, ToJob(id, store.jobs[id])).value))
    {
      var got := store.GetJob(id);
      if got.Err? {
        return Err(Missing);
      }
      var job := got.value;
      if job.contentDestroyed || |job.encryptedContent| == 0 {
        return Err(NoPreview);
      }
      var plaintext := sealer.Open(job.encryptedContent, IdBytes(id));
      if plaintext.None? {
        return Err(NoPreview);
      }
      var content := Utf8.Decode(plaintext.value);
      var hash := ApprovalHash(env, content, job.postToX, job.postToNostr, job.scheduledAt);
      if hash.None? {
        return Err(NoPreview);
      }
      return Ok((job, Shown(content, hash.value)));
    }

    /** Undisturbed, an approval of the exact hash makes the draft approved under it, and
        anything else changes nothing. The change stands even if it cannot be logged: then
        the operation fails although the job is approved. */
    method Approve(id: string, expectedHash: string, now: Instant, audited: Audited)
      returns (r: Result<(), ServiceError>)
      requires Valid() && Fits(audited)
      modifies store`jobs, store`audit
      ensures r == match ApprovalRefused(env, old(store.jobs), store.emergencyStop, id, expectedHash)
                   case Some(e) => Err(e)
                   case None => if ApprovalRow(id, audited).Some? then Ok(()) else Err(Unaudited)
      ensures store.jobs ==
                if r.Ok? || r == Err(Unaudited)
                then old(store.jobs)[id := ApprovedRow(old(store.jobs)[id], expectedHash, Millis(now))]
                else old(store.jobs)
      ensures store.audit == if r.Ok? then Logged(old(store.audit), ApprovalRow(id, audited)) else old(store.audit)
    {
      var stopped, why, at := store.SystemState();
      if stopped {
        return Err(Stopped);
      }
      var preview := Preview(id);
      if preview.Err? {
        return Err(preview.error);
      }
      var (job, shown) := preview.value;
      if job.state != Draft {
        return Err(WrongState);
      }
      if expectedHash == "" || expectedHash != shown.hash {
        return Err(HashMismatch);
      }
      var approved := store.ApproveJob(id, shown.hash, now);
      assert approved.Ok?;
      r := Log(id, "job.approved", "exact preview hash verified", audited);
    }

    method Log(jobID: string, kind: string, detail: string, audited: Audited) returns (r: Result<(), ServiceError>)
      requires Valid() && Fits(audited)
      modifies store`audit
      ensures r == if LogRow(jobID, kind, detail, audited).Some? then Ok(()) else Err(Unaudited)
      ensures store.audit == Logged(old(store.audit), LogRow(jobID, kind, detail, audited))
    {
      var event := AuditEvent(jobID, kind, detail, audited.at);
      var added := store.AddAudit(event, audited.entropy, audited.inserted);
      return if added.Err? then Err(Unaudited) else Ok(());
    }

    method PayloadForDispatch(id: string, now: Instant) returns (r: Result<(PostJob, Text.Text), ServiceError>)
      requires Valid()
      ensures r.Ok? <==>
                !store.emergencyStop && id in store.jobs && Dispatchable(env, ToJob(id, store.jobs[id]), now).Ok?
      ensures r == if store.emergencyStop then Err(Stopped)
                   else if id !in store.jobs then Err(Missing)
                   else match Dispatchable(env, ToJob(id, store.jobs[id]), now)
                        case Err(e) => Err(e)
                        case Ok(content) => Ok((ToJob(id, store.jobs[id]), content))
    {
      var stopped, why, at := store.SystemState();
      if stopped {
        return Err(Stopped);
      }
      var preview := Preview(id);
      if preview.Err? {
        return Err(preview.error);
      }
      var (job, shown) := preview.value;
      if job.state != Approved {
        return Err(WrongState);
      }
      if job.scheduledAt.Some? && job.scheduledAt.value > now {
        return Err(NotYet);
      }
      if job.payloadHash != shown.hash {
        return Err(HashMismatch);
      }
      return Ok((job, shown.content));
    }

    method Cancel(id: string, now: Instant, audited: Audited) returns (r: Result<(), ServiceError>)
      requires Valid() && Fits(audited)
      modifies store`jobs, store`audit
      ensures r.Ok? || r == Err(Unaudited) <==>
                id in old(store.jobs) && old(store.jobs)[id].state in {Draft, Approved, Routing, Failed}
      ensures r.Err? ==> r.error in {Missing, WrongState, Unaudited}
      ensures r == Err(Missing) <==> id !in old(store.jobs)
      ensures r == Err(Unaudited) ==> CancelRow(id, audited).None?
      ensures r.Ok? ==> CancelRow(id, audited).Some?
      ensures store.jobs ==
                if r.Ok? || r == Err(Unaudited)
                then old(store.jobs)[id := old(store.jobs)[id].(state := Cancelled, updatedAt := Millis(now))]
                else old(store.jobs)
      ensures store.audit == if r.Ok? then Logged(old(store.audit), CancelRow(id, audited)) else old(store.audit)
    {
      var got := store.GetJob(id);
      if got.Err? {
        return Err(Missing);
      }
      var moved := store.TransitionJob(id, got.value.state, Cancelled, now);
      if moved.Err? {
        return Err(WrongState);
      }
      r := Log(id, "job.cancelled", "operator cancelled before completion", audited);
    }

    /** A request to reconcile only goes on record: nothing is sent or moved. */
    method Reconcile(id: string, audited: Audited) returns (r: Result<(), ServiceError>)
      requires Valid() && Fits(audited)
      modifies store`audit
      ensures r.Ok? || r == Err(Unaudited) <==>
                id in store.jobs && (store.jobs[id].state == Unknown || store.jobs[id].state == Partial)
      ensures r.Err? ==> r.error in {Missing, WrongState, Unaudited}
      ensures r == Err(Missing) <==> id !in store.jobs
      ensures r == Err(Unaudited) ==> ReconcileRow(id, audited).None?
      ensures r.Ok? ==> ReconcileRow(id, audited).Some?
      ensures store.audit == if r.Ok? then Logged(old(store.audit), ReconcileRow(id, audited)) else old(store.audit)
    {
      var got := store.GetJob(id);
      if got.Err? {
        return Err(Missing);
      }
      if got.value.state != Unknown && got.value.state != Partial {
        return Err(WrongState);
      }
      r := Log(id, "job.reconcile.requested", "manual reconciliation queued; no automatic resend", audited);
    }

    /** The stop is set even if that cannot be logged. */
    method EmergencyStop(stopped: bool, reason: string, now: Instant, audited: Audited)
      returns (r: Result<(), ServiceError>)
      requires Valid() && Fits(audited)
      modifies store`emergencyStop, store`reason, store`stopUpdatedAt, store`audit
      ensures store.emergencyStop == stopped && store.stopUpdatedAt == Millis(now)
      ensures store.reason != "" <==> stopped
      ensures stopped && reason != "" ==> store.reason == reason
      ensures stopped && reason == "" ==> store.reason == "operator activated emergency stop"
      ensures r == if StopRow(stopped, store.reason, audited).Some? then Ok(()) else Err(Unaudited)
      ensures store.audit == Logged(old(store.audit), StopRow(stopped, store.reason, audited))
    {
      var why := reason;
      if stopped && reason == "" {
        why := "operator activated emergency stop";
      }
      if !stopped {
        why := "";
      }
      store.SetEmergencyStop(stopped, why, now);
      r := Log("", StopKind(stopped), why, audited);
    }
  }
}
