/** The store: a table of jobs, whose rows are changed by single statements that name the
    state they expect to find, with receipts, the audit log and the emergency stop. */
module JobStore {
  import opened Wrappers
  import opened Domain
  import opened EgressTypes
  import opened StoreContexts
  import opened Sealing
  import opened ReceiptTable
  import opened AuditLog

  /** A job as the service handles it. */
  datatype PostJob = PostJob(
    id: string,
    encryptedContent: Bytes,
    payloadHash: string,
    postToX: bool,
    postToNostr: bool,
    state: JobState,
    approvedAt: Option<Instant>,
    scheduledAt: Option<Instant>,
    createdAt: Instant,
    updatedAt: Instant,
    lastNostrCountry: string,
    contentDestroyed: bool)

  /** A row: times are milliseconds. */
  datatype Row = Row(
    encryptedContent: Bytes,
    payloadHash: string,
    postToX: bool,
    postToNostr: bool,
    state: JobState,
    approvedAt: Option<int>,
    scheduledAt: Option<int>,
    createdAt: int,
    updatedAt: int,
    lastNostrCountry: string,
    contentDestroyed: bool)

  type Jobs = map<string, Row>

  datatype StoreError = NotFound | AlreadyExists | NotAllowed | NotSealed | NotOpened | NotWritten

  function NullTime(t: Option<Instant>): Option<int> {
    match t case None => None case Some(v) => Some(Millis(v))
  }

  function TimePtr(v: Option<int>): Option<Instant> {
    match v case None => None case Some(n) => Some(FromMillis(n))
  }

  function ToRow(j: PostJob): Row {
    Row(j.encryptedContent, j.payloadHash, j.postToX, j.postToNostr, j.state, NullTime(j.approvedAt),
        NullTime(j.scheduledAt),
        Millis(j.createdAt), Millis(j.updatedAt), j.lastNostrCountry, j.contentDestroyed)
  }

  function ToJob(id: string, r: Row): PostJob {
    PostJob(id, r.encryptedContent, r.payloadHash, r.postToX, r.postToNostr, r.state, TimePtr(r.approvedAt),
            TimePtr(r.scheduledAt),
            FromMillis(r.createdAt), FromMillis(r.updatedAt), r.lastNostrCountry, r.contentDestroyed)
  }

  function Cut(t: Option<Instant>): Option<Instant> {
    match t case None => None case Some(v) => Some(Stored(v))
  }

  /** A job comes back from the table as it went in, with its times cut to the millisecond. */
  lemma RowRoundTrip(j: PostJob)
    ensures ToJob(j.id, ToRow(j))
         == j.(approvedAt := Cut(j.approvedAt), scheduledAt := Cut(j.scheduledAt),
               createdAt := Stored(j.createdAt), updatedAt := Stored(j.updatedAt))
    ensures NullTime(None) == None && TimePtr(None) == None
  {
  }

  function ApprovedRow(r: Row, hash: string, at: int): Row {
    r.(payloadHash := hash, state := Approved, approvedAt := Some(at), updatedAt := at)
  }

  // Each statement on the table; None means that no row matched.

  function Approve(jobs: Jobs, id: string, hash: string, at: int): Option<Jobs> {
    if id in jobs && jobs[id].state == Draft && !jobs[id].contentDestroyed
    then Some(jobs[id := ApprovedRow(jobs[id], hash, at)])
    else None
  }

  function Transition(jobs: Jobs, id: string, from: JobState, to: JobState, at: int): Option<Jobs> {
    if CanTransition(from, to) && id in jobs && jobs[id].state == from
    then Some(jobs[id := jobs[id].(state := to, updatedAt := at)])
    else None
  }

  function Destroy(jobs: Jobs, id: string, at: int): Option<Jobs> {
    if id in jobs && !jobs[id].contentDestroyed
    then Some(jobs[id := jobs[id].(encryptedContent := [], contentDestroyed := true, updatedAt := at)])
    else None
  }

  function SetCountry(jobs: Jobs, id: string, country: string, at: int): Option<Jobs> {
    if id in jobs then Some(jobs[id := jobs[id].(lastNostrCountry := country, updatedAt := at)]) else None
  }

  predicate Resolved(r: Row) {
    r.state == Complete || r.state == Failed || r.state == Cancelled
  }

  function Purge(jobs: Jobs, before: int): Jobs {
    map id | id in jobs && !(jobs[id].updatedAt < before && Resolved(jobs[id])) :: jobs[id]
  }

  class SQLite {
    const sealer: Envelope
    const codec: Codec
    const auditCodec: AuditCodec
    var jobs: Jobs
    var receipts: Receipts
    var nextReceipt: int
    var audit: seq<AuditRow>
    var emergencyStop: bool
    var reason: string
    var stopUpdatedAt: int

    /** Every receipt belongs to a job. */
    ghost predicate Valid() reads this {
      sealer.Valid() && Owned(receipts, jobs.Keys)
    }

    constructor (sealer: Envelope, codec: Codec, auditCodec: AuditCodec)
      requires sealer.Valid()
      ensures Valid() && this.sealer == sealer && this.codec == codec && this.auditCodec == auditCodec
      ensures jobs == map[] && receipts == [] && audit == [] && nextReceipt == 1
      ensures !emergencyStop && reason == "" && stopUpdatedAt == 0
    {
      this.sealer, this.codec, this.auditCodec := sealer, codec, auditCodec;
      jobs, receipts, nextReceipt, audit := map[], [], 1, [];
      emergencyStop, reason, stopUpdatedAt := false, "", 0;
    }

    method CreateJob(job: PostJob) returns (r: Result<(), StoreError>)
      modifies this`jobs
      ensures r == if job.id in old(jobs) then Err(AlreadyExists) else Ok(())
      ensures jobs == if job.id in old(jobs) then old(jobs) else old(jobs)[job.id := ToRow(job)]
    {
      if job.id in jobs {
        return Err(AlreadyExists);
      }
      jobs := jobs[job.id := ToRow(job)];
      return Ok(());
    }

    method GetJob(id: string) returns (r: Result<PostJob, StoreError>)
      ensures r == if id in jobs then Ok(ToJob(id, jobs[id])) else Err(NotFound)
    {
      if id !in jobs {
        return Err(NotFound);
      }
      return Ok(ToJob(id, jobs[id]));
    }

    method ApproveJob(id: string, expectedHash: string, approvedAt: Instant) returns (r: Result<(), StoreError>)
      modifies this`jobs
      ensures r.Ok? <==> id in old(jobs) && old(jobs)[id].state == Draft && !old(jobs)[id].contentDestroyed
      ensures r.Err? ==> jobs == old(jobs) && r == Err(NotFound)
      ensures r.Ok? ==>
                var row := old(jobs)[id].(payloadHash := expectedHash, state := Approved);
                jobs == old(jobs)[id := row.(approvedAt := Some(Millis(approvedAt)), updatedAt := Millis(approvedAt))]
      ensures Approve(old(jobs), id, expectedHash, Millis(approvedAt)) == if r.Ok? then Some(jobs) else None
    {
      if id !in jobs || jobs[id].state != Draft || jobs[id].contentDestroyed {
        return Err(NotFound);
      }
      var at := Millis(approvedAt);
      var row := jobs[id].(payloadHash := expectedHash, state := Approved);
      jobs := jobs[id := row.(approvedAt := Some(at), updatedAt := at)];
      return Ok(());
    }

    method TransitionJob(id: string, from: JobState, to: JobState, at: Instant) returns (r: Result<(), StoreError>)
      modifies this`jobs
      ensures r.Ok? <==> CanTransition(from, to) && id in old(jobs) && old(jobs)[id].state == from
      ensures r == Err(NotAllowed) <==> !CanTransition(from, to)
      ensures r.Err? ==> jobs == old(jobs) && r.error in {NotAllowed, NotFound}
      ensures r.Ok? ==> jobs == old(jobs)[id := old(jobs)[id].(state := to, updatedAt := Millis(at))]
      ensures Transition(old(jobs), id, from, to, Millis(at)) == if r.Ok? then Some(jobs) else None
    {
      if !CanTransition(from, to) {
        return Err(NotAllowed);
      }
      if id !in jobs || jobs[id].state != from {
        return Err(NotFound);
      }
      jobs := jobs[id := jobs[id].(state := to, updatedAt := Millis(at))];
      return Ok(());
    }

    method DestroyJobContent(id: string, at: Instant) returns (r: Result<(), StoreError>)
      modifies this`jobs
      ensures r.Ok? <==> id in old(jobs) && !old(jobs)[id].contentDestroyed
      ensures r.Err? ==> jobs == old(jobs) && r == Err(NotFound)
      ensures r.Ok? ==>
                var row := old(jobs)[id].(encryptedContent := [], contentDestroyed := true);
                jobs == old(jobs)[id := row.(updatedAt := Millis(at))]
      ensures r.Ok? ==> jobs[id].encryptedContent == [] && jobs[id].contentDestroyed
      ensures Destroy(old(jobs), id, Millis(at)) == if r.Ok? then Some(jobs) else None
    {
      if id !in jobs || jobs[id].contentDestroyed {
        return Err(NotFound);
      }
      jobs := jobs[id := jobs[id].(encryptedContent := [], contentDestroyed := true, updatedAt := Millis(at))];
      return Ok(());
    }

    method SetLastNostrCountry(id: string, country: string, at: Instant) returns (r: Result<(), StoreError>)
      modifies this`jobs
      ensures r.Ok? <==> id in old(jobs)
      ensures r.Err? ==> jobs == old(jobs) && r == Err(NotFound)
      ensures r.Ok? ==> jobs == old(jobs)[id := old(jobs)[id].(lastNostrCountry := country, updatedAt := Millis(at))]
      ensures SetCountry(old(jobs), id, country, Millis(at)) == if r.Ok? then Some(jobs) else None
    {
      if id !in jobs {
        return Err(NotFound);
      }
      jobs := jobs[id := jobs[id].(lastNostrCountry := country, updatedAt := Millis(at))];
      return Ok(());
    }

    /** Only resolved jobs go, with their receipts; those that still need reconciliation stay. */
    method PurgeResolvedJobsBefore(before: Instant) returns (removed: nat)
      requires Valid()
      modifies this`jobs, this`receipts
      ensures Valid()
      ensures jobs == Purge(old(jobs), Millis(before))
      ensures removed == |old(jobs)| - |jobs|
      ensures forall id :: id in old(jobs) ==>
                var r := old(jobs)[id];
                if r.state in {Complete, Failed, Cancelled} && r.updatedAt < Millis(before) then id !in jobs
                else id in jobs && jobs[id] == r
      ensures forall id :: OfJob(receipts, id) == if id in jobs then OfJob(old(receipts), id) else []
    {
      var kept := Purge(jobs, Millis(before));
      SubmapSize(kept, jobs);
      removed := |jobs| - |kept|;
      forall id {
        CascadeIsExact(receipts, kept.Keys, id);
      }
      KeptAreOwned(receipts, kept.Keys);
      jobs, receipts := kept, Kept(receipts, kept.Keys);
    }

    /** A receipt of a known job is sealed under its own context; it reads back unless it was
        created in the first millisecond of 1970. */
    method AddReceipt(receipt: PlatformReceipt, entropy: Option<Entropy>) returns (r: Result<(), StoreError>)
      requires Valid() && (entropy.Some? ==> entropy.value.Fits(sealer.aead))
      modifies this`receipts, this`nextReceipt
      ensures Valid()
      ensures r.Ok? <==> codec.encode(receipt).Some? && entropy.Some? && receipt.jobID in jobs
      ensures r.Err? ==> receipts == old(receipts)
      ensures r.Err? ==> r.error == if codec.encode(receipt).None? || entropy.None? then NotSealed else NotFound
      ensures r.Ok? ==> nextReceipt == old(nextReceipt) + 1 && |receipts| == |old(receipts)| + 1
      ensures r.Ok? ==>
                var row := receipts[|old(receipts)|];
                && receipts == old(receipts) + [row]
                && row.id == old(nextReceipt)
                && row.jobID == receipt.jobID && row.createdAt == Millis(receipt.createdAt)
                && (Carries(codec, receipt) && Millis(receipt.createdAt) != 0 ==>
                      OpenedRow(sealer.aead, sealer.master, codec, row) == Some(receipt.(id := row.id)))
    {
      var encoded := codec.encode(receipt);
      if encoded.None? {
        return Err(NotSealed);
      }
      var context := Receipt(receipt.jobID, Millis(receipt.createdAt));
      var sealed := sealer.Seal(encoded.value, ContextBytes(context), entropy);
      if sealed.None? {
        return Err(NotSealed);
      }
      if receipt.jobID !in jobs {
        return Err(NotFound);
      }
      if Carries(codec, receipt) && Millis(receipt.createdAt) != 0 {
        ListedReceiptOpens(sealer.aead, sealer.master, codec, nextReceipt, receipt, entropy.value);
      }
      receipts := receipts + [ReceiptRow(nextReceipt, receipt.jobID, Millis(receipt.createdAt), sealed.value)];
      nextReceipt := nextReceipt + 1;
      return Ok(());
    }

    /** What each row reads as. */
    ghost function Reader(): Read {
      row => OpenedRow(sealer.aead, sealer.master, codec, row)
    }

    ghost predicate Answers(read: Read) {
      forall row {:trigger OpenedRow(sealer.aead, sealer.master, codec, row)} ::
        read(row) == OpenedRow(sealer.aead, sealer.master, codec, row)
    }

    method OpenRow(row: ReceiptRow, ghost read: Read) returns (r: Option<PlatformReceipt>)
      requires sealer.Valid() && Answers(read)
      ensures r == read(row)
    {
      ghost var expected := OpenedRow(sealer.aead, sealer.master, codec, row);
      var created := FromMillis(row.createdAt);
      var payload := sealer.Open(row.sealed, ContextBytes(Receipt(row.jobID, Millis(created))));
      if payload.None? {
        return None;
      }
      var receipt := codec.decode(payload.value);
      if receipt.None? {
        return None;
      }
      return Some(receipt.value.(id := row.id));
    }

    method OpenRows(rows: Receipts, ghost read: Read) returns (listed: Option<seq<PlatformReceipt>>)
      requires sealer.Valid() && Answers(read)
      ensures listed == Reading(read, rows)
    {
      var soFar: seq<PlatformReceipt> := [];
      assert rows[0..] == rows;
      ContinuedFromStart(Reading(read, rows));
      for i := 0 to |rows|
        invariant Reading(read, rows) == Continued(soFar, Reading(read, rows[i..]))
      {
        assert rows[i..][1..] == rows[i + 1..];
        var receipt := OpenRow(rows[i], read);
        if receipt.None? {
          return None;
        }
        ContinuedByOne(read, soFar, rows[i..]);
        soFar := soFar + [receipt.value];
      }
      assert rows[|rows|..] == [] && soFar + [] == soFar;
      return Some(soFar);
    }

    /** The receipts of a job by time, or an error if any of them does not open. */
    method ListReceipts(jobID: string) returns (r: Result<seq<PlatformReceipt>, StoreError>)
      requires Valid()
      ensures exists rows :: IsSelection(rows, receipts, jobID) && r == ListedOf(Reading(Reader(), rows))
    {
      var rows := Select(receipts, jobID);
      var listed := OpenRows(rows, Reader());
      assert IsSelection(rows, receipts, jobID) && ListedOf(listed) == ListedOf(Reading(Reader(), rows));
      return ListedOf(listed);
    }

    function ListedOf(listed: Option<seq<PlatformReceipt>>): Result<seq<PlatformReceipt>, StoreError> {
      match listed case None => Err(NotOpened) case Some(receipts) => Ok(receipts)
    }

    /** `inserted` says whether the database takes the row. */
    method AddAudit(event: AuditEvent, entropy: Option<Entropy>, inserted: bool) returns (r: Result<(), StoreError>)
      requires sealer.Valid() && (entropy.Some? ==> entropy.value.Fits(sealer.aead))
      modifies this`audit
      ensures var row := RowOf(sealer.aead, sealer.master, auditCodec, event, entropy);
              && r == (if row.None? then Err(NotSealed) else if inserted then Ok(()) else Err(NotWritten))
              && audit == if r.Ok? then old(audit) + [row.value] else old(audit)
    {
      var encoded := auditCodec.encode(event);
      if encoded.None? {
        return Err(NotSealed);
      }
      var at := Millis(event.createdAt);
      var sealed := sealer.Seal(encoded.value, ContextBytes(Audit(at)), entropy);
      if sealed.None? {
        return Err(NotSealed);
      }
      if !inserted {
        return Err(NotWritten);
      }
      audit := audit + [AuditRow(at, sealed.value)];
      return Ok(());
    }

    method SystemState() returns (stopped: bool, why: string, at: Instant)
      ensures stopped == emergencyStop && why == reason && at == FromMillis(stopUpdatedAt)
    {
      return emergencyStop, reason, FromMillis(stopUpdatedAt);
    }

    method SetEmergencyStop(stopped: bool, why: string, at: Instant)
      modifies this`emergencyStop, this`reason, this`stopUpdatedAt
      ensures emergencyStop == stopped && reason == why && stopUpdatedAt == Millis(at)
    {
      emergencyStop, reason, stopUpdatedAt := stopped, why, Millis(at);
    }
  }

  lemma SubsetSize<T>(a: set<T>, b: set<T>)
    requires a <= b
    ensures |a| <= |b|
  {
    assert b == a + (b - a);
  }

  lemma SubmapSize<K, V>(a: map<K, V>, b: map<K, V>)
    requires a.Keys <= b.Keys
    ensures |a| <= |b|
  {
    SubsetSize(a.Keys, b.Keys);
    assert |a| == |a.Keys| && |b| == |b.Keys|;
  }
}
