/** All interleavings of service operations: every store call is one atomic step, and
    any number of threads may be between two of their calls. */
module Lifecycle {
  import opened Wrappers
  import opened Domain
  import opened EgressTypes
  import opened Sealing
  import opened StoreContexts
  import opened JobStore
  import opened Approval
  import opened MoveHistory
  import Text

  /** Where a thread is, and what it remembers from the calls it has made. */
  datatype Local =
    | Idle
    | ApprovalCalled(id: string, expectedHash: string)
    | ApprovalCleared(id: string, expectedHash: string)
    | ApprovalReady(id: string, hash: string)
    | DispatchCalled(id: string)
    | DispatchCleared(id: string)
    | CancelCalled(id: string)
    | CancelReady(id: string, seen: JobState)

  /** A payload that was handed out: its content, the hash it was checked against, the
      clock, and the number of moves made before the job was read. */
  datatype Dispatch = Dispatch(id: string, content: Text.Text, hash: string, at: Instant, after: nat)

  datatype State = State(
    jobs: Jobs,
    stopped: bool,
    threads: map<nat, Local>,
    origins: map<string, Origin>,
    moves: seq<Move>,
    dispatches: seq<Dispatch>)

  datatype Step =
    | Create(id: string, content: Text.Text, postToX: bool, postToNostr: bool, scheduledAt: Option<Instant>,
             entropy: Entropy, now: Instant)
    | Call(thread: nat, operation: Local)
    | Advance(thread: nat, now: Instant)
    | Work(id: string, from: JobState, to: JobState, now: Instant)
    | Erase(id: string, now: Instant)
    | PurgeOld(before: Instant)
    | SetStop(stopped: bool)
    | NoteCountry(id: string, country: string, now: Instant)

  function Start(): State {
    State(map[], false, map[], map[], [], [])
  }

  /** A compare-and-swap on a job's state, recorded when it succeeds. */
  function Swap(s: State, id: string, from: JobState, to: JobState, now: Instant): State {
    match Transition(s.jobs, id, from, to, Millis(now))
    case None => s
    case Some(jobs) => s.(jobs := jobs, moves := s.moves + [Move(id, Some(from), to)])
  }

  function CommitApproval(s: State, id: string, hash: string, now: Instant): State {
    match Approve(s.jobs, id, hash, Millis(now))
    case None => s
    case Some(jobs) => s.(jobs := jobs, moves := s.moves + [Move(id, Some(Draft), Approved)])
  }

  function At(s: State, t: nat, local: Local): State {
    s.(threads := s.threads[t := local])
  }

  /** The read that ends a dispatch: everything is decided from this one row. */
  function ReadForDispatch(env: Env, s: State, id: string, now: Instant): State {
    if id !in s.jobs then s
    else
      match Dispatchable(env, ToJob(id, s.jobs[id]), now)
      case Err(_) => s
      case Ok(content) =>
        s.(dispatches := s.dispatches + [Dispatch(id, content, s.jobs[id].payloadHash, now, |s.moves|)])
  }

  /** What an approving thread remembers after its read of the job. */
  function ReadForApproval(env: Env, s: State, id: string, expectedHash: string): Local {
    match ApprovalRefused(env, s.jobs, false, id, expectedHash)
    case Some(_) => Idle
    case None => ApprovalReady(id, expectedHash)
  }

  /** The next store call of a thread. */
  function AdvanceThread(env: Env, s: State, t: nat, now: Instant): State {
    if t !in s.threads then s
    else
      match s.threads[t]
      case Idle => s
      case ApprovalCalled(id, hash) => At(s, t, if s.stopped then Idle else ApprovalCleared(id, hash))
      case ApprovalCleared(id, hash) => At(s, t, ReadForApproval(env, s, id, hash))
      case ApprovalReady(id, hash) => At(CommitApproval(s, id, hash, now), t, Idle)
      case DispatchCalled(id) => At(s, t, if s.stopped then Idle else DispatchCleared(id))
      case DispatchCleared(id) => At(ReadForDispatch(env, s, id, now), t, Idle)
      case CancelCalled(id) => At(s, t, if id in s.jobs then CancelReady(id, s.jobs[id].state) else Idle)
      case CancelReady(id, seen) => At(Swap(s, id, seen, Cancelled, now), t, Idle)
  }

  predicate IsCall(l: Local) {
    l.ApprovalCalled? || l.DispatchCalled? || l.CancelCalled?
  }

  /** One atomic step. Draws of job IDs do not repeat; creations that would repeat one
      are no-ops. */
  ghost function Next(env: Env, s: State, step: Step): State {
    match step
    case Create(id, content, x, nostr, scheduledAt, entropy, now) =>
      if NormalizeContent(content).Err? || !(x || nostr) || id in s.origins || id in s.jobs then s
      else if !entropy.Fits(env.aead) then s
      else
        var text := NormalizeContent(content).value;
        s.(jobs := s.jobs[id := ToRow(DraftJob(env, id, text, x, nostr, scheduledAt, entropy, now))],
           origins := s.origins[id := Origin(text, x, nostr, NullTime(scheduledAt))],
           moves := s.moves + [Move(id, None, Draft)])
    case Call(t, operation) =>
      if IsCall(operation) && (t !in s.threads || s.threads[t].Idle?) then At(s, t, operation) else s
    case Advance(t, now) => AdvanceThread(env, s, t, now)
    case Work(id, from, to, now) => Swap(s, id, from, to, now)
    case Erase(id, now) => (match Destroy(s.jobs, id, Millis(now)) case None => s case Some(jobs) => s.(jobs := jobs))
    case PurgeOld(before) => s.(jobs := Purge(s.jobs, Millis(before)))
    case SetStop(stopped) => s.(stopped := stopped)
    case NoteCountry(id, country, now) =>
      (match SetCountry(s.jobs, id, country, Millis(now)) case None => s case Some(jobs) => s.(jobs := jobs))
  }

  ghost function RunFrom(env: Env, s: State, steps: seq<Step>): State {
    if steps == [] then s else Next(env, RunFrom(env, s, steps[..|steps| - 1]), steps[|steps| - 1])
  }

  ghost function Run(env: Env, steps: seq<Step>): State {
    RunFrom(env, Start(), steps)
  }

  // The invariant.

  ghost predicate JobOk(env: Env, origins: map<string, Origin>, moves: seq<Move>, id: string, r: Row) {
    && id in origins
    && Holds(env, id, r, origins[id])
    && LastState(moves, id) == Some(r.state)
    && (r.payloadHash != "" ==> Entries(moves, id, Approved) >= 1)
    && (r.payloadHash != "" ==> OriginHash(env, origins[id]) == Some(r.payloadHash))
  }

  ghost predicate JobsOk(env: Env, origins: map<string, Origin>, moves: seq<Move>, jobs: Jobs) {
    forall id :: id in jobs ==> JobOk(env, origins, moves, id, jobs[id])
  }

  ghost predicate LocalOk(env: Env, origins: map<string, Origin>, l: Local) {
    l.ApprovalReady? ==> l.id in origins && l.hash != "" && OriginHash(env, origins[l.id]) == Some(l.hash)
  }

  ghost predicate DispatchOk(env: Env, origins: map<string, Origin>, moves: seq<Move>, d: Dispatch) {
    && d.id in origins
    && d.content == origins[d.id].content
    && OriginHash(env, origins[d.id]) == Some(d.hash)
    && (origins[d.id].scheduledAt.Some? ==> TimePtr(origins[d.id].scheduledAt).value <= d.at)
    && d.after <= |moves|
    && LastState(moves[..d.after], d.id) == Some(Approved)
    && Entries(moves[..d.after], d.id, Approved) == 1
  }

  ghost predicate Inv(env: Env, s: State) {
    && (forall id :: id in s.origins ==> ValidOrigin(s.origins[id]))
    && JobsOk(env, s.origins, s.moves, s.jobs)
    && Legal(s.moves)
    && (forall id :: id !in s.origins ==> LastState(s.moves, id) == None)
    && (forall t :: t in s.threads ==> LocalOk(env, s.origins, s.threads[t]))
    && (forall k :: 0 <= k < |s.dispatches| ==> DispatchOk(env, s.origins, s.moves, s.dispatches[k]))
  }

  lemma EntriesOfOneMore(moves: seq<Move>, m: Move, id: string, st: JobState)
    ensures Entries(moves + [m], id, st) == Entries(moves, id, st) + if m.id == id && m.to == st then 1 else 0
  {
  }

  lemma DispatchesKept(env: Env, s: State, moves: seq<Move>)
    requires Inv(env, s) && s.moves <= moves
    ensures forall k :: 0 <= k < |s.dispatches| ==> DispatchOk(env, s.origins, moves, s.dispatches[k])
  {
    forall k | 0 <= k < |s.dispatches| ensures DispatchOk(env, s.origins, moves, s.dispatches[k]) {
      assert DispatchOk(env, s.origins, s.moves, s.dispatches[k]);
      assert moves[..s.dispatches[k].after] == s.moves[..s.dispatches[k].after];
    }
  }

  lemma JobOkElsewhere(env: Env, origins: map<string, Origin>, moves: seq<Move>, m: Move, id: string, r: Row)
    requires JobOk(env, origins, moves, id, r) && m.id != id
    ensures JobOk(env, origins, moves + [m], id, r)
  {
    assert (moves + [m])[..|moves|] == moves;
    EntriesOfOneMore(moves, m, id, Approved);
  }

  lemma MovedJobsOk(env: Env, s: State, id: string, r: Row, m: Move)
    requires Inv(env, s) && m.id == id && JobOk(env, s.origins, s.moves + [m], id, r)
    ensures JobsOk(env, s.origins, s.moves + [m], s.jobs[id := r])
  {
    forall j | j in s.jobs && j != id ensures JobOk(env, s.origins, s.moves + [m], j, s.jobs[j]) {
      JobOkElsewhere(env, s.origins, s.moves, m, j, s.jobs[j]);
    }
  }

  /** Replacing one row and recording one legal move keeps the invariant. */
  lemma MoveKeepsInv(env: Env, s: State, id: string, r: Row, m: Move)
    requires Inv(env, s) && id in s.origins && m.id == id && LegalMove(s.moves, m)
    requires JobOk(env, s.origins, s.moves + [m], id, r)
    ensures Inv(env, s.(jobs := s.jobs[id := r], moves := s.moves + [m]))
  {
    LegalExtends(s.moves, m);
    DispatchesKept(env, s, s.moves + [m]);
    MovedJobsOk(env, s, id, r, m);
  }

  lemma MovedJobOk(env: Env, origins: map<string, Origin>, moves: seq<Move>, id: string, r: Row, to: JobState,
                   hash: string, r': Row)
    requires Legal(moves) && JobOk(env, origins, moves, id, r) && CanTransition(r.state, to)
    requires r' == r.(state := to, updatedAt := r'.updatedAt, approvedAt := r'.approvedAt, payloadHash := hash)
    requires hash == r.payloadHash || (to == Approved && OriginHash(env, origins[id]) == Some(hash))
    ensures LegalMove(moves, Move(id, Some(r.state), to))
    ensures JobOk(env, origins, moves + [Move(id, Some(r.state), to)], id, r')
  {
  }

  lemma OnlyDraftsAreApproved(from: JobState)
    ensures CanTransition(from, Approved) ==> from == Draft
  {
  }

  lemma SwapKeepsInv(env: Env, s: State, id: string, from: JobState, to: JobState, now: Instant)
    requires Inv(env, s)
    ensures Inv(env, Swap(s, id, from, to, now))
  {
    if Transition(s.jobs, id, from, to, Millis(now)).Some? {
      var r := s.jobs[id].(state := to, updatedAt := Millis(now));
      var m := Move(id, Some(from), to);
      assert Inv(env, s.(jobs := s.jobs[id := r], moves := s.moves + [m])) by {
        SwappedJobOk(env, s, id, to, r);
        MoveKeepsInv(env, s, id, r, m);
      }
    }
  }

  lemma SwappedJobOk(env: Env, s: State, id: string, to: JobState, r: Row)
    requires Inv(env, s) && id in s.jobs && CanTransition(s.jobs[id].state, to)
    requires r == s.jobs[id].(state := to, updatedAt := r.updatedAt)
    ensures id in s.origins && LegalMove(s.moves, Move(id, Some(s.jobs[id].state), to))
    ensures JobOk(env, s.origins, s.moves + [Move(id, Some(s.jobs[id].state), to)], id, r)
  {
    assert JobOk(env, s.origins, s.moves, id, s.jobs[id]);
    MovedJobOk(env, s.origins, s.moves, id, s.jobs[id], to, r.payloadHash, r);
  }

  lemma CommitApprovalKeepsInv(env: Env, s: State, id: string, hash: string, now: Instant)
    requires Inv(env, s) && id in s.origins && hash != "" && OriginHash(env, s.origins[id]) == Some(hash)
    ensures Inv(env, CommitApproval(s, id, hash, now))
  {
    if Approve(s.jobs, id, hash, Millis(now)).Some? {
      var r := ApprovedRow(s.jobs[id], hash, Millis(now));
      MovedJobOk(env, s.origins, s.moves, id, s.jobs[id], Approved, hash, r);
      MoveKeepsInv(env, s, id, r, Move(id, Some(Draft), Approved));
    }
  }

  lemma CreateKeepsInv(env: Env, s: State, step: Step)
    requires Works(env) && Inv(env, s) && step.Create?
    ensures Inv(env, Next(env, s, step))
  {
    var s' := Next(env, s, step);
    if s' != s {
      var text := NormalizeContent(step.content).value;
      NormalizationIsIdempotent(step.content);
      DraftHoldsOrigin(env, step.id, text, step.postToX, step.postToNostr, step.scheduledAt, step.entropy, step.now);
      var m := Move(step.id, None, Draft);
      var known := s.(origins := s'.origins);
      LegalExtends(s.moves, m);
      NeverEntered(s.moves, step.id, Approved);
      EntriesOfOneMore(s.moves, m, step.id, Approved);
      OriginsGrow(env, s, step.id, s'.origins[step.id]);
      MoveKeepsInv(env, known, step.id, s'.jobs[step.id], m);
    }
  }

  lemma {:induction false} NeverEntered(moves: seq<Move>, id: string, st: JobState)
    requires LastState(moves, id) == None
    ensures Entries(moves, id, st) == 0
  {
    if moves != [] {
      NeverEntered(moves[..|moves| - 1], id, st);
    }
  }

  lemma OriginsGrow(env: Env, s: State, id: string, o: Origin)
    requires Inv(env, s) && id !in s.origins && ValidOrigin(o)
    ensures Inv(env, s.(origins := s.origins[id := o]))
  {
    var origins := s.origins[id := o];
    forall j | j in s.jobs ensures JobOk(env, origins, s.moves, j, s.jobs[j]) {
      JobOkGrows(env, s.origins, s.moves, j, s.jobs[j], id, o);
    }
    forall k | 0 <= k < |s.dispatches| ensures DispatchOk(env, origins, s.moves, s.dispatches[k]) {
      DispatchOkGrows(env, s.origins, s.moves, s.dispatches[k], id, o);
    }
    forall t | t in s.threads ensures LocalOk(env, origins, s.threads[t]) {
      LocalOkGrows(env, s.origins, s.threads[t], id, o);
    }
  }

  lemma JobOkGrows(env: Env, origins: map<string, Origin>, moves: seq<Move>, j: string, r: Row, id: string, o: Origin)
    requires JobOk(env, origins, moves, j, r) && id !in origins
    ensures JobOk(env, origins[id := o], moves, j, r)
  {
  }

  lemma LocalOkGrows(env: Env, origins: map<string, Origin>, l: Local, id: string, o: Origin)
    requires LocalOk(env, origins, l) && id !in origins
    ensures LocalOk(env, origins[id := o], l)
  {
  }

  lemma DispatchOkGrows(env: Env, origins: map<string, Origin>, moves: seq<Move>, d: Dispatch, id: string, o: Origin)
    requires DispatchOk(env, origins, moves, d) && id !in origins
    ensures DispatchOk(env, origins[id := o], moves, d)
  {
  }

  /** Changing a row without moving it keeps the invariant if it still holds its origin. */
  lemma TouchKeepsInv(env: Env, s: State, id: string, r: Row)
    requires Inv(env, s) && id in s.jobs && JobOk(env, s.origins, s.moves, id, s.jobs[id])
    requires r.state == s.jobs[id].state && r.payloadHash == s.jobs[id].payloadHash
    requires Holds(env, id, r, s.origins[id])
    ensures Inv(env, s.(jobs := s.jobs[id := r]))
  {
    var jobs := s.jobs[id := r];
    forall j | j in jobs ensures JobOk(env, s.origins, s.moves, j, jobs[j]) {
      assert j in s.jobs && JobOk(env, s.origins, s.moves, j, s.jobs[j]);
    }
  }

  lemma NewDispatchOk(env: Env, s: State, id: string, now: Instant)
    requires Inv(env, s) && id in s.jobs && Dispatchable(env, ToJob(id, s.jobs[id]), now).Ok?
    ensures DispatchOk(env, s.origins, s.moves,
                       Dispatch(id, Dispatchable(env, ToJob(id, s.jobs[id]), now).value, s.jobs[id].payloadHash, now,
                                |s.moves|))
  {
    assert JobOk(env, s.origins, s.moves, id, s.jobs[id]);
    DispatchableIff(env, id, s.jobs[id], s.origins[id], now);
    assert s.moves[..|s.moves|] == s.moves;
    ApprovedAtMostOnce(s.moves, id);
    EntriesBalanceExits(s.moves, id, Approved);
  }

  lemma DispatchRecorded(env: Env, s: State, d: Dispatch)
    requires Inv(env, s) && DispatchOk(env, s.origins, s.moves, d)
    ensures Inv(env, s.(dispatches := s.dispatches + [d]))
  {
  }

  lemma DispatchKeepsInv(env: Env, s: State, id: string, now: Instant)
    requires Inv(env, s)
    ensures Inv(env, ReadForDispatch(env, s, id, now))
  {
    if id in s.jobs {
      var read := Dispatchable(env, ToJob(id, s.jobs[id]), now);
      if read.Ok? {
        NewDispatchOk(env, s, id, now);
        DispatchRecorded(env, s, Dispatch(id, read.value, s.jobs[id].payloadHash, now, |s.moves|));
      }
    }
  }

  lemma ReadForApprovalIsOk(env: Env, s: State, id: string, expectedHash: string)
    requires Inv(env, s)
    ensures LocalOk(env, s.origins, ReadForApproval(env, s, id, expectedHash))
  {
    if ReadForApproval(env, s, id, expectedHash).ApprovalReady? {
      ApprovalQuotesHash(env, s.jobs, id, expectedHash);
      assert JobOk(env, s.origins, s.moves, id, s.jobs[id]);
      PreviewShowsOrigin(env, id, s.jobs[id], s.origins[id]);
    }
  }

  /** An approval that is not refused quotes the hash shown. */
  lemma ApprovalQuotesHash(env: Env, jobs: Jobs, id: string, expectedHash: string)
    requires ApprovalRefused(env, jobs, false, id, expectedHash).None?
    ensures id in jobs && jobs[id].state == Draft && expectedHash != ""
    ensures PreviewOf(env, ToJob(id, jobs[id])).Some? && PreviewOf(env, ToJob(id, jobs[id])).value.hash == expectedHash
  {
  }

  lemma LocalKeepsInv(env: Env, s: State, t: nat, local: Local)
    requires Inv(env, s) && LocalOk(env, s.origins, local)
    ensures Inv(env, At(s, t, local))
  {
  }

  /** A call that only reads changes nothing but what its thread remembers. */
  lemma ReadOnlyAdvance(env: Env, s: State, t: nat, now: Instant) returns (local: Local)
    requires t in s.threads && !s.threads[t].ApprovalReady?
    requires !s.threads[t].CancelReady? && !s.threads[t].DispatchCleared?
    ensures AdvanceThread(env, s, t, now) == At(s, t, local)
    ensures local.ApprovalReady? ==>
              && s.threads[t].ApprovalCleared?
              && local == ReadForApproval(env, s, s.threads[t].id, s.threads[t].expectedHash)
  {
    local := AdvanceThread(env, s, t, now).threads[t];
    if s.threads[t].Idle? {
      assert s.threads[t := Idle] == s.threads;
    }
  }

  lemma ReadKeepsInv(env: Env, s: State, t: nat, now: Instant)
    requires Inv(env, s) && t in s.threads && !s.threads[t].ApprovalReady?
    requires !s.threads[t].CancelReady? && !s.threads[t].DispatchCleared?
    ensures Inv(env, AdvanceThread(env, s, t, now))
  {
    var local := ReadOnlyAdvance(env, s, t, now);
    if local.ApprovalReady? {
      ReadForApprovalIsOk(env, s, s.threads[t].id, s.threads[t].expectedHash);
    }
    LocalKeepsInv(env, s, t, local);
  }

  lemma CommitKeepsInv(env: Env, s: State, t: nat, now: Instant)
    requires Inv(env, s) && t in s.threads && s.threads[t].ApprovalReady?
    ensures Inv(env, AdvanceThread(env, s, t, now))
  {
    var id, hash := s.threads[t].id, s.threads[t].hash;
    assert LocalOk(env, s.origins, s.threads[t]);
    CommitApprovalKeepsInv(env, s, id, hash, now);
    LocalKeepsInv(env, CommitApproval(s, id, hash, now), t, Idle);
  }

  lemma DispatchEndKeepsInv(env: Env, s: State, t: nat, now: Instant)
    requires Inv(env, s) && t in s.threads && s.threads[t].DispatchCleared?
    ensures Inv(env, AdvanceThread(env, s, t, now))
  {
    DispatchKeepsInv(env, s, s.threads[t].id, now);
    LocalKeepsInv(env, ReadForDispatch(env, s, s.threads[t].id, now), t, Idle);
  }

  lemma CancelEndKeepsInv(env: Env, s: State, t: nat, now: Instant)
    requires Inv(env, s) && t in s.threads && s.threads[t].CancelReady?
    ensures Inv(env, AdvanceThread(env, s, t, now))
  {
    var s' := Swap(s, s.threads[t].id, s.threads[t].seen, Cancelled, now);
    CancelEnds(env, s, t, now);
    SwapKeepsInv(env, s, s.threads[t].id, s.threads[t].seen, Cancelled, now);
    LocalKeepsInv(env, s', t, Idle);
  }

  lemma CancelEnds(env: Env, s: State, t: nat, now: Instant)
    requires t in s.threads && s.threads[t].CancelReady?
    ensures AdvanceThread(env, s, t, now) == At(Swap(s, s.threads[t].id, s.threads[t].seen, Cancelled, now), t, Idle)
  {
  }

  lemma AdvanceKeepsInv(env: Env, s: State, t: nat, now: Instant)
    requires Inv(env, s)
    ensures Inv(env, AdvanceThread(env, s, t, now))
  {
    if t !in s.threads {
      assert AdvanceThread(env, s, t, now) == s;
    } else if s.threads[t].ApprovalReady? {
      CommitKeepsInv(env, s, t, now);
    } else if s.threads[t].DispatchCleared? {
      DispatchEndKeepsInv(env, s, t, now);
    } else if s.threads[t].CancelReady? {
      CancelEndKeepsInv(env, s, t, now);
    } else {
      ReadKeepsInv(env, s, t, now);
    }
  }

  lemma EraseKeepsInv(env: Env, s: State, id: string, now: Instant)
    requires Inv(env, s)
    ensures Inv(env, Next(env, s, Erase(id, now)))
  {
    if Destroy(s.jobs, id, Millis(now)).Some? {
      var r := s.jobs[id].(encryptedContent := [], contentDestroyed := true, updatedAt := Millis(now));
      assert JobOk(env, s.origins, s.moves, id, s.jobs[id]);
      assert Holds(env, id, r, s.origins[id]);
      TouchKeepsInv(env, s, id, r);
      EraseChangesRow(env, s, id, now, r);
    }
  }

  lemma EraseChangesRow(env: Env, s: State, id: string, now: Instant, r: Row)
    requires id in s.jobs && !s.jobs[id].contentDestroyed
    requires r == s.jobs[id].(encryptedContent := [], contentDestroyed := true, updatedAt := Millis(now))
    ensures Next(env, s, Erase(id, now)) == s.(jobs := s.jobs[id := r])
  {
  }

  lemma CountryKeepsInv(env: Env, s: State, id: string, country: string, now: Instant)
    requires Inv(env, s)
    ensures Inv(env, Next(env, s, NoteCountry(id, country, now)))
  {
    if id in s.jobs {
      TouchKeepsInv(env, s, id, s.jobs[id].(lastNostrCountry := country, updatedAt := Millis(now)));
    }
  }

  lemma PurgeKeepsInv(env: Env, s: State, before: int)
    requires Inv(env, s)
    ensures Inv(env, s.(jobs := Purge(s.jobs, before)))
  {
  }

  lemma NextKeepsInv(env: Env, s: State, step: Step)
    requires Works(env) && Inv(env, s)
    ensures Inv(env, Next(env, s, step))
  {
    match step
    case Create(_, _, _, _, _, _, _) => CreateKeepsInv(env, s, step);
    case Call(t, operation) =>
      if Next(env, s, step) != s {
        LocalKeepsInv(env, s, t, operation);
      }
    case Advance(t, now) => AdvanceKeepsInv(env, s, t, now);
    case Work(id, from, to, now) => SwapKeepsInv(env, s, id, from, to, now);
    case Erase(id, now) => EraseKeepsInv(env, s, id, now);
    case PurgeOld(before) => PurgeKeepsInv(env, s, Millis(before));
    case SetStop(_) =>
    case NoteCountry(id, country, now) => CountryKeepsInv(env, s, id, country, now);
  }

  lemma {:induction false} RunsKeepInv(env: Env, steps: seq<Step>)
    requires Works(env)
    ensures Inv(env, Run(env, steps))
  {
    if steps != [] {
      RunsKeepInv(env, steps[..|steps| - 1]);
      NextKeepsInv(env, Run(env, steps[..|steps| - 1]), steps[|steps| - 1]);
    }
  }

  // What every run guarantees.

  /** A job that carries a hash was approved, under the hash of the content, destinations
      and schedule it was created with, and still shows exactly that content until erased. */
  lemma ApprovedContentIsFixed(env: Env, steps: seq<Step>, id: string)
    requires Works(env)
    requires var s := Run(env, steps); id in s.jobs && s.jobs[id].payloadHash != ""
    ensures var s := Run(env, steps);
            && id in s.origins
            && Entries(s.moves, id, Approved) == 1
            && OriginHash(env, s.origins[id]) == Some(s.jobs[id].payloadHash)
            && s.jobs[id].postToX == s.origins[id].postToX && s.jobs[id].postToNostr == s.origins[id].postToNostr
            && s.jobs[id].scheduledAt == s.origins[id].scheduledAt
            && PreviewOf(env, ToJob(id, s.jobs[id])) ==
                 if s.jobs[id].contentDestroyed then None
                 else Some(Shown(s.origins[id].content, s.jobs[id].payloadHash))
  {
    RunsKeepInv(env, steps);
    var s := Run(env, steps);
    assert JobOk(env, s.origins, s.moves, id, s.jobs[id]);
    ApprovedAtMostOnce(s.moves, id);
    PreviewShowsOrigin(env, id, s.jobs[id], s.origins[id]);
  }

  /** In every run, the content of an erased job is gone, and of any other job it is there. */
  lemma ErasedContentIsGone(env: Env, steps: seq<Step>, id: string)
    requires Works(env) && id in Run(env, steps).jobs
    ensures var r := Run(env, steps).jobs[id]; r.contentDestroyed <==> r.encryptedContent == []
  {
    RunsKeepInv(env, steps);
    var s := Run(env, steps);
    assert JobOk(env, s.origins, s.moves, id, s.jobs[id]);
  }

  /** A plain transition from DRAFT to APPROVED, which the table of states allows: it
      leaves the job without a hash. */
  predicate Bypasses(step: Step, id: string) {
    step.Work? && step.id == id && step.from == Draft && step.to == Approved
  }

  ghost predicate Hashed(jobs: Jobs, moves: seq<Move>, id: string) {
    id in jobs && Entries(moves, id, Approved) >= 1 ==> jobs[id].payloadHash != ""
  }

  lemma SwapKeepsHashed(s: State, moved: string, from: JobState, to: JobState, now: Instant, id: string)
    requires Hashed(s.jobs, s.moves, id) && !(moved == id && from == Draft && to == Approved)
    ensures var s' := Swap(s, moved, from, to, now); Hashed(s'.jobs, s'.moves, id)
  {
    OnlyDraftsAreApproved(from);
    EntriesOfOneMore(s.moves, Move(moved, Some(from), to), id, Approved);
  }

  lemma CommitKeepsHashed(s: State, approved: string, hash: string, now: Instant, id: string)
    requires Hashed(s.jobs, s.moves, id) && hash != ""
    ensures var s' := CommitApproval(s, approved, hash, now); Hashed(s'.jobs, s'.moves, id)
  {
    EntriesOfOneMore(s.moves, Move(approved, Some(Draft), Approved), id, Approved);
  }

  lemma ReadsKeepJobs(env: Env, s: State, t: nat, now: Instant)
    requires t in s.threads ==> !s.threads[t].ApprovalReady? && !s.threads[t].CancelReady?
    ensures AdvanceThread(env, s, t, now).jobs == s.jobs && AdvanceThread(env, s, t, now).moves == s.moves
  {
  }

  lemma AdvanceKeepsHashed(env: Env, s: State, t: nat, now: Instant, id: string)
    requires Hashed(s.jobs, s.moves, id)
    requires t in s.threads ==> LocalOk(env, s.origins, s.threads[t])
    ensures var s' := AdvanceThread(env, s, t, now); Hashed(s'.jobs, s'.moves, id)
  {
    if t in s.threads && s.threads[t].ApprovalReady? {
      CommitKeepsHashed(s, s.threads[t].id, s.threads[t].hash, now, id);
    } else if t in s.threads && s.threads[t].CancelReady? {
      SwapKeepsHashed(s, s.threads[t].id, s.threads[t].seen, Cancelled, now, id);
    } else {
      ReadsKeepJobs(env, s, t, now);
    }
  }

  lemma CreateKeepsHashed(env: Env, s: State, step: Step, id: string)
    requires Inv(env, s) && Hashed(s.jobs, s.moves, id) && step.Create?
    ensures var s' := Next(env, s, step); Hashed(s'.jobs, s'.moves, id)
  {
    if Next(env, s, step) != s {
      NeverEntered(s.moves, step.id, Approved);
      EntriesOfOneMore(s.moves, Move(step.id, None, Draft), id, Approved);
    }
  }

  lemma NextKeepsHashed(env: Env, s: State, step: Step, id: string)
    requires Inv(env, s) && Hashed(s.jobs, s.moves, id) && !Bypasses(step, id)
    ensures var s' := Next(env, s, step); Hashed(s'.jobs, s'.moves, id)
  {
    match step
    case Create(_, _, _, _, _, _, _) => CreateKeepsHashed(env, s, step, id);
    case Advance(t, now) => AdvanceKeepsHashed(env, s, t, now, id);
    case Work(moved, from, to, now) => SwapKeepsHashed(s, moved, from, to, now, id);
    case _ => HousekeepingKeepsHashes(env, s, step, id);
  }

  lemma HousekeepingKeepsHashes(env: Env, s: State, step: Step, id: string)
    requires step.Call? || step.Erase? || step.PurgeOld? || step.SetStop? || step.NoteCountry?
    ensures var s' := Next(env, s, step);
            s'.moves == s.moves && (id in s'.jobs ==> id in s.jobs && s'.jobs[id].payloadHash == s.jobs[id].payloadHash)
  {
  }

  /** When every caller goes through ApproveJob, as the service does, the jobs that carry
      a hash are exactly those ever approved. */
  lemma {:induction false} HashedIffApproved(env: Env, steps: seq<Step>, id: string)
    requires Works(env) && forall k :: 0 <= k < |steps| ==> !Bypasses(steps[k], id)
    ensures var s := Run(env, steps);
            id in s.jobs ==> (s.jobs[id].payloadHash != "" <==> Entries(s.moves, id, Approved) >= 1)
  {
    RunsKeepInv(env, steps);
    if steps != [] {
      var prior := steps[..|steps| - 1];
      HashedIffApproved(env, prior, id);
      RunsKeepInv(env, prior);
      NextKeepsHashed(env, Run(env, prior), steps[|steps| - 1], id);
    }
  }

  /** A job without a hash is never dispatched, when the hash function never gives an empty
      one: going round ApproveJob ends in nothing that is published. */
  lemma UnhashedIsNotDispatched(env: Env, job: PostJob, now: Instant)
    requires job.payloadHash == "" && forall s :: env.digest(s) != ""
    ensures Dispatchable(env, job, now).Err?
  {
  }

  /** Every payload ever handed out is the content its job was created with, under the
      approved hash, read while the job was APPROVED and not before its schedule. */
  lemma DispatchesAreFaithful(env: Env, steps: seq<Step>, k: nat)
    requires Works(env) && k < |Run(env, steps).dispatches|
    ensures var s := Run(env, steps);
            var d := s.dispatches[k];
            && d.id in s.origins
            && d.content == s.origins[d.id].content
            && OriginHash(env, s.origins[d.id]) == Some(d.hash)
            && (s.origins[d.id].scheduledAt.Some? ==> TimePtr(s.origins[d.id].scheduledAt).value <= d.at)
            && d.after <= |s.moves|
            && LastState(s.moves[..d.after], d.id) == Some(Approved)
            && Entries(s.moves[..d.after], d.id, Approved) == 1
  {
    RunsKeepInv(env, steps);
    assert DispatchOk(env, Run(env, steps).origins, Run(env, steps).moves, Run(env, steps).dispatches[k]);
  }

  /** Conservation over every run: entries minus exits is 1 for the state a job is in
      and 0 for every other, and the laws of move histories apply. */
  lemma RunsConserveStates(env: Env, steps: seq<Step>, id: string, st: JobState)
    requires Works(env) && id in Run(env, steps).jobs
    ensures var s := Run(env, steps);
            && Entries(s.moves, id, st) - Exits(s.moves, id, st) == (if s.jobs[id].state == st then 1 else 0)
            && Legal(s.moves)
            && Entries(s.moves, id, Draft) == 1
            && Entries(s.moves, id, Approved) <= 1
  {
    RunsKeepInv(env, steps);
    var s := Run(env, steps);
    assert JobOk(env, s.origins, s.moves, id, s.jobs[id]);
    EntriesBalanceExits(s.moves, id, st);
    DraftEnteredOnce(s.moves, id);
    ApprovedAtMostOnce(s.moves, id);
  }

  // The emergency stop.

  /** The thread has not passed a read of the emergency stop. */
  predicate NotCleared(l: Local) {
    l.Idle? || IsCall(l) || l.CancelReady?
  }

  /** The step neither turns the stop off nor goes round ApproveJob. */
  predicate KeepsStop(step: Step) {
    (step.SetStop? ==> step.stopped) && !(step.Work? && Bypasses(step, step.id))
  }

  ghost function Approvals(moves: seq<Move>): nat {
    if moves == [] then 0
    else Approvals(moves[..|moves| - 1]) + if moves[|moves| - 1].to == Approved then 1 else 0
  }

  lemma ApprovalsOfOneMore(moves: seq<Move>, m: Move)
    ensures Approvals(moves + [m]) == Approvals(moves) + if m.to == Approved then 1 else 0
  {
  }

  /** What a step must keep while the stop is on. */
  ghost predicate Halted(s: State, s': State) {
    && s'.stopped && (forall t :: t in s'.threads ==> NotCleared(s'.threads[t]))
    && s'.dispatches == s.dispatches && Approvals(s'.moves) == Approvals(s.moves)
  }

  lemma HaltedSwap(s: State, id: string, from: JobState, to: JobState, now: Instant)
    requires Halted(s, s) && !(from == Draft && to == Approved)
    ensures Halted(s, Swap(s, id, from, to, now))
  {
    OnlyDraftsAreApproved(from);
    ApprovalsOfOneMore(s.moves, Move(id, Some(from), to));
  }

  lemma HaltedAdvance(env: Env, s: State, t: nat, now: Instant)
    requires Halted(s, s)
    ensures Halted(s, AdvanceThread(env, s, t, now))
  {
    if t in s.threads && s.threads[t].CancelReady? {
      HaltedSwap(s, s.threads[t].id, s.threads[t].seen, Cancelled, now);
    }
  }

  lemma StopBlocksStep(env: Env, s: State, step: Step)
    requires Halted(s, s) && KeepsStop(step)
    ensures Halted(s, Next(env, s, step))
  {
    match step
    case Create(id, _, _, _, _, _, _) => ApprovalsOfOneMore(s.moves, Move(id, None, Draft));
    case Advance(t, now) => HaltedAdvance(env, s, t, now);
    case Work(id, from, to, now) => HaltedSwap(s, id, from, to, now);
    case _ =>
  }

  /** While the stop stays on and no thread has already read it as off, nothing is
      approved and nothing is dispatched. */
  lemma {:induction false} StopBlocksApprovalAndDispatch(env: Env, s: State, steps: seq<Step>)
    requires s.stopped && (forall t :: t in s.threads ==> NotCleared(s.threads[t]))
    requires forall k :: 0 <= k < |steps| ==> KeepsStop(steps[k])
    ensures Halted(s, RunFrom(env, s, steps))
  {
    if steps != [] {
      StopBlocksApprovalAndDispatch(env, s, steps[..|steps| - 1]);
      StopBlocksStep(env, RunFrom(env, s, steps[..|steps| - 1]), steps[|steps| - 1]);
    }
  }

  /** The stop is read before the commit, not with it: an approval that has read it as
      off goes through after it is turned on. */
  lemma ClearedApprovalIgnoresStop(env: Env, s: State, t: nat, now: Instant)
    requires t in s.threads && s.threads[t].ApprovalReady?
    requires Approve(s.jobs, s.threads[t].id, s.threads[t].hash, Millis(now)).Some?
    ensures var s' := Next(env, Next(env, s, SetStop(true)), Advance(t, now));
            && s'.stopped && s.threads[t].id in s'.jobs && s'.jobs[s.threads[t].id].state == Approved
            && Approvals(s'.moves) == Approvals(s.moves) + 1
  {
    ApprovalsOfOneMore(s.moves, Move(s.threads[t].id, Some(Draft), Approved));
  }

  lemma AtTwice(s: State, t: nat, a: Local, b: Local)
    ensures At(At(s, t, a), t, b) == At(s, t, b)
  {
    assert s.threads[t := a][t := b] == s.threads[t := b];
  }

  /** The first call of an approval reads the stop. */
  lemma ApprovalReadsStop(env: Env, s: State, t: nat, id: string, hash: string, now: Instant)
    ensures AdvanceThread(env, At(s, t, ApprovalCalled(id, hash)), t, now)
         == At(s, t, if s.stopped then Idle else ApprovalCleared(id, hash))
  {
    AtTwice(s, t, ApprovalCalled(id, hash), if s.stopped then Idle else ApprovalCleared(id, hash));
  }

  /** The second reads the job. */
  lemma ApprovalReadsJob(env: Env, s: State, t: nat, id: string, hash: string, now: Instant)
    ensures AdvanceThread(env, At(s, t, ApprovalCleared(id, hash)), t, now)
         == At(s, t, ReadForApproval(env, s, id, hash))
  {
    assert ReadForApproval(env, At(s, t, ApprovalCleared(id, hash)), id, hash) == ReadForApproval(env, s, id, hash);
    AtTwice(s, t, ApprovalCleared(id, hash), ReadForApproval(env, s, id, hash));
  }

  /** The third commits, if a row matches. */
  lemma ApprovalCommits(env: Env, s: State, t: nat, id: string, hash: string, now: Instant)
    ensures AdvanceThread(env, At(s, t, ApprovalReady(id, hash)), t, now).jobs
         == match Approve(s.jobs, id, hash, Millis(now)) case None => s.jobs case Some(jobs) => jobs
  {
  }

  /** The first call of a dispatch reads the stop. */
  lemma DispatchReadsStop(env: Env, s: State, t: nat, id: string, now: Instant)
    ensures AdvanceThread(env, At(s, t, DispatchCalled(id)), t, now)
         == At(s, t, if s.stopped then Idle else DispatchCleared(id))
  {
    AtTwice(s, t, DispatchCalled(id), if s.stopped then Idle else DispatchCleared(id));
  }

  /** An approval whose calls are not interleaved with others changes the jobs exactly
      as the service operation does. */
  lemma UndisturbedApproval(env: Env, s: State, t: nat, id: string, expectedHash: string, now: Instant)
    requires t !in s.threads
    ensures var s1 := Next(env, s, Call(t, ApprovalCalled(id, expectedHash)));
            var s4 := Next(env, Next(env, Next(env, s1, Advance(t, now)), Advance(t, now)), Advance(t, now));
            s4.jobs == if ApprovalRefused(env, s.jobs, s.stopped, id, expectedHash).Some? then s.jobs
                       else s.jobs[id := ApprovedRow(s.jobs[id], expectedHash, Millis(now))]
  {
    var s1 := Next(env, s, Call(t, ApprovalCalled(id, expectedHash)));
    assert s1 == At(s, t, ApprovalCalled(id, expectedHash));
    ApprovalReadsStop(env, s, t, id, expectedHash, now);
    if !s.stopped {
      ApprovalReadsJob(env, s, t, id, expectedHash, now);
      if ApprovalRefused(env, s.jobs, false, id, expectedHash).None? {
        ApprovableIsDraft(env, s.jobs, id, expectedHash);
        ApprovalCommits(env, s, t, id, expectedHash, now);
      }
    }
  }

  lemma ApprovableIsDraft(env: Env, jobs: Jobs, id: string, expectedHash: string)
    requires ApprovalRefused(env, jobs, false, id, expectedHash).None?
    ensures id in jobs && jobs[id].state == Draft && !jobs[id].contentDestroyed
  {
  }

  /** Nor does anything else happen when a dispatch or a cancellation is not interleaved
      than what the service operation does. */
  lemma UndisturbedDispatch(env: Env, s: State, t: nat, id: string, now: Instant)
    requires t !in s.threads
    ensures var s1 := Next(env, s, Call(t, DispatchCalled(id)));
            var s3 := Next(env, Next(env, s1, Advance(t, now)), Advance(t, now));
            && s3.jobs == s.jobs
            && s3.dispatches == s.dispatches +
                 if !s.stopped && id in s.jobs && Dispatchable(env, ToJob(id, s.jobs[id]), now).Ok?
                 then [Dispatch(id, Dispatchable(env, ToJob(id, s.jobs[id]), now).value, s.jobs[id].payloadHash, now,
                                |s.moves|)]
                 else []
  {
    var s1 := Next(env, s, Call(t, DispatchCalled(id)));
    assert s1 == At(s, t, DispatchCalled(id));
    DispatchReadsStop(env, s, t, id, now);
  }

  lemma UndisturbedCancel(env: Env, s: State, t: nat, id: string, now: Instant)
    requires t !in s.threads
    ensures var s1 := Next(env, s, Call(t, CancelCalled(id)));
            var s3 := Next(env, Next(env, s1, Advance(t, now)), Advance(t, now));
            s3.jobs == if id in s.jobs && CanTransition(s.jobs[id].state, Cancelled)
                       then s.jobs[id := s.jobs[id].(state := Cancelled, updatedAt := Millis(now))]
                       else s.jobs
  {
    var s1 := Next(env, s, Call(t, CancelCalled(id)));
    assert s1 == At(s, t, CancelCalled(id));
    var s2 := Next(env, s1, Advance(t, now));
    assert s2 == At(s1, t, if id in s.jobs then CancelReady(id, s.jobs[id].state) else Idle);
  }
}
