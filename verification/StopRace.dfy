/** What can still happen after the emergency stop is turned on: exactly what the threads
    that have already read it as off are about to do. */
module StopRace {
  import opened Wrappers
  import opened Domain
  import opened EgressTypes
  import opened StoreContexts
  import opened JobStore
  import opened Approval
  import opened MoveHistory
  import opened Lifecycle

  /** The thread has read the stop as off and works on this job. */
  predicate ClearedFor(l: Local, id: string) {
    (l.ApprovalCleared? || l.ApprovalReady? || l.DispatchCleared?) && l.id == id
  }

  /** Left alone, the thread approves or dispatches by this time. */
  predicate WillAct(env: Env, jobs: Jobs, l: Local, until: Instant) {
    match l
    case ApprovalReady(id, hash) => Approve(jobs, id, hash, Millis(until)).Some?
    case ApprovalCleared(id, hash) => ApprovalRefused(env, jobs, false, id, hash).None?
    case DispatchCleared(id) => id in jobs && Dispatchable(env, ToJob(id, jobs[id]), until).Ok?
    case _ => false
  }

  /** A step while the stop stays on, up to a time: it may be any step that does not go
      round ApproveJob, but a new job gets an ID that no cleared thread has guessed. */
  ghost predicate Stays(s: State, step: Step, until: Instant) {
    && KeepsStop(step)
    && (step.Advance? ==> step.now <= until)
    && (step.Create? ==> forall t :: t in s.threads ==> !ClearedFor(s.threads[t], step.id))
  }

  ghost predicate AllStay(s: State, steps: seq<Step>, until: Instant) {
    forall k :: 0 <= k < |steps| ==> Stays(s, steps[k], until)
  }

  /** Something has been approved or dispatched since. */
  ghost predicate Acted(s: State, s': State) {
    Approvals(s'.moves) > Approvals(s.moves) || |s'.dispatches| > |s.dispatches|
  }

  // If no thread will act, nothing is approved or dispatched.

  /** The row is as good as it was, or of no use to an approval or a dispatch. */
  predicate Fades(r: Row, r': Row) {
    || r'.contentDestroyed
    || (r'.state != Draft && r'.state != Approved)
    || r' == r.(lastNostrCountry := r'.lastNostrCountry, updatedAt := r'.updatedAt)
  }

  ghost predicate FadesFor(l: Local, jobs: Jobs, jobs': Jobs) {
    forall id :: ClearedFor(l, id) && id in jobs' ==> id in jobs && Fades(jobs[id], jobs'[id])
  }

  lemma FadedCannotAct(env: Env, jobs: Jobs, jobs': Jobs, l: Local, until: Instant)
    requires !WillAct(env, jobs, l, until) && FadesFor(l, jobs, jobs')
    ensures !WillAct(env, jobs', l, until)
  {
    match l
    case ApprovalReady(id, _) => assert ClearedFor(l, id);
    case ApprovalCleared(id, _) => assert ClearedFor(l, id);
    case DispatchCleared(id) => assert ClearedFor(l, id);
    case _ =>
  }

  /** Nothing has happened since s, and no thread will make it happen. */
  ghost predicate Calm(env: Env, s: State, s': State, until: Instant) {
    && s'.stopped
    && Approvals(s'.moves) == Approvals(s.moves) && s'.dispatches == s.dispatches
    && forall t :: t in s'.threads ==> LocalCalm(env, s, s'.jobs, t, s'.threads[t], until)
  }

  /** A cleared thread is still where it was in s. */
  ghost predicate LocalCalm(env: Env, s: State, jobs: Jobs, t: nat, l: Local, until: Instant) {
    NotCleared(l) || (t in s.threads && s.threads[t] == l && !WillAct(env, jobs, l, until))
  }

  ghost predicate JobsFade(s: State, jobs: Jobs, jobs': Jobs) {
    forall t :: t in s.threads ==> FadesFor(s.threads[t], jobs, jobs')
  }

  lemma FadingKeepsCalm(env: Env, s: State, s': State, s'': State, until: Instant)
    requires Calm(env, s, s', until) && s''.stopped && s''.threads == s'.threads
    requires Approvals(s''.moves) == Approvals(s'.moves) && s''.dispatches == s'.dispatches
    requires JobsFade(s, s'.jobs, s''.jobs)
    ensures Calm(env, s, s'', until)
  {
    forall t | t in s''.threads ensures LocalCalm(env, s, s''.jobs, t, s''.threads[t], until) {
      assert LocalCalm(env, s, s'.jobs, t, s'.threads[t], until);
      if !NotCleared(s'.threads[t]) {
        FadedCannotAct(env, s'.jobs, s''.jobs, s'.threads[t], until);
      }
    }
  }

  lemma SwapKeepsCalm(env: Env, s: State, s': State, id: string, from: JobState, to: JobState, now: Instant,
                      until: Instant)
    requires Calm(env, s, s', until) && !(from == Draft && to == Approved)
    ensures Calm(env, s, Swap(s', id, from, to, now), until)
  {
    OnlyDraftsAreApproved(from);
    ApprovalsOfOneMore(s'.moves, Move(id, Some(from), to));
    FadingKeepsCalm(env, s, s', Swap(s', id, from, to, now), until);
  }

  lemma LocalKeepsCalm(env: Env, s: State, s': State, t: nat, l: Local, until: Instant)
    requires Calm(env, s, s', until) && NotCleared(l)
    ensures Calm(env, s, At(s', t, l), until)
  {
  }

  /** What an earlier clock allows, a later one allows. */
  lemma DispatchableStays(env: Env, job: PostJob, now: Instant, until: Instant)
    requires now <= until && Dispatchable(env, job, now).Ok?
    ensures Dispatchable(env, job, until).Ok?
  {
  }

  /** A thread that is cleared but will not act gives up at its next call. */
  lemma CalmThreadGivesUp(env: Env, s: State, t: nat, now: Instant, until: Instant)
    requires s.stopped && t in s.threads && !WillAct(env, s.jobs, s.threads[t], until) && now <= until
    requires !s.threads[t].CancelCalled? && !s.threads[t].CancelReady?
    ensures AdvanceThread(env, s, t, now) == At(s, t, Idle)
  {
    match s.threads[t]
    case Idle => assert s.threads[t := Idle] == s.threads;
    case DispatchCleared(id) =>
      if id in s.jobs && Dispatchable(env, ToJob(id, s.jobs[id]), now).Ok? {
        DispatchableStays(env, ToJob(id, s.jobs[id]), now, until);
      }
    case _ =>
  }

  lemma AdvanceKeepsCalm(env: Env, s: State, s': State, t: nat, now: Instant, until: Instant)
    requires Calm(env, s, s', until) && now <= until
    ensures Calm(env, s, AdvanceThread(env, s', t, now), until)
  {
    if t in s'.threads {
      assert LocalCalm(env, s, s'.jobs, t, s'.threads[t], until);
      match s'.threads[t]
      case CancelCalled(id) =>
        LocalKeepsCalm(env, s, s', t, AdvanceThread(env, s', t, now).threads[t], until);
      case CancelReady(id, seen) =>
        SwapKeepsCalm(env, s, s', id, seen, Cancelled, now, until);
        LocalKeepsCalm(env, s, Swap(s', id, seen, Cancelled, now), t, Idle, until);
      case _ =>
        CalmThreadGivesUp(env, s', t, now, until);
        LocalKeepsCalm(env, s, s', t, Idle, until);
    }
  }

  lemma CreateKeepsCalm(env: Env, s: State, s': State, step: Step, until: Instant)
    requires Calm(env, s, s', until) && Stays(s, step, until) && step.Create?
    ensures Calm(env, s, Next(env, s', step), until)
  {
    var s'' := Next(env, s', step);
    if s'' != s' {
      ApprovalsOfOneMore(s'.moves, Move(step.id, None, Draft));
      NewRowFades(s, s'.jobs, step.id, s''.jobs[step.id]);
      FadingKeepsCalm(env, s, s', s'', until);
    }
  }

  /** A new job concerns no thread that is not cleared for it. */
  lemma NewRowFades(s: State, jobs: Jobs, id: string, r: Row)
    requires id !in jobs && forall t :: t in s.threads ==> !ClearedFor(s.threads[t], id)
    ensures JobsFade(s, jobs, jobs[id := r])
  {
  }

  lemma EraseKeepsCalm(env: Env, s: State, s': State, id: string, now: Instant, until: Instant)
    requires Calm(env, s, s', until)
    ensures Calm(env, s, Next(env, s', Erase(id, now)), until)
  {
    FadingKeepsCalm(env, s, s', Next(env, s', Erase(id, now)), until);
  }

  lemma CountryKeepsCalm(env: Env, s: State, s': State, id: string, country: string, now: Instant, until: Instant)
    requires Calm(env, s, s', until)
    ensures Calm(env, s, Next(env, s', NoteCountry(id, country, now)), until)
  {
    FadingKeepsCalm(env, s, s', Next(env, s', NoteCountry(id, country, now)), until);
  }

  lemma PurgeKeepsCalm(env: Env, s: State, s': State, before: Instant, until: Instant)
    requires Calm(env, s, s', until)
    ensures Calm(env, s, Next(env, s', PurgeOld(before)), until)
  {
    FadingKeepsCalm(env, s, s', Next(env, s', PurgeOld(before)), until);
  }

  lemma NextKeepsCalm(env: Env, s: State, s': State, step: Step, until: Instant)
    requires Calm(env, s, s', until) && Stays(s, step, until)
    ensures Calm(env, s, Next(env, s', step), until)
  {
    match step
    case Create(_, _, _, _, _, _, _) => CreateKeepsCalm(env, s, s', step, until);
    case Call(t, operation) =>
      if Next(env, s', step) != s' {
        LocalKeepsCalm(env, s, s', t, operation, until);
      }
    case Advance(t, now) => AdvanceKeepsCalm(env, s, s', t, now, until);
    case Work(id, from, to, now) => SwapKeepsCalm(env, s, s', id, from, to, now, until);
    case Erase(id, now) => EraseKeepsCalm(env, s, s', id, now, until);
    case PurgeOld(before) => PurgeKeepsCalm(env, s, s', before, until);
    case SetStop(_) =>
    case NoteCountry(id, country, now) => CountryKeepsCalm(env, s, s', id, country, now, until);
  }

  lemma {:induction false} RunKeepsCalm(env: Env, s: State, steps: seq<Step>, until: Instant)
    requires Calm(env, s, s, until) && AllStay(s, steps, until)
    ensures Calm(env, s, RunFrom(env, s, steps), until)
  {
    if steps != [] {
      RunKeepsCalm(env, s, steps[..|steps| - 1], until);
      NextKeepsCalm(env, s, RunFrom(env, s, steps[..|steps| - 1]), steps[|steps| - 1], until);
    }
  }

  // If some thread will act, at most two of its own calls do it.

  lemma RunFromOneMore(env: Env, s: State, steps: seq<Step>, step: Step)
    ensures RunFrom(env, s, steps + [step]) == Next(env, RunFrom(env, s, steps), step)
  {
    assert (steps + [step])[..|steps|] == steps;
  }

  lemma ReadyThreadActs(env: Env, s: State, t: nat, until: Instant)
    requires t in s.threads && !s.threads[t].ApprovalCleared? && WillAct(env, s.jobs, s.threads[t], until)
    ensures Acted(s, Next(env, s, Advance(t, until)))
  {
    if s.threads[t].ApprovalReady? {
      ApprovalsOfOneMore(s.moves, Move(s.threads[t].id, Some(Draft), Approved));
    }
  }

  lemma ThreadActs(env: Env, s: State, t: nat, until: Instant) returns (steps: seq<Step>)
    requires t in s.threads && WillAct(env, s.jobs, s.threads[t], until)
    ensures 1 <= |steps| <= 2 && forall k :: 0 <= k < |steps| ==> steps[k] == Advance(t, until)
    ensures Acted(s, RunFrom(env, s, steps))
  {
    var advance := Advance(t, until);
    RunFromOneMore(env, s, [], advance);
    assert [] + [advance] == [advance];
    steps := [advance];
    if s.threads[t].ApprovalCleared? {
      var id, hash := s.threads[t].id, s.threads[t].expectedHash;
      ApprovableIsDraft(env, s.jobs, id, hash);
      var s' := Next(env, s, advance);
      assert s' == At(s, t, ApprovalReady(id, hash));
      ReadyThreadActs(env, s', t, until);
      RunFromOneMore(env, s, [advance], advance);
      assert [advance] + [advance] == [advance, advance];
      steps := [advance, advance];
    } else {
      ReadyThreadActs(env, s, t, until);
    }
  }

  /** After the stop is turned on, something can still be approved or dispatched by a given
      time exactly if some thread that had read it as off was about to do so. */
  lemma StopIsOutrunIff(env: Env, s: State, until: Instant)
    requires s.stopped
    ensures (exists steps :: AllStay(s, steps, until) && Acted(s, RunFrom(env, s, steps)))
       <==> (exists t :: t in s.threads && WillAct(env, s.jobs, s.threads[t], until))
  {
    if t :| t in s.threads && WillAct(env, s.jobs, s.threads[t], until) {
      var steps := ThreadActs(env, s, t, until);
      assert AllStay(s, steps, until);
    } else {
      forall steps | AllStay(s, steps, until) ensures !Acted(s, RunFrom(env, s, steps)) {
        RunKeepsCalm(env, s, steps, until);
      }
    }
  }

  // Both races can be run from the empty store.

  /** What an operator submits, and the hash shown for it. */
  ghost predicate Acceptable(env: Env, draft: Step, hash: string) {
    && draft.Create? && draft.scheduledAt.None? && draft.entropy.Fits(env.aead)
    && NormalizeContent(draft.content).Ok? && (draft.postToX || draft.postToNostr)
    && hash != ""
    && ApprovalHash(env, NormalizeContent(draft.content).value, draft.postToX, draft.postToNostr, None) == Some(hash)
  }

  function Drafted(draft: Step): Origin
    requires draft.Create? && NormalizeContent(draft.content).Ok?
  {
    Origin(NormalizeContent(draft.content).value, draft.postToX, draft.postToNostr, None)
  }

  /** A draft is created and an approval of it has read the stop and the job. */
  function UpToReady(draft: Step, hash: string, t: nat, now: Instant): seq<Step>
    requires draft.Create?
  {
    [draft] + [Call(t, ApprovalCalled(draft.id, hash))] + [Advance(t, now)] + [Advance(t, now)]
  }

  /** The state of a draft that an approval quoting this hash would find. */
  ghost predicate Approvable(env: Env, s: State, id: string, hash: string) {
    && !s.stopped && s.moves == [Move(id, None, Draft)] && s.dispatches == []
    && id in s.jobs && s.jobs[id].state == Draft && !s.jobs[id].contentDestroyed
    && ReadForApproval(env, s, id, hash) == ApprovalReady(id, hash)
  }

  lemma DraftIsStored(env: Env, draft: Step, hash: string)
    requires Works(env) && Acceptable(env, draft, hash)
    ensures var s := Run(env, [draft]);
            && !s.stopped && s.threads == map[] && s.moves == [Move(draft.id, None, Draft)] && s.dispatches == []
            && s.jobs.Keys == {draft.id} && s.jobs[draft.id].state == Draft && !s.jobs[draft.id].contentDestroyed
            && s.origins == map[draft.id := Drafted(draft)]
  {
    RunFromOneMore(env, Start(), [], draft);
    assert [] + [draft] == [draft];
  }

  lemma DraftIsReached(env: Env, draft: Step, hash: string)
    requires Works(env) && Acceptable(env, draft, hash)
    ensures var s := Run(env, [draft]); s.threads == map[] && Approvable(env, s, draft.id, hash)
    ensures var s := Run(env, [draft]);
            && draft.id in s.origins
            && s.origins[draft.id] == Drafted(draft)
  {
    DraftIsStored(env, draft, hash);
    RunsKeepInv(env, [draft]);
    var s := Run(env, [draft]);
    assert JobOk(env, s.origins, s.moves, draft.id, s.jobs[draft.id]);
    HeldIsApprovable(env, s, draft.id, Drafted(draft), hash);
  }

  lemma HeldIsApprovable(env: Env, s: State, id: string, o: Origin, hash: string)
    requires id in s.jobs && s.jobs[id].state == Draft && !s.jobs[id].contentDestroyed
    requires ValidOrigin(o) && Holds(env, id, s.jobs[id], o) && OriginHash(env, o) == Some(hash) && hash != ""
    ensures ReadForApproval(env, s, id, hash) == ApprovalReady(id, hash)
  {
    PreviewShowsOrigin(env, id, s.jobs[id], o);
  }

  lemma ApprovalGetsReady(env: Env, s: State, id: string, hash: string, t: nat, now: Instant)
    requires s.threads == map[] && !s.stopped && ReadForApproval(env, s, id, hash) == ApprovalReady(id, hash)
    ensures var called := Next(env, s, Call(t, ApprovalCalled(id, hash)));
            Next(env, Next(env, called, Advance(t, now)), Advance(t, now)) == At(s, t, ApprovalReady(id, hash))
  {
    assert Next(env, s, Call(t, ApprovalCalled(id, hash))) == At(s, t, ApprovalCalled(id, hash));
    ApprovalReadsStop(env, s, t, id, hash, now);
    ApprovalReadsJob(env, s, t, id, hash, now);
  }

  lemma ReadyIsReached(env: Env, draft: Step, hash: string, t: nat, now: Instant)
    requires Works(env) && Acceptable(env, draft, hash)
    ensures Run(env, UpToReady(draft, hash, t, now)) == At(Run(env, [draft]), t, ApprovalReady(draft.id, hash))
  {
    var call := Call(t, ApprovalCalled(draft.id, hash));
    DraftIsReached(env, draft, hash);
    ApprovalGetsReady(env, Run(env, [draft]), draft.id, hash, t, now);
    RunFromOneMore(env, Start(), [draft], call);
    RunFromOneMore(env, Start(), [draft] + [call], Advance(t, now));
    RunFromOneMore(env, Start(), [draft] + [call] + [Advance(t, now)], Advance(t, now));
  }

  /** Create, call, read the stop, read the job; stop; commit. */
  lemma ApprovalOutrunsStop(env: Env, draft: Step, hash: string, t: nat, now: Instant)
    requires Works(env) && Acceptable(env, draft, hash)
    ensures var s := Run(env, UpToReady(draft, hash, t, now) + [SetStop(true)] + [Advance(t, now)]);
            s.stopped && Approvals(s.moves) == 1 && draft.id in s.jobs && s.jobs[draft.id].state == Approved
  {
    DraftIsReached(env, draft, hash);
    ReadyIsReached(env, draft, hash, t, now);
    var steps := UpToReady(draft, hash, t, now);
    RunFromOneMore(env, Start(), steps, SetStop(true));
    RunFromOneMore(env, Start(), steps + [SetStop(true)], Advance(t, now));
    ApprovalsOfOneMore([], Move(draft.id, None, Draft));
    assert [] + [Move(draft.id, None, Draft)] == [Move(draft.id, None, Draft)];
    ClearedApprovalIgnoresStop(env, Run(env, steps), t, now);
  }

  lemma ReadyCommits(env: Env, s: State, id: string, hash: string, t: nat, now: Instant)
    requires Approvable(env, s, id, hash)
    ensures var s' := Next(env, At(s, t, ApprovalReady(id, hash)), Advance(t, now));
            && !s'.stopped && s'.dispatches == [] && s'.origins == s.origins && t in s'.threads && s'.threads[t].Idle?
            && id in s'.jobs
            && s'.jobs[id] == ApprovedRow(s.jobs[id], hash, Millis(now))
  {
  }

  lemma HeldIsDispatchable(env: Env, id: string, r: Row, o: Origin, now: Instant)
    requires ValidOrigin(o) && Holds(env, id, r, o) && o.scheduledAt.None?
    requires !r.contentDestroyed && r.state == Approved && OriginHash(env, o) == Some(r.payloadHash)
    ensures Dispatchable(env, ToJob(id, r), now) == Ok(o.content)
  {
    PreviewShowsOrigin(env, id, r, o);
  }

  /** The approval commits. */
  lemma ApprovedIsDispatchable(env: Env, draft: Step, hash: string, t: nat, now: Instant)
    requires Works(env) && Acceptable(env, draft, hash)
    ensures var s := Run(env, UpToReady(draft, hash, t, now) + [Advance(t, now)]);
            && !s.stopped && s.dispatches == [] && t in s.threads && s.threads[t].Idle? && draft.id in s.jobs
            && Dispatchable(env, ToJob(draft.id, s.jobs[draft.id]), now) == Ok(NormalizeContent(draft.content).value)
  {
    var s := Run(env, [draft]);
    DraftIsReached(env, draft, hash);
    ReadyIsReached(env, draft, hash, t, now);
    RunFromOneMore(env, Start(), UpToReady(draft, hash, t, now), Advance(t, now));
    ReadyCommits(env, s, draft.id, hash, t, now);
    var s' := Run(env, UpToReady(draft, hash, t, now) + [Advance(t, now)]);
    RunsKeepInv(env, [draft]);
    HeldIsDispatchable(env, draft.id, s'.jobs[draft.id], s.origins[draft.id], now);
  }

  /** A call of a dispatch, its read of the stop, the stop, and its read of the job. */
  function Race(t: nat, id: string, now: Instant): seq<Step> {
    [Call(t, DispatchCalled(id))] + [Advance(t, now)] + [SetStop(true)] + [Advance(t, now)]
  }

  lemma {:induction false} RunAppend(env: Env, s: State, p: seq<Step>, q: seq<Step>)
    ensures RunFrom(env, s, p + q) == RunFrom(env, RunFrom(env, s, p), q)
  {
    if q == [] {
      assert p + q == p;
    } else {
      RunAppend(env, s, p, q[..|q| - 1]);
      assert (p + q)[..|p + q| - 1] == p + q[..|q| - 1];
    }
  }

  lemma DispatchClears(env: Env, s: State, t: nat, id: string, now: Instant)
    requires !s.stopped && t in s.threads && s.threads[t].Idle?
    ensures RunFrom(env, s, [Call(t, DispatchCalled(id))] + [Advance(t, now)] + [SetStop(true)])
         == At(s, t, DispatchCleared(id)).(stopped := true)
  {
    var call := Call(t, DispatchCalled(id));
    RunFromOneMore(env, s, [], call);
    assert [] + [call] == [call];
    assert Next(env, s, call) == At(s, t, DispatchCalled(id));
    RunFromOneMore(env, s, [call], Advance(t, now));
    DispatchReadsStop(env, s, t, id, now);
    RunFromOneMore(env, s, [call] + [Advance(t, now)], SetStop(true));
  }

  lemma DispatchRaces(env: Env, s: State, t: nat, id: string, now: Instant)
    requires !s.stopped && t in s.threads && s.threads[t].Idle? && id in s.jobs
    requires Dispatchable(env, ToJob(id, s.jobs[id]), now).Ok?
    ensures var s' := RunFrom(env, s, Race(t, id, now));
            && s'.stopped && |s'.dispatches| == |s.dispatches| + 1
            && s'.dispatches[|s.dispatches|].id == id
            && Ok(s'.dispatches[|s.dispatches|].content) == Dispatchable(env, ToJob(id, s.jobs[id]), now)
  {
    DispatchClears(env, s, t, id, now);
    RunFromOneMore(env, s, [Call(t, DispatchCalled(id))] + [Advance(t, now)] + [SetStop(true)], Advance(t, now));
  }

  /** Create and approve, call a dispatch, read the stop; stop; read the job and hand it out. */
  lemma DispatchOutrunsStop(env: Env, draft: Step, hash: string, t: nat, now: Instant)
    requires Works(env) && Acceptable(env, draft, hash)
    ensures var s := Run(env, UpToReady(draft, hash, t, now) + [Advance(t, now)] + Race(t, draft.id, now));
            && s.stopped && |s.dispatches| == 1
            && s.dispatches[0].id == draft.id && s.dispatches[0].content == NormalizeContent(draft.content).value
  {
    var approved := UpToReady(draft, hash, t, now) + [Advance(t, now)];
    ApprovedIsDispatchable(env, draft, hash, t, now);
    DispatchRaces(env, Run(env, approved), t, draft.id, now);
    RunAppend(env, Start(), approved, Race(t, draft.id, now));
  }
}
