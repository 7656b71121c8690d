/** Recovery logins that overlap: each is checked against the limit before it waits for its
    turn, so several may pass before any of them fails. */
module RecoveryRace {
  import opened Wrappers
  import opened EgressTypes
  import opened Recovery

  /** The manager, and the logins that have passed the check, with the codes they offer. */
  datatype Busy = Busy(base: Recovery.State, flying: map<nat, string>)

  /** A login arrives and is checked; in its turn it is finished; other requests issue codes. */
  datatype Step =
    | Arrive(login: nat, code: string, at: Instant)
    | Finish(login: nat, at: Instant, rotation: Rotation)
    | Issue(rotation: Rotation)

  function Next(digest: string -> string, b: Busy, step: Step): Busy {
    match step
    case Arrive(login, code, at) =>
      if login in b.flying then b
      else if |Checked(b.base, at).window| >= LIMIT then Busy(Checked(b.base, at), b.flying)
      else Busy(Checked(b.base, at), b.flying[login := code])
    case Finish(login, at, rotation) =>
      if login !in b.flying then b
      else if Accepts(digest, b.base, b.flying[login]) then Busy(Rotated(digest, b.base, rotation), b.flying - {login})
      else Busy(Failed(b.base, at), b.flying - {login})
    case Issue(rotation) => Busy(Rotated(digest, b.base, rotation), b.flying)
  }

  ghost function RunFrom(digest: string -> string, b: Busy, steps: seq<Step>): Busy {
    if steps == [] then b else Next(digest, RunFrom(digest, b, steps[..|steps| - 1]), steps[|steps| - 1])
  }

  /** The clock does not go back, and no more than m logins are in flight. */
  ghost predicate Orderly(digest: string -> string, b: Busy, steps: seq<Step>, m: nat) {
    steps == []
    || (var prior := RunFrom(digest, b, steps[..|steps| - 1]);
        && Orderly(digest, b, steps[..|steps| - 1], m)
        && InTime(prior.base.clock, steps[|steps| - 1])
        && |Next(digest, prior, steps[|steps| - 1]).flying| <= m)
  }

  predicate InTime(clock: Instant, step: Step) {
    !step.Issue? ==> clock <= step.at
  }

  /** The window and the logins in flight together leave room for no more failures than this. */
  ghost predicate Bounded(b: Busy, m: nat) {
    && WindowOk(b.base)
    && |b.base.window| + |b.flying| < LIMIT + m
    && |b.flying| <= m
    && (m > 0 ==> Spread(b.base.recorded, LIMIT + m - 1))
  }

  lemma ArriveKeepsBound(digest: string -> string, b: Busy, step: Step, m: nat)
    requires Bounded(b, m) && step.Arrive? && b.base.clock <= step.at && |Next(digest, b, step).flying| <= m
    ensures Bounded(Next(digest, b, step), m)
  {
    CheckKeepsWindow(b.base, step.at);
  }

  lemma RemoveOne(flying: map<nat, string>, login: nat)
    requires login in flying
    ensures |flying - {login}| == |flying| - 1
  {
    assert (flying - {login}).Keys == flying.Keys - {login};
    assert |flying| == |flying.Keys| && |flying - {login}| == |(flying - {login}).Keys|;
  }

  lemma FinishKeepsBound(digest: string -> string, b: Busy, step: Step, m: nat)
    requires Bounded(b, m) && step.Finish? && b.base.clock <= step.at
    ensures Bounded(Next(digest, b, step), m)
  {
    if step.login in b.flying {
      RemoveOne(b.flying, step.login);
      if !Accepts(digest, b.base, b.flying[step.login]) {
        FailureKeepsWindow(b.base, step.at);
        FailureKeepsSpread(b.base, step.at, LIMIT + m - 1);
      }
    }
  }

  lemma NextKeepsBound(digest: string -> string, b: Busy, step: Step, m: nat)
    requires Bounded(b, m) && InTime(b.base.clock, step) && |Next(digest, b, step).flying| <= m
    ensures Bounded(Next(digest, b, step), m)
  {
    match step
    case Arrive(_, _, _) => ArriveKeepsBound(digest, b, step, m);
    case Finish(_, _, _) => FinishKeepsBound(digest, b, step, m);
    case Issue(_) =>
  }

  ghost function Quiet(hash: Option<string>, clock: Instant): Busy {
    Busy(Start(hash, clock), map[])
  }

  lemma QuietIsBounded(hash: Option<string>, clock: Instant, m: nat)
    ensures Bounded(Quiet(hash, clock), m)
  {
  }

  lemma {:induction false} RunsStayBounded(digest: string -> string, hash: Option<string>, clock: Instant,
                                           steps: seq<Step>, m: nat)
    requires Orderly(digest, Quiet(hash, clock), steps, m)
    ensures Bounded(RunFrom(digest, Quiet(hash, clock), steps), m)
  {
    if steps == [] {
      QuietIsBounded(hash, clock, m);
    } else {
      var prior := RunFrom(digest, Quiet(hash, clock), steps[..|steps| - 1]);
      RunsStayBounded(digest, hash, clock, steps[..|steps| - 1], m);
      NextKeepsBound(digest, prior, steps[|steps| - 1], m);
    }
  }

  /** With at most m logins in flight, any 5 + m consecutive failures between rotations take
      fifteen minutes. */
  lemma OverlappingGuessesAreLimited(digest: string -> string, hash: Option<string>, clock: Instant, steps: seq<Step>,
                                     m: nat, i: nat)
    requires m > 0 && Orderly(digest, Quiet(hash, clock), steps, m)
    requires i + 4 + m < |RunFrom(digest, Quiet(hash, clock), steps).base.recorded|
    ensures var recorded := RunFrom(digest, Quiet(hash, clock), steps).base.recorded;
            recorded[i + 4 + m] - recorded[i] >= 15 * 60 * 1_000_000_000
  {
    RunsStayBounded(digest, hash, clock, steps, m);
  }

  /** A login that overlaps no other is served as one request. */
  lemma AloneIsServed(digest: string -> string, s: Recovery.State, login: Request)
    requires login.Login? && login.enrolled
    ensures var checked := Next(digest, Busy(s, map[]), Arrive(0, login.code, login.allowAt));
            Next(digest, checked, Finish(0, login.recordAt, login.rotation)) == Busy(Serve(digest, s, login), map[])
  {
    var flying: map<nat, string> := map[0 := login.code];
    assert flying - {0} == map[];
  }

  // The bound is reached.

  lemma RunOneMore(digest: string -> string, b: Busy, steps: seq<Step>, step: Step)
    ensures RunFrom(digest, b, steps + [step]) == Next(digest, RunFrom(digest, b, steps), step)
  {
    assert (steps + [step])[..|steps|] == steps;
  }

  lemma OrderlyOneMore(digest: string -> string, b: Busy, steps: seq<Step>, step: Step, m: nat)
    requires Orderly(digest, b, steps, m) && InTime(RunFrom(digest, b, steps).base.clock, step)
    requires |Next(digest, RunFrom(digest, b, steps), step).flying| <= m
    ensures Orderly(digest, b, steps + [step], m)
  {
    assert (steps + [step])[..|steps|] == steps;
  }

  function Same(at: Instant, n: nat): seq<Instant> {
    if n == 0 then [] else Same(at, n - 1) + [at]
  }

  lemma {:induction false} SameIsRecent(at: Instant, n: nat)
    ensures Recent(Same(at, n), at) == Same(at, n) && |Same(at, n)| == n
    ensures forall i :: 0 <= i < n ==> Same(at, n)[i] == at
  {
    if n > 0 {
      SameIsRecent(at, n - 1);
      assert Same(at, n)[..n - 1] == Same(at, n - 1);
    }
  }

  /** The logins below n are in flight with this code. */
  function Flying(code: string, n: nat): map<nat, string> {
    if n == 0 then map[] else Flying(code, n - 1)[n - 1 := code]
  }

  lemma {:induction false} FlyingAre(code: string, n: nat)
    ensures |Flying(code, n)| == n && n !in Flying(code, n)
    ensures forall k :: k in Flying(code, n) ==> k < n && Flying(code, n)[k] == code
  {
    if n > 0 {
      FlyingAre(code, n - 1);
    }
  }

  lemma FlyingNext(code: string, n: nat, n': nat)
    requires n' == n + 1
    ensures n !in Flying(code, n) && Flying(code, n)[n := code] == Flying(code, n')
    ensures n in Flying(code, n') && Flying(code, n')[n] == code && Flying(code, n') - {n} == Flying(code, n)
  {
    FlyingAre(code, n);
  }

  lemma SameNext(at: Instant, n: nat, n': nat)
    requires n' == n + 1
    ensures Same(at, n') == Same(at, n) + [at]
  {
  }

  /** The state with n failures at one instant and these logins in flight. */
  ghost function Crowded(hash: Option<string>, at: Instant, n: nat, flying: map<nat, string>): Busy {
    Busy(Recovery.State(Same(at, n), hash, Same(at, n), [], at), flying)
  }

  ghost predicate Leads(digest: string -> string, hash: Option<string>, at: Instant, m: nat, steps: seq<Step>,
                        b: Busy) {
    Orderly(digest, Quiet(hash, at), steps, m) && RunFrom(digest, Quiet(hash, at), steps) == b
  }

  /** Some orderly run ends there. */
  ghost predicate Reached(digest: string -> string, hash: Option<string>, at: Instant, m: nat, b: Busy) {
    exists steps :: Leads(digest, hash, at, m, steps, b)
  }

  lemma StepReaches(digest: string -> string, hash: Option<string>, at: Instant, m: nat, b: Busy, step: Step)
    requires Reached(digest, hash, at, m, b) && InTime(b.base.clock, step) && |Next(digest, b, step).flying| <= m
    ensures Reached(digest, hash, at, m, Next(digest, b, step))
  {
    var steps :| Leads(digest, hash, at, m, steps, b);
    RunOneMore(digest, Quiet(hash, at), steps, step);
    OrderlyOneMore(digest, Quiet(hash, at), steps, step, m);
    assert Leads(digest, hash, at, m, steps + [step], Next(digest, b, step));
  }

  lemma CrowdedArrive(digest: string -> string, hash: Option<string>, at: Instant, n: nat, k: nat, k': nat,
                      code: string)
    requires n < LIMIT && k' == k + 1
    ensures Next(digest, Crowded(hash, at, n, Flying(code, k)), Arrive(k, code, at)) ==
              Crowded(hash, at, n, Flying(code, k'))
  {
    SameIsRecent(at, n);
    FlyingNext(code, k, k');
  }

  lemma CrowdedFinish(digest: string -> string, hash: Option<string>, at: Instant, n: nat, n': nat, k: nat, k': nat,
                      code: string)
    requires hash != Some(digest(code)) && n' == n + 1 && k' == k + 1
    ensures Next(digest, Crowded(hash, at, n, Flying(code, k')), Finish(k, at, Lost)) ==
              Crowded(hash, at, n', Flying(code, k))
  {
    SameNext(at, n, n');
    FlyingNext(code, k, k');
  }

  /** n logins have failed and k are in flight. */
  ghost predicate CrowdReached(digest: string -> string, hash: Option<string>, at: Instant, m: nat, code: string,
                               n: nat, k: nat)
  {
    Reached(digest, hash, at, m, Crowded(hash, at, n, Flying(code, k)))
  }

  lemma ArriveReaches(digest: string -> string, hash: Option<string>, at: Instant, m: nat, code: string,
                      n: nat, k: nat, k': nat)
    requires n < LIMIT && k' == k + 1 <= m && CrowdReached(digest, hash, at, m, code, n, k)
    ensures CrowdReached(digest, hash, at, m, code, n, k')
  {
    var b := Crowded(hash, at, n, Flying(code, k));
    CrowdedArrive(digest, hash, at, n, k, k', code);
    FlyingAre(code, k');
    StepReaches(digest, hash, at, m, b, Arrive(k, code, at));
  }

  lemma FinishReaches(digest: string -> string, hash: Option<string>, at: Instant, m: nat, code: string,
                      n: nat, n': nat, k: nat, k': nat)
    requires hash != Some(digest(code)) && n' == n + 1 && k' == k + 1 <= m
    requires CrowdReached(digest, hash, at, m, code, n, k')
    ensures CrowdReached(digest, hash, at, m, code, n', k)
  {
    var b := Crowded(hash, at, n, Flying(code, k'));
    CrowdedFinish(digest, hash, at, n, n', k, k', code);
    FlyingAre(code, k);
    StepReaches(digest, hash, at, m, b, Finish(k, at, Lost));
  }

  lemma OneFails(digest: string -> string, hash: Option<string>, at: Instant, m: nat, code: string,
                 n: nat, n': nat, idle: nat)
    requires n < LIMIT && n' == n + 1 && m > 0 && idle == 0 && hash != Some(digest(code))
    requires CrowdReached(digest, hash, at, m, code, n, idle)
    ensures CrowdReached(digest, hash, at, m, code, n', idle)
  {
    var busy := idle + 1;
    ArriveReaches(digest, hash, at, m, code, n, idle, busy);
    FinishReaches(digest, hash, at, m, code, n, n', idle, busy);
  }

  /** One login after the other fails. */
  lemma {:induction false} FailSerially(digest: string -> string, hash: Option<string>, at: Instant, m: nat,
                                        code: string, n: nat, last: nat, idle: nat)
    requires n <= last < LIMIT && m > 0 && idle == 0 && hash != Some(digest(code))
    requires CrowdReached(digest, hash, at, m, code, n, idle)
    ensures CrowdReached(digest, hash, at, m, code, last, idle)
    decreases last - n
  {
    if n != last {
      var n' := n + 1;
      OneFails(digest, hash, at, m, code, n, n', idle);
      FailSerially(digest, hash, at, m, code, n', last, idle);
    }
  }

  /** k logins pass the check together. */
  lemma {:induction false} PassTogether(digest: string -> string, hash: Option<string>, at: Instant, m: nat,
                                        code: string, n: nat, k: nat, idle: nat)
    requires n < LIMIT && k <= m && idle == 0 && CrowdReached(digest, hash, at, m, code, n, idle)
    ensures CrowdReached(digest, hash, at, m, code, n, k)
  {
    if k != idle {
      var k' := k - 1;
      PassTogether(digest, hash, at, m, code, n, k', idle);
      ArriveReaches(digest, hash, at, m, code, n, k', k);
    }
  }

  /** And then they all fail. */
  lemma {:induction false} FailTogether(digest: string -> string, hash: Option<string>, at: Instant, m: nat,
                                        code: string, n: nat, k: nat) returns (failed: nat, left: nat)
    requires hash != Some(digest(code)) && k <= m && CrowdReached(digest, hash, at, m, code, n, k)
    ensures failed == n + k && left == 0 && CrowdReached(digest, hash, at, m, code, failed, left)
    decreases k
  {
    if k == 0 {
      failed, left := n, k;
    } else {
      var n', k' := n + 1, k - 1;
      FinishReaches(digest, hash, at, m, code, n, n', k', k);
      failed, left := FailTogether(digest, hash, at, m, code, n', k');
    }
  }

  lemma NobodyIsReached(digest: string -> string, hash: Option<string>, at: Instant, m: nat, code: string, none: nat)
    requires none == 0
    ensures CrowdReached(digest, hash, at, m, code, none, none)
  {
    assert Leads(digest, hash, at, m, [], Crowded(hash, at, none, Flying(code, none)));
  }

  lemma CrowdFails(digest: string -> string, hash: Option<string>, at: Instant, m: nat, code: string)
    returns (failed: nat, left: nat)
    requires m > 0 && hash != Some(digest(code))
    ensures failed == LIMIT + m - 1 && left == 0 && CrowdReached(digest, hash, at, m, code, failed, left)
  {
    var none, last := 0, LIMIT - 1;
    NobodyIsReached(digest, hash, at, m, code, none);
    FailSerially(digest, hash, at, m, code, none, last, none);
    PassTogether(digest, hash, at, m, code, last, m, none);
    failed, left := FailTogether(digest, hash, at, m, code, last, m);
  }

  /** For every m there is a run with at most m logins in flight in which 4 + m wrong
      guesses fall on one instant: with two logins, six of them. */
  lemma OverlappingGuessesReachTheBound(digest: string -> string, hash: Option<string>, at: Instant, m: nat,
                                        code: string) returns (steps: seq<Step>)
    requires m > 0 && hash != Some(digest(code))
    ensures Orderly(digest, Quiet(hash, at), steps, m)
    ensures var recorded := RunFrom(digest, Quiet(hash, at), steps).base.recorded;
            |recorded| == 4 + m && forall i :: 0 <= i < |recorded| ==> recorded[i] == at
  {
    var failed, left := CrowdFails(digest, hash, at, m, code);
    steps :| Leads(digest, hash, at, m, steps, Crowded(hash, at, failed, Flying(code, left)));
    SameIsRecent(at, failed);
  }
}
