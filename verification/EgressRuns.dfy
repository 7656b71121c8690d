/** Runs that interleave probes with Nostr selections, each selection fed the
    country of the previous lease. */
module EgressRuns {
  import opened Wrappers
  import opened EgressTypes
  import opened ProbeHistory
  import opened EgressRegistry
  import opened EgressSelection

  datatype Event =
    | Probed(call: Call)
    | Selected(jobID: string, now: Instant, draws: Draws)

  /** The state of a run: the records, the country to avoid next, the leases so far
      with the records each was issued from, and the errors returned. */
  datatype State = State(records: Records, previous: string, leases: seq<Lease>, issuedFrom: seq<Records>,
                         errors: set<EgressError>)

  ghost function Next(s: State, policy: SelectionPolicy, e: Event): State
    requires WellKeyed(s.records)
  {
    match e
    case Probed(call) => s.(records := Step(s.records, call))
    case Selected(jobID, now, draws) =>
      match SelectLease(s.records, policy, jobID, PLATFORM_NOSTR, s.previous, now, draws)
      case Ok(lease) => State(s.records, lease.countryCode, s.leases + [lease], s.issuedFrom + [s.records], s.errors)
      case Err(error) => s.(errors := s.errors + {error})
  }

  /** A selection in a run leaves its lease or its error on record. */
  lemma SelectionsAreRecorded(s: State, policy: SelectionPolicy, e: Event)
    requires WellKeyed(s.records) && e.Selected?
    ensures var s' := Next(s, policy, e);
            match SelectLease(s.records, policy, e.jobID, PLATFORM_NOSTR, s.previous, e.now, e.draws)
            case Ok(lease) => s'.leases == s.leases + [lease] && s'.issuedFrom == s.issuedFrom + [s.records]
            case Err(error) => error in s'.errors && s'.leases == s.leases
  {
  }

  ghost function Run(start: State, policy: SelectionPolicy, events: seq<Event>): (s: State)
    requires WellKeyed(start.records)
    ensures WellKeyed(s.records)
  {
    if events == [] then start
    else Next(Run(start, policy, events[..|events| - 1]), policy, events[|events| - 1])
  }

  ghost function Start(records: Records, previous: string): State {
    State(records, previous, [], [], {})
  }

  /** Lease k was issued by the rules: for an endpoint registered from the start,
      allowed, eligible when it was issued, and with enough eligible countries. */
  ghost predicate Sound(lease: Lease, from: Records, registered: Records, policy: SelectionPolicy) {
    && lease.endpointID in registered && lease.endpointID in from
    && registered[lease.endpointID].endpoint == from[lease.endpointID].endpoint
    && lease.countryCode == registered[lease.endpointID].endpoint.countryCode
    && lease.countryCode in policy.allowedCountries
    && from[lease.endpointID].health.Eligible(lease.issuedAt, policy.maxHealthAge)
    && |EligibleCountries(from, policy, lease.issuedAt)| >= 3
    && lease.expiresAt == lease.issuedAt + policy.leaseTTL
  }

  ghost predicate SameEndpoints(a: Records, b: Records) {
    a.Keys == b.Keys && forall id :: id in a ==> a[id].endpoint == b[id].endpoint
  }

  ghost predicate RunSafe(s: State, registered: Records, first: string, policy: SelectionPolicy) {
    && SameEndpoints(registered, s.records)
    && |s.issuedFrom| == |s.leases|
    && NoEligibleAlternate !in s.errors
    && (forall k :: 0 <= k < |s.leases| ==> Sound(s.leases[k], s.issuedFrom[k], registered, policy))
    && (forall k :: 0 < k < |s.leases| ==> s.leases[k].countryCode != s.leases[k - 1].countryCode)
    && (s.leases != [] ==> s.leases[0].countryCode != first)
    && s.previous == if s.leases == [] then first else s.leases[|s.leases| - 1].countryCode
  }

  lemma SelectionIsSound(records: Records, previous: string, registered: Records, policy: SelectionPolicy,
                         jobID: string, now: Instant, draws: Draws)
    requires WellKeyed(records) && policy.minHealthyCountries >= 3 && SameEndpoints(registered, records)
    ensures var r := SelectLease(records, policy, jobID, PLATFORM_NOSTR, previous, now, draws);
            && r != Err(NoEligibleAlternate)
            && (r.Ok? ==>
                  && Sound(r.value, records, registered, policy)
                  && r.value.countryCode != previous && r.value.issuedAt == now)
  {
    NostrSelection(records, policy, jobID, previous, now, draws);
  }

  lemma LeaseKeepsSafety(s: State, lease: Lease, registered: Records, first: string, policy: SelectionPolicy)
    requires RunSafe(s, registered, first, policy)
    requires Sound(lease, s.records, registered, policy) && lease.countryCode != s.previous
    ensures RunSafe(State(s.records, lease.countryCode, s.leases + [lease], s.issuedFrom + [s.records], s.errors),
                    registered, first, policy)
  {
  }

  lemma NextIsSafe(s: State, registered: Records, first: string, policy: SelectionPolicy, e: Event)
    requires WellKeyed(s.records) && policy.minHealthyCountries >= 3
    requires RunSafe(s, registered, first, policy)
    ensures RunSafe(Next(s, policy, e), registered, first, policy)
  {
    match e
    case Probed(call) =>
    case Selected(jobID, now, draws) =>
      SelectionIsSound(s.records, s.previous, registered, policy, jobID, now, draws);
      var r := SelectLease(s.records, policy, jobID, PLATFORM_NOSTR, s.previous, now, draws);
      if r.Ok? {
        LeaseKeepsSafety(s, r.value, registered, first, policy);
      }
  }

  /** Over every run: adjacent leases differ in country, the first avoids the country
      given at the start, every lease is sound, and "no eligible alternate" is never
      returned. */
  lemma {:induction false} RunsAreSafe(records: Records, first: string, policy: SelectionPolicy, events: seq<Event>)
    requires WellKeyed(records) && PolicyAccepted(policy, records)
    ensures RunSafe(Run(Start(records, first), policy, events), records, first, policy)
  {
    if events != [] {
      RunsAreSafe(records, first, policy, events[..|events| - 1]);
      NextIsSafe(Run(Start(records, first), policy, events[..|events| - 1]), records, first, policy,
                 events[|events| - 1]);
    }
  }

  /** The probes of a run, in order. */
  ghost function Calls(events: seq<Event>): seq<Call> {
    if events == [] then []
    else Calls(events[..|events| - 1]) + if events[|events| - 1].Probed? then [events[|events| - 1].call] else []
  }

  /** Selections do not touch the records: they are those of the probes alone. */
  lemma {:induction false} RecordsFollowProbes(records: Records, first: string, policy: SelectionPolicy,
                                               events: seq<Event>)
    requires WellKeyed(records)
    ensures Run(Start(records, first), policy, events).records == RunFrom(records, Calls(events))
  {
    if events != [] {
      var prior := events[..|events| - 1];
      RecordsFollowProbes(records, first, policy, prior);
      var last := events[|events| - 1];
      if last.Probed? {
        assert (Calls(prior) + [last.call])[..|Calls(prior)|] == Calls(prior);
      } else {
        assert Calls(events) == Calls(prior);
      }
    }
  }

  /** The endpoint has been probed, its last probe succeeded, and no probe so far was a
      hard failure or completed three failures in a row. */
  ghost predicate InGoodStanding(history: seq<Probe>) {
    history != [] && !HardFailureIn(history) && !ThreeFailuresInARow(history) && !history[|history| - 1].Failed()
  }

  /** The endpoint has been in good standing, and was probed recently enough. */
  ghost predicate InRecentGoodStanding(history: seq<Probe>, now: Instant, maxAge: int) {
    && InGoodStanding(history)
    && history[|history| - 1].Time() != 0
    && 0 <= now - history[|history| - 1].Time()
    && (now - history[|history| - 1].Time() <= maxAge || maxAge == MAX_DURATION)
  }

  lemma SoundLeaseIsInGoodStanding(records: Records, calls: seq<Call>, lease: Lease, policy: SelectionPolicy)
    requires AllFresh(records) && policy.maxHealthAge <= MAX_DURATION
    requires Sound(lease, RunFrom(records, calls), records, policy)
    ensures InRecentGoodStanding(HistoryOf(records, calls, lease.endpointID), lease.issuedAt, policy.maxHealthAge)
  {
    EligibleAfterRunIff(records, calls, lease.endpointID, lease.issuedAt, policy.maxHealthAge);
  }

  /** In a run from a fresh registry, every lease names an endpoint in good standing by
      its whole history of probes at that time, and probed recently enough. */
  lemma OnlyGoodStandingIsLeased(records: Records, first: string, policy: SelectionPolicy, events: seq<Event>,
                                 jobID: string, now: Instant, draws: Draws)
    requires WellKeyed(records) && PolicyAccepted(policy, records)
    requires AllFresh(records) && policy.maxHealthAge <= MAX_DURATION
    ensures var s := Run(Start(records, first), policy, events);
            var r := SelectLease(s.records, policy, jobID, PLATFORM_NOSTR, s.previous, now, draws);
            r.Ok? ==> InRecentGoodStanding(HistoryOf(records, Calls(events), r.value.endpointID), now,
                                           policy.maxHealthAge)
  {
    RunsAreSafe(records, first, policy, events);
    RecordsFollowProbes(records, first, policy, events);
    var s := Run(Start(records, first), policy, events);
    SelectionIsSound(s.records, s.previous, records, policy, jobID, now, draws);
    var r := SelectLease(s.records, policy, jobID, PLATFORM_NOSTR, s.previous, now, draws);
    if r.Ok? {
      SoundLeaseIsInGoodStanding(records, Calls(events), r.value, policy);
    }
  }

  /** After any run of probes from a fresh registry, the endpoints that the draws range over
      are those registered, allowed, outside the previous country, in good standing by their
      whole history and probed recently enough. */
  lemma CandidatesIffGoodStanding(records: Records, policy: SelectionPolicy, calls: seq<Call>, previous: string,
                                  now: Instant, id: string)
    requires AllFresh(records) && 0 < policy.maxHealthAge <= MAX_DURATION
    ensures id in Candidates(RunFrom(records, calls), policy, previous, now) <==>
            && id in records
            && records[id].endpoint.countryCode in policy.allowedCountries
            && records[id].endpoint.countryCode != previous
            && InRecentGoodStanding(HistoryOf(records, calls, id), now, policy.maxHealthAge)
  {
    RunRefinesHistories(records, calls);
    if id in records {
      EligibleAfterRunIff(records, calls, id, now, policy.maxHealthAge);
    }
  }

  /** So a pair of draws chooses an endpoint exactly if its history is such, and one pair does. */
  lemma DrawsRangeOverGoodHistories(records: Records, policy: SelectionPolicy, calls: seq<Call>, previous: string,
                                    now: Instant, id: string)
    requires AllFresh(records) && 0 < policy.maxHealthAge <= MAX_DURATION
    ensures (exists i, j :: DrawnBy(RunFrom(records, calls), policy, previous, now, i, j, id)) <==>
            && id in records
            && records[id].endpoint.countryCode in policy.allowedCountries
            && records[id].endpoint.countryCode != previous
            && InRecentGoodStanding(HistoryOf(records, calls, id), now, policy.maxHealthAge)
  {
    CandidatesIffGoodStanding(records, policy, calls, previous, now, id);
    DrawsAreBijective(RunFrom(records, calls), policy, previous, now, id);
  }

  lemma StableEndpointLeased(records: Records, policy: SelectionPolicy, jobID: string, previous: string, now: Instant,
                             draws: Draws)
    requires WellKeyed(records) && policy.stableXEndpointID in records
    requires ValidJobID(jobID) && draws.leaseID.Some?
    requires previous == "" || (ValidCountry(previous) && previous in policy.allowedCountries)
    ensures var r := SelectLease(records, policy, jobID, PLATFORM_X, previous, now, draws);
            var id := policy.stableXEndpointID;
            && (r.Ok? <==>
                  && records[id].endpoint.countryCode == "FR"
                  && records[id].health.Eligible(now, policy.maxHealthAge))
            && (r.Ok? ==>
                  r.value == Lease(draws.leaseID.value, jobID, PLATFORM_X, id, "FR", now, now + policy.leaseTTL))
  {
  }

  /** After any run of probes from a fresh registry, a request for X gets a lease exactly
      when the one stable endpoint is in France and in good standing by its whole history,
      and recently enough; the lease is for that endpoint whatever the draws of country and
      endpoint, and whatever country came before. */
  lemma XIsLeasedIffStableEndpointIsGood(records: Records, policy: SelectionPolicy, calls: seq<Call>, jobID: string,
                                         previous: string, now: Instant, draws: Draws)
    requires WellKeyed(records) && PolicyAccepted(policy, records)
    requires AllFresh(records) && policy.maxHealthAge <= MAX_DURATION
    requires ValidJobID(jobID) && (previous == "" || previous in policy.allowedCountries) && draws.leaseID.Some?
    ensures WellKeyed(RunFrom(records, calls))
    ensures var r := SelectLease(RunFrom(records, calls), policy, jobID, PLATFORM_X, previous, now, draws);
            var id := policy.stableXEndpointID;
            var history := HistoryOf(records, calls, id);
            && (r.Ok? <==>
                  && records[id].endpoint.countryCode == "FR"
                  && InRecentGoodStanding(history, now, policy.maxHealthAge))
            && (r.Ok? ==>
                  r.value == Lease(draws.leaseID.value, jobID, PLATFORM_X, id, "FR", now, now + policy.leaseTTL))
  {
    RunRefinesHistories(records, calls);
    StableEndpointLeased(RunFrom(records, calls), policy, jobID, previous, now, draws);
    EligibleAfterRunIff(records, calls, policy.stableXEndpointID, now, policy.maxHealthAge);
  }
}
