/** Which endpoint a selection yields, as a function of the registry contents,
    the policy, the inputs and the random draws; and what is true of that choice. */
module EgressSelection {
  import opened Wrappers
  import opened EgressTypes
  import opened EgressRegistry
  import Ordering

  datatype SelectionPolicy = SelectionPolicy(
    allowedCountries: set<string>,
    minHealthyCountries: int,
    maxHealthAge: int,
    leaseTTL: int,
    stableXEndpointID: string)

  /** randomIndex over one state of the random reader: for every positive length
      some index below it, or a failure of the reader. */
  type Sampler = f: int -> Option<int>
    | forall n: int :: 0 < n && f(n).Some? ==> 0 <= f(n).value < n
    witness (n: int) => None

  datatype Draws = Draws(country: Sampler, endpoint: Sampler, leaseID: Option<string>)

  datatype Lease = Lease(
    id: string,
    jobID: string,
    platform: string,
    endpointID: string,
    countryCode: string,
    issuedAt: Instant,
    expiresAt: Instant)

  ghost function EligibleIds(records: Records, policy: SelectionPolicy, now: Instant): set<string> {
    set id | id in records
          && records[id].endpoint.countryCode in policy.allowedCountries
          && records[id].health.Eligible(now, policy.maxHealthAge)
  }

  ghost function CountriesOf(records: Records, ids: set<string>): set<string> {
    set id | id in ids && id in records :: records[id].endpoint.countryCode
  }

  ghost function InCountry(records: Records, ids: set<string>, country: string): set<string> {
    set id | id in ids && id in records && records[id].endpoint.countryCode == country
  }

  ghost function EligibleCountries(records: Records, policy: SelectionPolicy, now: Instant): set<string> {
    CountriesOf(records, EligibleIds(records, policy, now))
  }

  /** The countries a first draw ranges over. */
  ghost function CountryChoices(records: Records, policy: SelectionPolicy, previous: string,
                                now: Instant): seq<string> {
    Ordering.Listing(EligibleCountries(records, policy, now) - {previous})
  }

  /** The endpoints a second draw ranges over. */
  ghost function EndpointChoices(records: Records, policy: SelectionPolicy, now: Instant,
                                 country: string): seq<string> {
    Ordering.Listing(InCountry(records, EligibleIds(records, policy, now), country))
  }

  /** The eligible, allowed endpoints outside the previous country. */
  ghost function Candidates(records: Records, policy: SelectionPolicy, previous: string, now: Instant): set<string> {
    set id | id in EligibleIds(records, policy, now) && records[id].endpoint.countryCode != previous
  }

  function NewLease(jobID: string, platform: string, endpoint: Endpoint, now: Instant, policy: SelectionPolicy,
                    leaseID: Option<string>): Result<Lease, EgressError>
  {
    if leaseID.None? then Err(EntropyFailure)
    else Ok(Lease(leaseID.value, jobID, platform, endpoint.id, endpoint.countryCode, now, now + policy.leaseTTL))
  }

  /** A country by the first draw, then an endpoint in it by the second. */
  ghost function DrawLease(records: Records, policy: SelectionPolicy, countries: seq<string>, jobID: string,
                           now: Instant, draws: Draws): Result<Lease, EgressError>
    requires WellKeyed(records)
  {
    if countries == [] || draws.country(|countries|).None? then Err(EntropyFailure)
    else
      var endpoints := EndpointChoices(records, policy, now, countries[draws.country(|countries|).value]);
      if endpoints == [] || draws.endpoint(|endpoints|).None? then Err(EntropyFailure)
      else
        var id := endpoints[draws.endpoint(|endpoints|).value];
        assert id in Ordering.Elements(endpoints);
        NewLease(jobID, PLATFORM_NOSTR, records[id].endpoint, now, policy, draws.leaseID)
  }

  /** The selection for Nostr. */
  ghost function SelectNostr(records: Records, policy: SelectionPolicy, jobID: string, previous: string, now: Instant,
                             draws: Draws): Result<Lease, EgressError>
    requires WellKeyed(records)
  {
    var eligible := EligibleCountries(records, policy, now);
    var countries := CountryChoices(records, policy, previous, now);
    if |eligible| < policy.minHealthyCountries then
      Err(InsufficientCountries(|eligible|, policy.minHealthyCountries))
    else if countries == [] then Err(NoEligibleAlternate)
    else DrawLease(records, policy, countries, jobID, now, draws)
  }

  /** The selection for X: the one stable endpoint or nothing. */
  ghost function SelectX(records: Records, policy: SelectionPolicy, jobID: string, now: Instant,
                         draws: Draws): Result<Lease, EgressError>
  {
    var id := policy.stableXEndpointID;
    if id !in records then Err(UnknownEndpoint)
    else if records[id].endpoint.countryCode != "FR" then Err(StableEndpointNotInFrance)
    else if !records[id].health.Eligible(now, policy.maxHealthAge) then Err(EndpointNotHealthy)
    else NewLease(jobID, PLATFORM_X, records[id].endpoint, now, policy, draws.leaseID)
  }

  ghost function SelectLease(records: Records, policy: SelectionPolicy, jobID: string, platform: string,
                             previous: string, now: Instant, draws: Draws): Result<Lease, EgressError>
    requires WellKeyed(records)
  {
    if !ValidJobID(jobID) then Err(BadJobID)
    else if !ValidPlatform(platform) then Err(BadPlatform)
    else if previous != "" && !ValidCountry(previous) then Err(BadPreviousCountry)
    else if previous != "" && previous !in policy.allowedCountries then Err(PreviousCountryNotAllowed)
    else if platform == PLATFORM_X then SelectX(records, policy, jobID, now, draws)
    else SelectNostr(records, policy, jobID, previous, now, draws)
  }

  /** What NewSelector insists on. */
  ghost predicate PolicyAccepted(policy: SelectionPolicy, records: Records) {
    && policy.minHealthyCountries >= 3
    && policy.maxHealthAge > 0 && policy.leaseTTL > 0
    && |policy.allowedCountries| >= policy.minHealthyCountries
    && (forall c :: c in policy.allowedCountries ==> ValidCountry(c))
    && policy.stableXEndpointID in records
  }

  // Draws and endpoints.

  ghost predicate IsDraw(records: Records, policy: SelectionPolicy, previous: string, now: Instant, i: int, j: int) {
    && 0 <= i < |CountryChoices(records, policy, previous, now)|
    && 0 <= j < |EndpointChoices(records, policy, now, CountryChoices(records, policy, previous, now)[i])|
  }

  ghost function Chosen(records: Records, policy: SelectionPolicy, previous: string, now: Instant, i: int,
                        j: int): string
    requires IsDraw(records, policy, previous, now, i, j)
  {
    EndpointChoices(records, policy, now, CountryChoices(records, policy, previous, now)[i])[j]
  }

  /** Every pair of draws chooses a candidate in the country of the first draw. */
  lemma DrawsHitCandidates(records: Records, policy: SelectionPolicy, previous: string, now: Instant, i: int, j: int)
    requires IsDraw(records, policy, previous, now, i, j)
    ensures Chosen(records, policy, previous, now, i, j) in Candidates(records, policy, previous, now)
    ensures records[Chosen(records, policy, previous, now, i, j)].endpoint.countryCode
         == CountryChoices(records, policy, previous, now)[i]
  {
    var countries := CountryChoices(records, policy, previous, now);
    assert countries[i] in Ordering.Elements(countries);
    var endpoints := EndpointChoices(records, policy, now, countries[i]);
    assert endpoints[j] in Ordering.Elements(endpoints);
  }

  /** Every candidate is chosen by some pair of draws. */
  lemma CandidatesAreHit(records: Records, policy: SelectionPolicy, previous: string, now: Instant, id: string)
    requires id in Candidates(records, policy, previous, now)
    ensures exists i, j :: IsDraw(records, policy, previous, now, i, j)
                             && Chosen(records, policy, previous, now, i, j) == id
  {
    var country := records[id].endpoint.countryCode;
    var countries := CountryChoices(records, policy, previous, now);
    assert country in EligibleCountries(records, policy, now);
    assert country in Ordering.Elements(countries);
    var i :| 0 <= i < |countries| && countries[i] == country;
    var endpoints := EndpointChoices(records, policy, now, country);
    assert id in Ordering.Elements(endpoints);
    var j :| 0 <= j < |endpoints| && endpoints[j] == id;
    assert IsDraw(records, policy, previous, now, i, j);
  }

  /** Different pairs of draws choose different endpoints. */
  lemma DrawsAreInjective(records: Records, policy: SelectionPolicy, previous: string, now: Instant,
                          i: int, j: int, k: int, l: int)
    requires IsDraw(records, policy, previous, now, i, j) && IsDraw(records, policy, previous, now, k, l)
    requires Chosen(records, policy, previous, now, i, j) == Chosen(records, policy, previous, now, k, l)
    ensures i == k && j == l
  {
    DrawsHitCandidates(records, policy, previous, now, i, j);
    DrawsHitCandidates(records, policy, previous, now, k, l);
    IncreasingIsInjective(CountryChoices(records, policy, previous, now), i, k);
    var country := CountryChoices(records, policy, previous, now)[i];
    IncreasingIsInjective(EndpointChoices(records, policy, now, country), j, l);
  }

  lemma IncreasingIsInjective(s: seq<string>, i: int, j: int)
    requires Ordering.Increasing(s) && 0 <= i < |s| && 0 <= j < |s| && s[i] == s[j]
    ensures i == j
  {
    Ordering.LessIrreflexive(s[i]);
  }

  ghost predicate DrawnBy(records: Records, policy: SelectionPolicy, previous: string, now: Instant, i: int, j: int,
                          id: string) {
    IsDraw(records, policy, previous, now, i, j) && Chosen(records, policy, previous, now, i, j) == id
  }

  /** The pairs of draws are in bijection with the candidates. */
  lemma DrawsAreBijective(records: Records, policy: SelectionPolicy, previous: string, now: Instant, id: string)
    ensures id in Candidates(records, policy, previous, now) <==>
            exists i, j :: DrawnBy(records, policy, previous, now, i, j, id)
    ensures forall i, j, k, l ::
              DrawnBy(records, policy, previous, now, i, j, id) && DrawnBy(records, policy, previous, now, k, l, id) ==>
              i == k && j == l
  {
    if id in Candidates(records, policy, previous, now) {
      CandidatesAreHit(records, policy, previous, now, id);
      var i, j :| IsDraw(records, policy, previous, now, i, j) && Chosen(records, policy, previous, now, i, j) == id;
      assert DrawnBy(records, policy, previous, now, i, j, id);
    }
    if i, j :| DrawnBy(records, policy, previous, now, i, j, id) {
      DrawsHitCandidates(records, policy, previous, now, i, j);
    }
    forall i, j, k, l | DrawnBy(records, policy, previous, now, i, j, id)
                     && DrawnBy(records, policy, previous, now, k, l, id)
      ensures i == k && j == l
    {
      DrawsAreInjective(records, policy, previous, now, i, j, k, l);
    }
  }

  /** Each candidate country is one first draw, however many endpoints it has, and
      there are no other first draws. */
  lemma CountriesAreDrawnOnce(records: Records, policy: SelectionPolicy, previous: string, now: Instant,
                              country: string)
    ensures var countries := CountryChoices(records, policy, previous, now);
            && (country in CountriesOf(records, Candidates(records, policy, previous, now)) <==> country in countries)
            && forall i, k :: 0 <= i < k < |countries| ==> !(countries[i] == country == countries[k])
  {
    CandidateCountries(records, policy, previous, now);
    var countries := CountryChoices(records, policy, previous, now);
    assert country in countries <==> country in Ordering.Elements(countries);
    forall i, k | 0 <= i < k < |countries| ensures !(countries[i] == country == countries[k]) {
      if countries[i] == countries[k] {
        IncreasingIsInjective(countries, i, k);
      }
    }
  }

  lemma CandidateCountries(records: Records, policy: SelectionPolicy, previous: string, now: Instant)
    ensures CountriesOf(records, Candidates(records, policy, previous, now))
         == EligibleCountries(records, policy, now) - {previous}
  {
    forall c ensures c in CountriesOf(records, Candidates(records, policy, previous, now))
                <==> c in EligibleCountries(records, policy, now) - {previous}
    {
      if c in EligibleCountries(records, policy, now) - {previous} {
        var id :| id in EligibleIds(records, policy, now) && records[id].endpoint.countryCode == c;
        assert id in Candidates(records, policy, previous, now);
      }
    }
  }

  /** Both draws give an index, and the lease gets an ID. */
  ghost predicate DrawsSucceed(records: Records, policy: SelectionPolicy, previous: string, now: Instant,
                               draws: Draws) {
    var countries := CountryChoices(records, policy, previous, now);
    && countries != []
    && draws.country(|countries|).Some?
    && draws.endpoint(|EndpointChoices(records, policy, now, countries[draws.country(|countries|).value])|).Some?
    && draws.leaseID.Some?
  }

  /** The lease of a Nostr selection, and the only ways to get none: too few countries, or
      a draw that fails. With the minimum of three countries that NewSelector enforces,
      excluding one country always leaves another. */
  lemma NostrSelection(records: Records, policy: SelectionPolicy, jobID: string, previous: string, now: Instant,
                       draws: Draws)
    requires WellKeyed(records) && policy.minHealthyCountries >= 2
    ensures var r := SelectNostr(records, policy, jobID, previous, now, draws);
            && r != Err(NoEligibleAlternate)
            && (r.Ok? ==>
                  && r.value.endpointID in Candidates(records, policy, previous, now)
                  && r.value.countryCode == records[r.value.endpointID].endpoint.countryCode
                  && r.value.jobID == jobID && r.value.platform == PLATFORM_NOSTR
                  && r.value.issuedAt == now && r.value.expiresAt == now + policy.leaseTTL)
            && (r.Err? ==>
                  || r.error == InsufficientCountries(|EligibleCountries(records, policy, now)|,
                                                      policy.minHealthyCountries)
                  || r.error == EntropyFailure)
            && (r.Err? && r.error.InsufficientCountries? <==>
                  |EligibleCountries(records, policy, now)| < policy.minHealthyCountries)
            && (r.Ok? <==>
                  && |EligibleCountries(records, policy, now)| >= policy.minHealthyCountries
                  && DrawsSucceed(records, policy, previous, now, draws))
  {
    if |EligibleCountries(records, policy, now)| >= policy.minHealthyCountries {
      AnotherCountryIsLeft(records, policy, previous, now);
      DrawSucceedsIff(records, policy, jobID, previous, now, draws);
    }
    if SelectNostr(records, policy, jobID, previous, now, draws).Ok? {
      LeaseIsCandidate(records, policy, jobID, previous, now, draws);
    }
  }

  lemma AnotherCountryIsLeft(records: Records, policy: SelectionPolicy, previous: string, now: Instant)
    requires |EligibleCountries(records, policy, now)| >= 2
    ensures CountryChoices(records, policy, previous, now) != []
  {
    var eligible := EligibleCountries(records, policy, now);
    assert |eligible - {previous}| >= |eligible| - 1;
  }

  lemma DrawSucceedsIff(records: Records, policy: SelectionPolicy, jobID: string, previous: string, now: Instant,
                        draws: Draws)
    requires WellKeyed(records) && CountryChoices(records, policy, previous, now) != []
    ensures var countries := CountryChoices(records, policy, previous, now);
            var r := DrawLease(records, policy, countries, jobID, now, draws);
            && (r.Ok? <==> DrawsSucceed(records, policy, previous, now, draws))
            && (r.Err? ==> r.error == EntropyFailure)
  {
    var countries := CountryChoices(records, policy, previous, now);
    if draws.country(|countries|).Some? {
      CountryHasEndpoints(records, policy, previous, now, draws.country(|countries|).value);
    }
  }

  lemma LeaseIsCandidate(records: Records, policy: SelectionPolicy, jobID: string, previous: string, now: Instant,
                         draws: Draws)
    requires WellKeyed(records) && SelectNostr(records, policy, jobID, previous, now, draws).Ok?
    ensures var lease := SelectNostr(records, policy, jobID, previous, now, draws).value;
            && lease.endpointID in Candidates(records, policy, previous, now)
            && lease.countryCode == records[lease.endpointID].endpoint.countryCode
            && lease.jobID == jobID && lease.platform == "nostr"
            && lease.issuedAt == now && lease.expiresAt == now + policy.leaseTTL
  {
    LeaseFollowsDraws(records, policy, jobID, previous, now, draws);
    var countries := CountryChoices(records, policy, previous, now);
    var i := draws.country(|countries|).value;
    var endpoints := EndpointChoices(records, policy, now, countries[i]);
    DrawsHitCandidates(records, policy, previous, now, i, draws.endpoint(|endpoints|).value);
  }

  /** A Nostr lease names the endpoint that the two draws choose, and carries the ID drawn. */
  lemma LeaseFollowsDraws(records: Records, policy: SelectionPolicy, jobID: string, previous: string, now: Instant,
                          draws: Draws)
    requires WellKeyed(records) && SelectNostr(records, policy, jobID, previous, now, draws).Ok?
    ensures var lease := SelectNostr(records, policy, jobID, previous, now, draws).value;
            var countries := CountryChoices(records, policy, previous, now);
            && countries != [] && draws.country(|countries|).Some? && draws.leaseID == Some(lease.id)
            && var i := draws.country(|countries|).value;
               var endpoints := EndpointChoices(records, policy, now, countries[i]);
               && endpoints != [] && draws.endpoint(|endpoints|).Some?
               && DrawnBy(records, policy, previous, now, i, draws.endpoint(|endpoints|).value, lease.endpointID)
  {
    var countries := CountryChoices(records, policy, previous, now);
    var i := draws.country(|countries|).value;
    var endpoints := EndpointChoices(records, policy, now, countries[i]);
    var j := draws.endpoint(|endpoints|).value;
    assert endpoints[j] in Ordering.Elements(endpoints);
    assert IsDraw(records, policy, previous, now, i, j);
  }

  /** What is refused before anything is selected, and in which order. */
  lemma SelectionIsRefused(records: Records, policy: SelectionPolicy, jobID: string, platform: string, previous: string,
                           now: Instant, draws: Draws)
    requires WellKeyed(records)
    ensures var r := SelectLease(records, policy, jobID, platform, previous, now, draws);
            && (!ValidJobID(jobID) ==> r == Err(BadJobID))
            && (ValidJobID(jobID) && platform !in {"x", "nostr"} ==> r == Err(BadPlatform))
            && (ValidJobID(jobID) && platform in {"x", "nostr"} ==>
                  && (previous != "" && !ValidCountry(previous) ==> r == Err(BadPreviousCountry))
                  && (ValidCountry(previous) && previous !in policy.allowedCountries ==>
                        r == Err(PreviousCountryNotAllowed))
                  && (previous == "" || (ValidCountry(previous) && previous in policy.allowedCountries) ==>
                        && (platform == "x" ==> r == SelectX(records, policy, jobID, now, draws))
                        && (platform == "nostr" ==> r == SelectNostr(records, policy, jobID, previous, now, draws))))
  {
    assert "x" != "nostr" by {
      assert |"x"| == 1;
    }
  }

  /** Why X gets no lease. */
  lemma XIsRefused(records: Records, policy: SelectionPolicy, jobID: string, now: Instant, draws: Draws)
    ensures var r := SelectX(records, policy, jobID, now, draws);
            var id := policy.stableXEndpointID;
            && (r == Err(UnknownEndpoint) <==> id !in records)
            && (r == Err(StableEndpointNotInFrance) <==> id in records && records[id].endpoint.countryCode != "FR")
            && (r == Err(EndpointNotHealthy) <==>
                  && id in records && records[id].endpoint.countryCode == "FR"
                  && !records[id].health.Eligible(now, policy.maxHealthAge))
            && (r == Err(EntropyFailure) <==>
                  && id in records && records[id].endpoint.countryCode == "FR"
                  && records[id].health.Eligible(now, policy.maxHealthAge) && draws.leaseID.None?)
  {
  }

  /** A country that can be drawn has an endpoint to draw. */
  lemma CountryHasEndpoints(records: Records, policy: SelectionPolicy, previous: string, now: Instant, i: int)
    requires 0 <= i < |CountryChoices(records, policy, previous, now)|
    ensures EndpointChoices(records, policy, now, CountryChoices(records, policy, previous, now)[i]) != []
  {
    var countries := CountryChoices(records, policy, previous, now);
    assert countries[i] in Ordering.Elements(countries);
    var id :| id in EligibleIds(records, policy, now) && records[id].endpoint.countryCode == countries[i];
    assert id in Ordering.Elements(EndpointChoices(records, policy, now, countries[i]));
  }

  /** A failed probe, of either kind and whatever it reports, makes no endpoint selectable. */
  lemma FailedProbeShrinksCandidates(records: Records, policy: SelectionPolicy, previous: string, now: Instant,
                                     call: Call)
    requires call.Probe().Failed()
    ensures Candidates(Step(records, call), policy, previous, now) <= Candidates(records, policy, previous, now)
    ensures EligibleCountries(Step(records, call), policy, now) <= EligibleCountries(records, policy, now)
    ensures call.Accepted(records) ==> call.Target() !in EligibleIds(Step(records, call), policy, now)
  {
    var after := Step(records, call);
    forall id | id in EligibleIds(after, policy, now) ensures id in EligibleIds(records, policy, now) {
      assert call.Accepted(records) ==> id != call.Target();
    }
    forall c | c in EligibleCountries(after, policy, now) ensures c in EligibleCountries(records, policy, now) {
      var id :| id in EligibleIds(after, policy, now) && after[id].endpoint.countryCode == c;
      assert id in EligibleIds(records, policy, now);
    }
  }
}
