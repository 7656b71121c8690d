/** The selector: the loops and sorts that carry out a selection. */
module EgressSelector {
  import opened Wrappers
  import opened EgressTypes
  import opened EgressRegistry
  import opened EgressSelection
  import Ordering

  type Groups = map<string, seq<Endpoint>>

  function EndpointID(e: Endpoint): string {
    e.id
  }

  /** The groups hold the endpoints with the given IDs, each once, under their countries. */
  ghost predicate Grouped(byCountry: Groups, records: Records, ids: set<string>) {
    && (forall c :: c in byCountry ==> GroupOf(byCountry[c], records, ids, c))
    && forall id :: id in ids ==> 
         && id in records
         && records[id].endpoint.countryCode in byCountry
         && records[id].endpoint in byCountry[records[id].endpoint.countryCode]
  }

  ghost predicate GroupOf(group: seq<Endpoint>, records: Records, ids: set<string>, country: string) {
    && group != []
    && (forall i :: 0 <= i < |group| ==>
          group[i].id in ids && group[i].id in records
          && records[group[i].id].endpoint == group[i] && group[i].countryCode == country)
    && forall i, j :: 0 <= i < j < |group| ==> EndpointID(group[i]) != EndpointID(group[j])
  }

  function AppendTo(byCountry: Groups, e: Endpoint): Groups {
    byCountry[e.countryCode := (if e.countryCode in byCountry then byCountry[e.countryCode] else []) + [e]]
  }

  lemma GroupedNext(byCountry: Groups, records: Records, ids: set<string>, e: Endpoint)
    requires Grouped(byCountry, records, ids) && e.id !in ids && e.id in records && records[e.id].endpoint == e
    ensures Grouped(AppendTo(byCountry, e), records, ids + {e.id})
  {
    var after := AppendTo(byCountry, e);
    forall c | c in after ensures GroupOf(after[c], records, ids + {e.id}, c) {
      if c in byCountry {
        assert GroupOf(byCountry[c], records, ids, c);
      }
    }
    forall id | id in ids + {e.id}
      ensures id in records && records[id].endpoint.countryCode in after
           && records[id].endpoint in after[records[id].endpoint.countryCode]
    {
      if id != e.id {
        assert records[id].endpoint in byCountry[records[id].endpoint.countryCode];
      }
    }
  }

  /** The first k items, filtered as a selection filters them, have the IDs `seen`. */
  ghost predicate Seen(seen: set<string>, listing: seq<string>, eligible: set<string>, k: int) {
    && 0 <= k <= |listing|
    && seen <= eligible
    && (forall m :: 0 <= m < k && listing[m] in eligible ==> listing[m] in seen)
    && forall m :: k <= m < |listing| ==> listing[m] !in seen
  }

  lemma SeenNext(seen: set<string>, listing: seq<string>, eligible: set<string>, k: int)
    requires Ordering.Increasing(listing) && Seen(seen, listing, eligible, k) && k < |listing|
    ensures Seen(if listing[k] in eligible then seen + {listing[k]} else seen, listing, eligible, k + 1)
  {
    forall m | k < m < |listing| ensures listing[m] != listing[k] {
      if listing[m] == listing[k] {
        IncreasingIsInjective(listing, m, k);
      }
    }
  }

  method GroupEligible(items: seq<Item>, policy: SelectionPolicy, now: Instant, ghost records: Records)
    returns (byCountry: Groups)
    requires WellKeyed(records) && SortedView(items, records)
    ensures Grouped(byCountry, records, EligibleIds(records, policy, now))
  {
    byCountry := map[];
    ghost var listing := Ordering.Listing(records.Keys);
    ghost var eligible := EligibleIds(records, policy, now);
    ghost var seen: set<string> := {};
    for k := 0 to |items|
      invariant Grouped(byCountry, records, seen) && Seen(seen, listing, eligible, k)
    {
      var item := items[k];
      SeenNext(seen, listing, eligible, k);
      if item.endpoint.countryCode !in policy.allowedCountries {
        continue;
      }
      if !item.health.Eligible(now, policy.maxHealthAge) {
        continue;
      }
      GroupedNext(byCountry, records, seen, item.endpoint);
      byCountry := AppendTo(byCountry, item.endpoint);
      seen := seen + {listing[k]};
    }
    assert seen == eligible by {
      forall id | id in eligible ensures id in seen {
        assert id in Ordering.Elements(listing);
      }
    }
  }

  /** Walks the map of groups; any order of its keys may come out before sorting. */
  method OtherCountries(byCountry: Groups, previous: string) returns (countries: seq<string>)
    ensures countries == Ordering.Listing(byCountry.Keys - {previous})
  {
    var collected: seq<string> := [];
    var pending := byCountry.Keys;
    while pending != {}
      invariant pending <= byCountry.Keys
      invariant forall i, j :: 0 <= i < j < |collected| ==>
                  Ordering.Itself(collected[i]) != Ordering.Itself(collected[j])
      invariant forall c :: c in collected <==> c in byCountry.Keys - pending - {previous}
      decreases pending
    {
      var country :| country in pending;
      assert country !in collected;
      pending := pending - {country};
      if country != previous {
        collected := collected + [country];
      }
    }
    countries := Ordering.SortBy(collected, Ordering.Itself);
    forall c | c in byCountry.Keys - {previous} ensures exists x :: x in collected && Ordering.Itself(x) == c {
      assert c in collected && Ordering.Itself(c) == c;
    }
    SortedListing(collected, countries, Ordering.Itself, byCountry.Keys - {previous});
  }

  /** Sorting a sequence with the given distinct keys lists the keys. */
  lemma SortedListing<T>(unsorted: seq<T>, sorted: seq<T>, key: T -> string, keys: set<string>)
    requires multiset(sorted) == multiset(unsorted)
    requires forall i, j :: 0 <= i < j < |unsorted| ==> key(unsorted[i]) != key(unsorted[j])
    requires forall i, j :: 0 <= i < j < |sorted| ==> !Ordering.Less(key(sorted[j]), key(sorted[i]))
    requires forall x :: x in unsorted ==> key(x) in keys
    requires forall k :: k in keys ==> exists x :: x in unsorted && key(x) == k
    ensures |sorted| == |Ordering.Listing(keys)|
    ensures forall i :: 0 <= i < |sorted| ==> key(sorted[i]) == Ordering.Listing(keys)[i]
  {
    Ordering.PermutationElements(unsorted, sorted);
    Ordering.PermutationKeepsDistinctKeys(unsorted, sorted, key);
    forall k | k in keys ensures exists i :: 0 <= i < |sorted| && key(sorted[i]) == k {
      var x :| x in unsorted && key(x) == k;
      assert x in sorted;
    }
    Ordering.SortedKeysAreListing(sorted, key, keys);
  }

  lemma GroupCountries(byCountry: Groups, records: Records, ids: set<string>)
    requires Grouped(byCountry, records, ids)
    ensures byCountry.Keys == CountriesOf(records, ids)
  {
    forall c | c in byCountry ensures c in CountriesOf(records, ids) {
      assert GroupOf(byCountry[c], records, ids, c);
      assert byCountry[c][0].id in ids;
    }
  }

  method SortGroup(byCountry: Groups, country: string, ghost records: Records, ghost ids: set<string>)
    returns (endpoints: seq<Endpoint>)
    requires WellKeyed(records) && Grouped(byCountry, records, ids) && country in byCountry
    ensures |endpoints| == |Ordering.Listing(InCountry(records, ids, country))| > 0
    ensures forall i :: 0 <= i < |endpoints| ==>
              var id := Ordering.Listing(InCountry(records, ids, country))[i];
              id in records && endpoints[i] == records[id].endpoint && endpoints[i].id == id
  {
    var group := byCountry[country];
    assert GroupOf(group, records, ids, country);
    endpoints := Ordering.SortBy(group, EndpointID);
    forall k | k in InCountry(records, ids, country) ensures exists x :: x in group && EndpointID(x) == k {
      assert records[k].endpoint in group;
      assert EndpointID(records[k].endpoint) == k;
    }
    SortedListing(group, endpoints, EndpointID, InCountry(records, ids, country));
    Ordering.PermutationElements(group, endpoints);
    forall i | 0 <= i < |endpoints|
      ensures endpoints[i].id in records && endpoints[i] == records[endpoints[i].id].endpoint
    {
      assert endpoints[i] in group;
    }
    assert |multiset(endpoints)| == |multiset(group)|;
  }

  class Selector {
    const registry: Registry
    const policy: SelectionPolicy

    constructor (registry: Registry, policy: SelectionPolicy)
      ensures this.registry == registry && this.policy == policy
    {
      this.registry := registry;
      this.policy := policy;
    }

    static method New(registry: Registry?, policy: SelectionPolicy) returns (r: Result<Selector, EgressError>)
      requires registry != null ==> registry.Valid()
      ensures r.Ok? <==> registry != null && PolicyAccepted(policy, registry.records)
      ensures r.Ok? <==>
                && registry != null
                && 3 <= policy.minHealthyCountries <= |policy.allowedCountries|
                && policy.maxHealthAge > 0 && policy.leaseTTL > 0
                && (forall c :: c in policy.allowedCountries ==> |c| == 2 && 'A' <= c[0] <= 'Z' && 'A' <= c[1] <= 'Z')
                && policy.stableXEndpointID in registry.records
      ensures r.Err? ==> r.error in {BadPolicy, UnknownEndpoint}
      ensures r == Err(UnknownEndpoint) ==> registry != null && policy.stableXEndpointID !in registry.records
      ensures r.Ok? ==> fresh(r.value) && r.value.registry == registry && r.value.policy == policy
    {
      if registry == null {
        return Err(BadPolicy);
      }
      if policy.minHealthyCountries < 3 {
        return Err(BadPolicy);
      }
      if policy.maxHealthAge <= 0 || policy.leaseTTL <= 0 {
        return Err(BadPolicy);
      }
      if |policy.allowedCountries| < policy.minHealthyCountries {
        return Err(BadPolicy);
      }
      var pending := policy.allowedCountries;
      while pending != {}
        invariant pending <= policy.allowedCountries
        invariant forall c :: c in policy.allowedCountries - pending ==> ValidCountry(c)
        decreases pending
      {
        var country :| country in pending;
        if !ValidCountry(country) {
          return Err(BadPolicy);
        }
        pending := pending - {country};
      }
      var stable := registry.Resolve(policy.stableXEndpointID);
      if stable.Err? {
        return Err(stable.error);
      }
      var selector := new Selector(registry, policy);
      return Ok(selector);
    }

    /** The lease is the one that the contents, the policy, the inputs and the
        draws determine, in whatever order the maps are walked. */
    method Select(jobID: string, platform: string, previousCountry: string, now: Instant, draws: Draws)
      returns (r: Result<Lease, EgressError>)
      requires registry.Valid()
      ensures r == SelectLease(registry.records, policy, jobID, platform, previousCountry, now, draws)
    {
      if !ValidJobID(jobID) {
        return Err(BadJobID);
      }
      if !ValidPlatform(platform) {
        return Err(BadPlatform);
      }
      if previousCountry != "" {
        if !ValidCountry(previousCountry) {
          return Err(BadPreviousCountry);
        }
        if previousCountry !in policy.allowedCountries {
          return Err(PreviousCountryNotAllowed);
        }
      }
      if platform == PLATFORM_X {
        r := SelectStableX(jobID, now, draws);
        return;
      }
      r := SelectRotating(jobID, previousCountry, now, draws);
    }

    method SelectRotating(jobID: string, previousCountry: string, now: Instant, draws: Draws)
      returns (r: Result<Lease, EgressError>)
      requires registry.Valid()
      ensures r == SelectNostr(registry.records, policy, jobID, previousCountry, now, draws)
    {
      var items := registry.Snapshot();
      var byCountry := GroupEligible(items, policy, now, registry.records);
      ghost var eligible := EligibleIds(registry.records, policy, now);
      GroupCountries(byCountry, registry.records, eligible);
      if |byCountry.Keys| < policy.minHealthyCountries {
        return Err(InsufficientCountries(|byCountry.Keys|, policy.minHealthyCountries));
      }
      var countries := OtherCountries(byCountry, previousCountry);
      assert forall c :: c in countries ==> c in Ordering.Elements(countries);
      if |countries| == 0 {
        return Err(NoEligibleAlternate);
      }
      r := DrawFrom(byCountry, countries, jobID, now, draws);
    }

    method DrawFrom(byCountry: Groups, countries: seq<string>, jobID: string, now: Instant, draws: Draws)
      returns (r: Result<Lease, EgressError>)
      requires registry.Valid() && Grouped(byCountry, registry.records, EligibleIds(registry.records, policy, now))
      requires countries != [] && forall c :: c in countries ==> c in byCountry
      ensures r == DrawLease(registry.records, policy, countries, jobID, now, draws)
    {
      var countryIndex := draws.country(|countries|);
      if countryIndex.None? {
        return Err(EntropyFailure);
      }
      var country := countries[countryIndex.value];
      var endpoints := SortGroup(byCountry, country, registry.records, EligibleIds(registry.records, policy, now));
      var endpointIndex := draws.endpoint(|endpoints|);
      if endpointIndex.None? {
        return Err(EntropyFailure);
      }
      return NewLease(jobID, PLATFORM_NOSTR, endpoints[endpointIndex.value], now, policy, draws.leaseID);
    }

    method SelectStableX(jobID: string, now: Instant, draws: Draws) returns (r: Result<Lease, EgressError>)
      requires registry.Valid()
      ensures r == SelectX(registry.records, policy, jobID, now, draws)
    {
      var stable := registry.Resolve(policy.stableXEndpointID);
      if stable.Err? {
        return Err(stable.error);
      }
      var (endpoint, health) := stable.value;
      if endpoint.countryCode != "FR" {
        return Err(StableEndpointNotInFrance);
      }
      if !health.Eligible(now, policy.maxHealthAge) {
        return Err(EndpointNotHealthy);
      }
      return NewLease(jobID, PLATFORM_X, endpoint, now, policy, draws.leaseID);
    }
  }
}
