/** The registry of endpoints: a map of records changed in place by probes. */
module EgressRegistry {
  import opened Wrappers
  import opened EgressTypes
  import opened ProbeHistory
  import Ordering

  /** A call that may change a record. */
  datatype Call = ApplyProbe(report: ProbeReport) | MarkProbe(id: string, healthy: bool, now: Instant) {
    function Target(): string {
      match this
      case ApplyProbe(r) => r.endpointID
      case MarkProbe(id, _, _) => id
    }

    function Probe(): Probe {
      match this
      case ApplyProbe(r) => Report(r)
      case MarkProbe(_, ok, now) => Mark(ok, now)
    }

    predicate Accepted(records: Records) {
      Target() in records && (ApplyProbe? ==> report.checkedAt != 0)
    }
  }

  /** The records after a call; a refused call changes nothing. */
  function Step(records: Records, call: Call): Records {
    if call.Accepted(records)
    then records[call.Target() := records[call.Target()].(health := call.Probe().Apply(records[call.Target()].health))]
    else records
  }

  function RunFrom(records: Records, calls: seq<Call>): Records {
    if calls == [] then records
    else Step(RunFrom(records, calls[..|calls| - 1]), calls[|calls| - 1])
  }

  /** The accepted probes of one endpoint, in order. */
  ghost function HistoryOf(records: Records, calls: seq<Call>, id: string): seq<Probe> {
    if calls == [] then []
    else
      var last := calls[|calls| - 1];
      HistoryOf(records, calls[..|calls| - 1], id)
      + if last.Target() == id && last.Accepted(records) then [last.Probe()] else []
  }

  ghost predicate AllFresh(records: Records) {
    forall id :: id in records ==> records[id].health == FRESH
  }

  /** Each record of a run holds the health of its own endpoint's history, and
      nothing else about the registry moves. */
  ghost predicate HoldsHistories(records: Records, calls: seq<Call>) {
    && RunFrom(records, calls).Keys == records.Keys
    && forall id :: id in records ==>
         RunFrom(records, calls)[id] == Record(records[id].endpoint, HealthAfter(HistoryOf(records, calls, id)))
  }

  lemma {:induction false} RunRefinesHistories(records: Records, calls: seq<Call>)
    requires AllFresh(records)
    ensures HoldsHistories(records, calls)
  {
    if calls != [] {
      RunRefinesHistories(records, calls[..|calls| - 1]);
      forall id | id in records
        ensures id in RunFrom(records, calls)
        ensures RunFrom(records, calls)[id] == Record(records[id].endpoint, HealthAfter(HistoryOf(records, calls, id)))
      {
        LastCallRefines(records, calls, id);
      }
    }
  }

  lemma LastCallRefines(records: Records, calls: seq<Call>, id: string)
    requires calls != [] && id in records && HoldsHistories(records, calls[..|calls| - 1])
    ensures id in RunFrom(records, calls)
    ensures RunFrom(records, calls)[id] == Record(records[id].endpoint, HealthAfter(HistoryOf(records, calls, id)))
  {
    var last := calls[|calls| - 1];
    var history := HistoryOf(records, calls[..|calls| - 1], id);
    assert last.Accepted(RunFrom(records, calls[..|calls| - 1])) <==> last.Accepted(records);
    if last.Target() == id && last.Accepted(records) {
      assert (history + [last.Probe()])[..|history|] == history;
    } else {
      assert HistoryOf(records, calls, id) == history;
    }
  }

  /** After any run from a fresh registry an endpoint is eligible exactly when its
      accepted probes say so. */
  lemma EligibleAfterRunIff(records: Records, calls: seq<Call>, id: string, now: Instant, maxAge: int)
    requires AllFresh(records) && id in records && maxAge <= MAX_DURATION
    ensures id in RunFrom(records, calls)
    ensures var history := HistoryOf(records, calls, id);
            RunFrom(records, calls)[id].health.Eligible(now, maxAge) <==>
            && history != []
            && !HardFailureIn(history)
            && !ThreeFailuresInARow(history)
            && !history[|history| - 1].Failed()
            && history[|history| - 1].Time() != 0
            && maxAge > 0
            && 0 <= now - history[|history| - 1].Time()
            && (now - history[|history| - 1].Time() <= maxAge || maxAge == MAX_DURATION)
  {
    RunRefinesHistories(records, calls);
    EligibleIffHistory(HistoryOf(records, calls, id), now, maxAge);
  }

  /** Quarantine outlasts every later probe: only SetHealth can lift it. */
  lemma {:induction false} QuarantineIsPermanent(records: Records, calls: seq<Call>, id: string)
    requires id in records && records[id].health.quarantined
    ensures id in RunFrom(records, calls) && RunFrom(records, calls)[id].health.quarantined
  {
    if calls != [] {
      QuarantineIsPermanent(records, calls[..|calls| - 1], id);
    }
  }

  /** The endpoint list offends at k: the endpoint is malformed or repeats an ID. */
  ghost predicate OffendsAt(endpoints: seq<Endpoint>, k: int) {
    && 0 <= k < |endpoints|
    && (!endpoints[k].Valid() || exists j :: 0 <= j < k && endpoints[j].id == endpoints[k].id)
  }

  ghost predicate FirstOffence(endpoints: seq<Endpoint>, k: int) {
    OffendsAt(endpoints, k) && forall j :: j < k ==> !OffendsAt(endpoints, j)
  }

  /** The registry holds the first n endpoints, unprobed, and nothing else. */
  ghost predicate Registers(records: Records, endpoints: seq<Endpoint>, n: int) {
    && 0 <= n <= |endpoints|
    && (forall i :: 0 <= i < n ==>
          endpoints[i].id in records && records[endpoints[i].id] == Record(endpoints[i], FRESH))
    && forall id :: id in records ==> exists i :: 0 <= i < n && endpoints[i].id == id
  }

  lemma RegistersNext(records: Records, endpoints: seq<Endpoint>, n: int)
    requires 0 <= n < |endpoints| && Registers(records, endpoints, n)
    requires endpoints[n].id !in records
    ensures Registers(records[endpoints[n].id := Record(endpoints[n], FRESH)], endpoints, n + 1)
  {
    var records' := records[endpoints[n].id := Record(endpoints[n], FRESH)];
    forall id | id in records' ensures exists i :: 0 <= i < n + 1 && endpoints[i].id == id {
      if id in records {
        var i :| 0 <= i < n && endpoints[i].id == id;
      }
    }
  }

  lemma RegistersWellFormed(records: Records, endpoints: seq<Endpoint>)
    requires Registers(records, endpoints, |endpoints|)
    requires forall k :: !OffendsAt(endpoints, k)
    ensures WellFormed(records) && AllFresh(records)
  {
    forall id | id in records
      ensures records[id].endpoint.id == id && records[id].endpoint.Valid() && records[id].health == FRESH
    {
      var i :| 0 <= i < |endpoints| && endpoints[i].id == id;
      assert !OffendsAt(endpoints, i);
    }
  }

  datatype Item = Item(endpoint: Endpoint, health: Health)

  ghost function ItemOf(records: Records, id: string): Item
    requires id in records
  {
    Item(records[id].endpoint, records[id].health)
  }

  /** The items are the records of the given IDs, each once. */
  ghost predicate Lists(items: seq<Item>, records: Records, ids: set<string>) {
    && (forall i :: 0 <= i < |items| ==>
          && items[i].endpoint.id in ids && items[i].endpoint.id in records
          && items[i] == ItemOf(records, items[i].endpoint.id))
    && (forall i, j :: 0 <= i < j < |items| ==> items[i].endpoint.id != items[j].endpoint.id)
    && forall id :: id in ids ==> exists i :: 0 <= i < |items| && items[i].endpoint.id == id
  }

  lemma ListsNext(items: seq<Item>, records: Records, ids: set<string>, id: string, item: Item)
    requires Lists(items, records, ids) && id in records && id !in ids
    requires item == ItemOf(records, id) && item.endpoint.id == id
    ensures Lists(items + [item], records, ids + {id})
  {
    var items' := items + [item];
    forall x | x in ids + {id} ensures exists i :: 0 <= i < |items'| && items'[i].endpoint.id == x {
      if x in ids {
        var i :| 0 <= i < |items| && items[i].endpoint.id == x;
        assert items'[i].endpoint.id == x;
      } else {
        assert items'[|items|].endpoint.id == x;
      }
    }
  }

  function IdOf(item: Item): string {
    item.endpoint.id
  }

  /** Sorting by ID turns a listing of the whole registry into the one sorted view. */
  lemma SortedViewIsUnique(unsorted: seq<Item>, items: seq<Item>, records: Records)
    requires Lists(unsorted, records, records.Keys) && multiset(items) == multiset(unsorted)
    requires forall i, j :: 0 <= i < j < |items| ==> !Ordering.Less(IdOf(items[j]), IdOf(items[i]))
    ensures SortedView(items, records)
  {
    Ordering.PermutationElements(unsorted, items);
    Ordering.PermutationKeepsDistinctKeys(unsorted, items, IdOf);
    forall i | 0 <= i < |items|
      ensures IdOf(items[i]) in records && items[i] == ItemOf(records, IdOf(items[i]))
    {
      assert items[i] in unsorted;
    }
    forall id | id in records.Keys ensures exists i :: 0 <= i < |items| && IdOf(items[i]) == id {
      var k :| 0 <= k < |unsorted| && unsorted[k].endpoint.id == id;
      assert unsorted[k] in items;
    }
    Ordering.SortedKeysAreListing(items, IdOf, records.Keys);
  }

  /** The items in the order of their IDs. */
  ghost predicate SortedView(items: seq<Item>, records: Records) {
    && |items| == |records|
    && forall i :: 0 <= i < |items| ==>
         Ordering.Listing(records.Keys)[i] in records && items[i] == ItemOf(records, Ordering.Listing(records.Keys)[i])
  }

  class Registry {
    var records: Records

    ghost predicate Valid() reads this {
      WellFormed(records)
    }

    constructor (records: Records)
      ensures this.records == records
    {
      this.records := records;
    }

    static method New(endpoints: seq<Endpoint>) returns (r: Result<Registry, EgressError>)
      ensures r.Ok? <==> endpoints != [] && forall k :: !OffendsAt(endpoints, k)
      ensures r.Ok? ==> fresh(r.value) && r.value.Valid() && AllFresh(r.value.records)
      ensures r.Ok? ==> Registers(r.value.records, endpoints, |endpoints|)
      ensures r.Err? && endpoints == [] ==> r.error == EmptyRegistry
      ensures r.Err? && endpoints != [] ==>
                exists k :: && FirstOffence(endpoints, k)
                            && (if endpoints[k].Valid() then r.error == DuplicateEndpoint(endpoints[k].id)
                                else r.error == BadEndpoint)
    {
      var registered := RegisterAll(endpoints);
      if registered.Err? {
        return Err(registered.error);
      }
      RegistersWellFormed(registered.value, endpoints);
      var registry := new Registry(registered.value);
      return Ok(registry);
    }

    method Resolve(id: string) returns (r: Result<(Endpoint, Health), EgressError>)
      requires Valid()
      ensures r == if id in records then Ok((records[id].endpoint, records[id].health)) else Err(UnknownEndpoint)
    {
      if !ValidEndpointID(id) {
        return Err(UnknownEndpoint);
      }
      if id !in records {
        return Err(UnknownEndpoint);
      }
      return Ok((records[id].endpoint, records[id].health));
    }

    /** Operator override: the only way out of quarantine. */
    method SetHealth(id: string, health: Health) returns (r: Result<(), EgressError>)
      requires Valid()
      modifies this
      ensures Valid()
      ensures r == if id in old(records) then Ok(()) else Err(UnknownEndpoint)
      ensures records == if id !in old(records) then old(records)
                         else old(records)[id := Record(old(records)[id].endpoint, health)]
    {
      if id !in records {
        return Err(UnknownEndpoint);
      }
      var record := records[id];
      record := record.(health := health);
      records := records[id := record];
      return Ok(());
    }

    method MarkProbe(id: string, healthy: bool, now: Instant) returns (r: Result<(), EgressError>)
      requires Valid()
      modifies this
      ensures Valid()
      ensures records == Step(old(records), Call.MarkProbe(id, healthy, now))
      ensures r == if id in old(records) then Ok(()) else Err(UnknownEndpoint)
      ensures r.Err? ==> records == old(records)
      ensures r.Ok? ==> id in records && records[id].health.checkedAt == now && records[id].health.healthy == healthy
    {
      if id !in records {
        return Err(UnknownEndpoint);
      }
      var record := records[id];
      var health := record.health;
      health := health.(checkedAt := now, healthy := healthy);
      if healthy {
        health := health.(failures := 0);
      } else {
        health := health.(failures := Increment(health.failures));
        if health.failures >= 3 {
          health := health.(quarantined := true);
        }
      }
      records := records[id := record.(health := health)];
      return Ok(());
    }

    method ApplyProbe(report: ProbeReport) returns (r: Result<(), EgressError>)
      requires Valid()
      modifies this
      ensures Valid()
      ensures records == Step(old(records), Call.ApplyProbe(report))
      ensures r == if report.checkedAt == 0 then Err(MissingTimestamp)
                   else if report.endpointID in old(records) then Ok(()) else Err(UnknownEndpoint)
      ensures r.Err? ==> records == old(records)
      ensures r.Ok? ==> report.endpointID in records && records[report.endpointID].health.checkedAt == report.checkedAt
    {
      if report.checkedAt == 0 {
        return Err(MissingTimestamp);
      }
      if report.endpointID !in records {
        return Err(UnknownEndpoint);
      }
      var record := records[report.endpointID];
      var health := record.health.(checkedAt := report.checkedAt);
      var hardFailure :=
        !report.staticIPMatch || !report.countryMatch || report.dnsLeak || report.routeLeak || !report.tlsValid;
      if hardFailure {
        health := health.(healthy := false);
        health := health.(failures := Increment(health.failures));
        health := health.(quarantined := true);
      } else if !report.reachable {
        health := health.(healthy := false);
        health := health.(failures := Increment(health.failures));
        if health.failures >= 3 {
          health := health.(quarantined := true);
        }
      } else if !health.quarantined {
        health := health.(healthy := true);
        health := health.(failures := 0);
      }
      records := records[report.endpointID := record.(health := health)];
      return Ok(());
    }

    /** The records sorted by endpoint ID, whatever order the map is walked in. */
    method Snapshot() returns (items: seq<Item>)
      requires Valid()
      ensures SortedView(items, records)
    {
      var unsorted := Walk(records);
      items := Ordering.SortBy(unsorted, IdOf);
      SortedViewIsUnique(unsorted, items, records);
    }
  }

  method RegisterAll(endpoints: seq<Endpoint>) returns (r: Result<Records, EgressError>)
    ensures r.Ok? <==> endpoints != [] && forall k :: !OffendsAt(endpoints, k)
    ensures r.Ok? ==> Registers(r.value, endpoints, |endpoints|)
    ensures r.Err? && endpoints == [] ==> r.error == EmptyRegistry
    ensures r.Err? && endpoints != [] ==>
              exists k :: && FirstOffence(endpoints, k)
                          && (if endpoints[k].Valid() then r.error == DuplicateEndpoint(endpoints[k].id)
                              else r.error == BadEndpoint)
  {
    var records: Records := map[];
    for k := 0 to |endpoints|
      invariant Registers(records, endpoints, k)
      invariant forall j :: j < k ==> !OffendsAt(endpoints, j)
    {
      var endpoint := endpoints[k];
      if !endpoint.Valid() {
        assert FirstOffence(endpoints, k);
        return Err(BadEndpoint);
      }
      if endpoint.id in records {
        assert FirstOffence(endpoints, k);
        return Err(DuplicateEndpoint(endpoint.id));
      }
      assert !OffendsAt(endpoints, k);
      RegistersNext(records, endpoints, k);
      records := records[endpoint.id := Record(endpoint, FRESH)];
    }
    assert endpoints != [] ==> endpoints[0].id in records;
    if |records| == 0 {
      return Err(EmptyRegistry);
    }
    return Ok(records);
  }

  /** Walks a map of records; any order of its keys may come out. */
  method Walk(records: Records) returns (items: seq<Item>)
    requires WellKeyed(records)
    ensures Lists(items, records, records.Keys)
  {
    items := [];
    var pending := records.Keys;
    ghost var done: set<string> := {};
    while pending != {}
      invariant done + pending == records.Keys && done !! pending
      invariant Lists(items, records, done)
      decreases pending
    {
      var id :| id in pending;
      var item := Item(records[id].endpoint, records[id].health);
      ListsNext(items, records, done, id, item);
      items := items + [item];
      pending := pending - {id};
      done := done + {id};
    }
    assert done == records.Keys;
  }
}
