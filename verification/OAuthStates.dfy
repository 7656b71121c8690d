/** The one-time states of the X authorization flow: issued by Begin, used up by the
    first attempt to redeem them, and purged once expired. */
module OAuthStates {
  import opened Wrappers
  import opened EgressTypes

  const LIFETIME := 5 * 60 * 1_000_000_000
  const RAW_SIZE := 32

  /** What is kept for an issued state, under the hash of the state. */
  datatype Pending = Pending(verifier: string, bindingHash: string, expiresAt: Instant)

  type States = map<string, Pending>

  /** `raw` is the decoded state; a state that does not decode is None. */
  datatype Event =
    | Begin(raw: string, verifier: string, binding: string, now: Instant)
    | Consume(state: Option<string>, binding: string, now: Instant)
  {
    predicate Issues() {
      Begin? && binding != ""
    }

    predicate ReachesLookup() {
      Consume? && state.Some? && |state.value| == RAW_SIZE && binding != ""
    }
  }

  function PendingOf(hash: string -> string, e: Event): Pending
    requires e.Begin?
  {
    Pending(e.verifier, hash(e.binding), e.now + LIFETIME)
  }

  function Purged(states: States, now: Instant): States {
    map key | key in states && states[key].expiresAt > now :: states[key]
  }

  function Next(hash: string -> string, states: States, e: Event): States {
    if e.Issues() then Purged(states, e.now)[hash(e.raw) := PendingOf(hash, e)]
    else if e.ReachesLookup() then states - {hash(e.state.value)}
    else states
  }

  /** Whether a pending state may be redeemed with this binding at this time. */
  function Redeem(hash: string -> string, pending: Option<Pending>, binding: string, now: Instant): Option<string> {
    if pending.Some? && pending.value.expiresAt > now && pending.value.bindingHash == hash(binding)
    then Some(pending.value.verifier) else None
  }

  function Lookup(states: States, key: string): Option<Pending> {
    if key in states then Some(states[key]) else None
  }

  /** The verifier that an attempt to redeem yields. */
  function Yield(hash: string -> string, states: States, e: Event): Option<string> {
    if e.ReachesLookup() then Redeem(hash, Lookup(states, hash(e.state.value)), e.binding, e.now) else None
  }

  function Run(hash: string -> string, events: seq<Event>): States {
    if events == [] then map[] else Next(hash, Run(hash, events[..|events| - 1]), events[|events| - 1])
  }

  ghost predicate InOrder(events: seq<Event>) {
    forall i, j :: 0 <= i < j < |events| ==> events[i].now <= events[j].now
  }

  /** Without any purge: what the last event that touched a key left there. */
  function Unpurged(hash: string -> string, events: seq<Event>, key: string): Option<Pending> {
    if events == [] then None
    else
      var last := events[|events| - 1];
      if last.Issues() && hash(last.raw) == key then Some(PendingOf(hash, last))
      else if last.ReachesLookup() && hash(last.state.value) == key then None
      else Unpurged(hash, events[..|events| - 1], key)
  }

  /** The table is the unpurged one without some states that had expired by `clock`. */
  ghost predicate Agrees(hash: string -> string, events: seq<Event>, clock: Instant, key: string) {
    || Lookup(Run(hash, events), key) == Unpurged(hash, events, key)
    || (key !in Run(hash, events) && Unpurged(hash, events, key).Some?
        && Unpurged(hash, events, key).value.expiresAt <= clock)
  }

  lemma {:induction false} PurgeOnlyDropsExpired(hash: string -> string, events: seq<Event>, clock: Instant,
                                                 key: string)
    requires InOrder(events) && forall i :: 0 <= i < |events| ==> events[i].now <= clock
    ensures Agrees(hash, events, clock, key)
  {
    if events != [] {
      PurgeOnlyDropsExpired(hash, events[..|events| - 1], events[|events| - 1].now, key);
    }
  }

  /** The purge in Begin never changes any later result: each attempt yields what it
      would yield if nothing were ever purged. */
  lemma PurgeChangesNoResult(hash: string -> string, events: seq<Event>, e: Event)
    requires InOrder(events + [e]) && e.ReachesLookup()
    ensures Yield(hash, Run(hash, events), e)
         == Redeem(hash, Unpurged(hash, events, hash(e.state.value)), e.binding, e.now)
  {
    forall i, j | 0 <= i < j < |events| ensures events[i].now <= events[j].now {
      assert (events + [e])[i] == events[i] && (events + [e])[j] == events[j];
    }
    forall i | 0 <= i < |events| ensures events[i].now <= e.now {
      assert (events + [e])[i] == events[i] && (events + [e])[|events|] == e;
    }
    PurgeOnlyDropsExpired(hash, events, e.now, hash(e.state.value));
  }

  /** An attempt is refused, and uses nothing up, without a binding or a state of 32 bytes; and
      nothing is issued without a binding. What is issued leaves no expired state behind. */
  lemma RefusedEvents(hash: string -> string, states: States, e: Event)
    ensures e.Consume? && (e.binding == "" || e.state.None? || |e.state.value| != 32) ==>
              Yield(hash, states, e) == None && Next(hash, states, e) == states
    ensures e.Begin? && e.binding == "" ==> Next(hash, states, e) == states
    ensures e.Begin? && e.binding != "" ==>
              && hash(e.raw) in Next(hash, states, e)
              && forall key :: key in Next(hash, states, e) ==> Next(hash, states, e)[key].expiresAt > e.now
  {
  }

  /** Event i issued the state `raw` and no event after it touched that state. */
  ghost predicate IssuedAndUntouched(events: seq<Event>, i: int, raw: string) {
    && 0 <= i < |events| && events[i].Issues() && events[i].raw == raw
    && forall k :: i < k < |events| ==> !Touches(events[k], raw)
  }

  predicate Touches(e: Event, raw: string) {
    (e.Issues() && e.raw == raw) || (e.ReachesLookup() && e.state.value == raw)
  }

  lemma {:induction false} UnpurgedComesFromBegin(hash: string -> string, events: seq<Event>, raw: string)
    requires forall a, b :: hash(a) == hash(b) ==> a == b
    ensures Unpurged(hash, events, hash(raw)).Some? ==>
              exists i :: && IssuedAndUntouched(events, i, raw)
                          && Unpurged(hash, events, hash(raw)) == Some(PendingOf(hash, events[i]))
    ensures Unpurged(hash, events, hash(raw)).None? ==> forall i :: !IssuedAndUntouched(events, i, raw)
  {
    if events != [] {
      var prior := events[..|events| - 1];
      var last := events[|events| - 1];
      UnpurgedComesFromBegin(hash, prior, raw);
      if Touches(last, raw) {
        if last.Issues() {
          assert IssuedAndUntouched(events, |events| - 1, raw);
        }
      } else {
        assert Unpurged(hash, events, hash(raw)) == Unpurged(hash, prior, hash(raw));
        forall i ensures IssuedAndUntouched(events, i, raw) <==> IssuedAndUntouched(prior, i, raw) {
          if IssuedAndUntouched(prior, i, raw) {
            assert forall k :: i < k < |prior| ==> prior[k] == events[k];
          }
          if IssuedAndUntouched(events, i, raw) {
            assert i < |prior|;
            assert forall k :: i < k < |prior| ==> prior[k] == events[k];
          }
        }
        if Unpurged(hash, prior, hash(raw)).Some? {
          var i :|
            IssuedAndUntouched(prior, i, raw) && Unpurged(hash, prior, hash(raw)) == Some(PendingOf(hash, prior[i]));
          assert IssuedAndUntouched(events, i, raw) && events[i] == prior[i];
        }
      }
    }
  }

  /** An attempt yields a verifier exactly when its state was issued by a Begin with the
      same binding, less than five minutes ago, and nothing has touched the state since;
      it is then the verifier of that Begin. */
  lemma RedeemedIffIssued(hash: string -> string, events: seq<Event>, e: Event, verifier: string)
    requires InOrder(events + [e]) && e.ReachesLookup()
    requires forall a, b :: hash(a) == hash(b) ==> a == b
    ensures Yield(hash, Run(hash, events), e) == Some(verifier) <==>
            exists i :: && IssuedAndUntouched(events, i, e.state.value)
                        && events[i].verifier == verifier && events[i].binding == e.binding
                        && e.now < events[i].now + 5 * 60 * 1_000_000_000
  {
    var raw := e.state.value;
    PurgeChangesNoResult(hash, events, e);
    UnpurgedComesFromBegin(hash, events, raw);
    forall i, j | IssuedAndUntouched(events, i, raw) && IssuedAndUntouched(events, j, raw) ensures i == j {
      assert Touches(events[i], raw) && Touches(events[j], raw);
    }
  }

  /** Any attempt that reaches the lookup uses the state up, whether or not it yields a
      verifier: a second attempt fails unless the state was issued again in between. */
  lemma AttemptsUseUp(hash: string -> string, events: seq<Event>, j: nat, e: Event)
    requires InOrder(events + [e]) && e.ReachesLookup()
    requires forall a, b :: hash(a) == hash(b) ==> a == b
    requires j < |events| && events[j].ReachesLookup() && events[j].state == e.state
    requires forall k :: j < k < |events| ==> !(events[k].Issues() && events[k].raw == e.state.value)
    ensures Yield(hash, Run(hash, events), e) == None
  {
    var r := Yield(hash, Run(hash, events), e);
    assert Touches(events[j], e.state.value);
    if r.Some? {
      RedeemedIffIssued(hash, events, e, r.value);
    }
  }

  class XOAuthManager {
    var states: States
    const hash: string -> string

    constructor (hash: string -> string)
      ensures states == map[] && this.hash == hash
    {
      states := map[];
      this.hash := hash;
    }

    /** `raw` and `verifier` are the values drawn. */
    method Begin(binding: string, raw: string, verifier: string, now: Instant) returns (ok: bool)
      modifies this
      ensures ok <==> binding != ""
      ensures states == Next(hash, old(states), Event.Begin(raw, verifier, binding, now))
    {
      if binding == "" {
        return false;
      }
      var key := hash(raw);
      var pending := states.Keys;
      while pending != {}
        invariant pending <= old(states).Keys
        invariant states
               == map k | k in old(states) && (k in pending || old(states)[k].expiresAt > now) :: old(states)[k]
        decreases pending
      {
        var k :| k in pending;
        pending := pending - {k};
        if states[k].expiresAt <= now {
          states := states - {k};
        }
      }
      states := states[key := Pending(verifier, hash(binding), now + LIFETIME)];
      return true;
    }

    method ConsumeState(state: Option<string>, binding: string, now: Instant) returns (verifier: Option<string>)
      modifies this
      ensures states == Next(hash, old(states), Consume(state, binding, now))
      ensures verifier == Yield(hash, old(states), Consume(state, binding, now))
    {
      if state.None? || |state.value| != RAW_SIZE || binding == "" {
        return None;
      }
      var key := hash(state.value);
      var pending := if key in states then Some(states[key]) else None;
      states := states - {key};
      var bindingHash := hash(binding);
      if pending.None? || pending.value.expiresAt <= now || pending.value.bindingHash != bindingHash {
        return None;
      }
      return Some(pending.value.verifier);
    }
  }
}
