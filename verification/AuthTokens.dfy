/** Sessions and sign-in ceremonies: tables of tokens that expire, are dropped, and are
    purged now and then. */
module AuthTokens {
  import opened Wrappers
  import opened EgressTypes

  /** What is kept under the hash of a token. */
  datatype Timed<V> = Timed(value: V, expires: Instant)

  type Table<V> = map<string, Timed<V>>

  /** An entry is put at a time, dropped, or purged with all others that have expired. */
  datatype Op<V> = Put(key: string, entry: Timed<V>, at: Instant) | Drop(key: string) | Purge(now: Instant)

  function Apply<V>(table: Table<V>, op: Op<V>): Table<V> {
    match op
    case Put(key, entry, _) => table[key := entry]
    case Drop(key) => table - {key}
    case Purge(now) => map key | key in table && now <= table[key].expires :: table[key]
  }

  /** Operations, the latest outermost. */
  datatype History<V> = Nothing | Then(earlier: History<V>, op: Op<V>)

  function Run<V>(h: History<V>): Table<V> {
    match h case Nothing => map[] case Then(earlier, op) => Apply(Run(earlier), op)
  }

  predicate Touches<V>(op: Op<V>, key: string) {
    !op.Purge? && op.key == key
  }

  datatype Issue<V> = Issue(value: V, at: Instant)

  /** What was put there last and not dropped since, and when. Purges are not looked at. */
  function Issued<V>(h: History<V>, key: string): Option<Issue<V>> {
    if h.Nothing? then None
    else if !Touches(h.op, key) then Issued(h.earlier, key)
    else if h.op.Put? then Some(Issue(h.op.entry.value, h.op.at))
    else None
  }

  predicate PurgedBy<V>(h: History<V>, clock: Instant) {
    h.Then? ==> PurgedBy(h.earlier, clock) && (h.op.Purge? ==> h.op.now <= clock)
  }

  lemma {:induction false} PurgedByLater<V>(h: History<V>, clock: Instant, now: Instant)
    requires PurgedBy(h, clock) && clock <= now
    ensures PurgedBy(h, now)
  {
    if h.Then? {
      PurgedByLater(h.earlier, clock, now);
    }
  }

  /** Every entry expires this long after it was put. */
  predicate Lasts<V>(h: History<V>, lifetime: int) {
    h.Then? ==> Lasts(h.earlier, lifetime) && (h.op.Put? ==> h.op.entry.expires == h.op.at + lifetime)
  }

  /** Whatever is in the table was issued, and whatever was issued is in the table unless
      it had expired when a purge came by. */
  lemma {:induction false} TableHoldsIssued<V>(h: History<V>, lifetime: int, clock: Instant, key: string)
    requires PurgedBy(h, clock) && Lasts(h, lifetime)
    ensures key in Run(h) ==>
              && Issued(h, key).Some?
              && Run(h)[key] == Timed(Issued(h, key).value.value, Issued(h, key).value.at + lifetime)
    ensures Issued(h, key).Some? ==> key in Run(h) || Issued(h, key).value.at + lifetime < clock
  {
    if h.Then? {
      TableHoldsIssued(h.earlier, lifetime, clock, key);
    }
  }

  /** For a reader that ignores what is older than the lifetime, the table is as good as the
      record of all operations: purging changes no answer. */
  lemma LiveIffIssued<V>(h: History<V>, lifetime: int, now: Instant, key: string, issue: Issue<V>)
    requires PurgedBy(h, now) && Lasts(h, lifetime) && now <= issue.at + lifetime
    ensures key in Run(h) && Run(h)[key] == Timed(issue.value, issue.at + lifetime) <==> Issued(h, key) == Some(issue)
  {
    TableHoldsIssued(h, lifetime, now, key);
  }

  datatype Ceremony = Ceremony(kind: string, csrf: string, bootstrap: bool)

  const CEREMONY_LIFETIME := 5 * 60 * 1_000_000_000

  /** The session that a request with this token has: the one issued for the token, if that
      was less than the lifetime ago and it was not logged out since. */
  function SessionOf(h: History<string>, lifetime: int, key: string, now: Instant): Option<string> {
    match Issued(h, key)
    case None => None
    case Some(issue) => if now < issue.at + lifetime then Some(issue.value) else None
  }

  /** The ceremony that a finishing request may use: the one begun with the token, at most
      five minutes ago, if kind and CSRF token are its own. */
  function CeremonyOf(h: History<Ceremony>, key: string, kind: string, csrf: string, now: Instant): Option<Ceremony> {
    match Issued(h, key)
    case None => None
    case Some(issue) =>
      if now <= issue.at + CEREMONY_LIFETIME && issue.value.kind == kind && issue.value.csrf == csrf
      then Some(issue.value) else None
  }

  class Manager {
    var sessions: Table<string>
    var ceremonies: Table<Ceremony>
    const sessionTTL: int
    const hash: string -> string
    /** Everything done so far to either table, and the latest clock. */
    ghost var sessionOps: History<string>
    ghost var ceremonyOps: History<Ceremony>
    ghost var clock: Instant

    ghost predicate Valid() reads this {
      && sessions == Run(sessionOps) && ceremonies == Run(ceremonyOps)
      && PurgedBy(sessionOps, clock) && PurgedBy(ceremonyOps, clock)
      && Lasts(sessionOps, sessionTTL) && Lasts(ceremonyOps, CEREMONY_LIFETIME)
    }

    constructor (sessionTTL: int, hash: string -> string, ghost now: Instant)
      ensures Valid() && sessionOps == Nothing && ceremonyOps == Nothing && clock == now
      ensures this.sessionTTL == sessionTTL && this.hash == hash
    {
      sessions, ceremonies := map[], map[];
      this.sessionTTL, this.hash := sessionTTL, hash;
      sessionOps, ceremonyOps, clock := Nothing, Nothing, now;
    }

    method PurgeLocked(now: Instant)
      requires Valid() && clock <= now
      modifies this
      ensures Valid() && clock == now
      ensures sessionOps == Then(old(sessionOps), Purge(now)) && ceremonyOps == Then(old(ceremonyOps), Purge(now))
      ensures forall key :: key in sessions ==> now <= sessions[key].expires
      ensures forall key :: key in ceremonies ==> now <= ceremonies[key].expires
    {
      PurgedByLater(sessionOps, clock, now);
      PurgedByLater(ceremonyOps, clock, now);
      sessions := Unexpired(sessions, now);
      ceremonies := Unexpired(ceremonies, now);
      sessionOps, ceremonyOps, clock := Then(sessionOps, Purge(now)), Then(ceremonyOps, Purge(now)), now;
    }

    /** `raw` and `csrf` are the values drawn; the clock is read twice. */
    method BeginCeremony(kind: string, bootstrap: bool, raw: string, csrf: string, purgeAt: Instant, at: Instant)
      requires Valid() && clock <= purgeAt <= at
      modifies this
      ensures Valid() && clock == at
      ensures sessionOps == Then(old(sessionOps), Purge(purgeAt))
      ensures ceremonyOps == Then(Then(old(ceremonyOps), Purge(purgeAt)),
                                  Put(hash(raw), Timed(Ceremony(kind, csrf, bootstrap), at + CEREMONY_LIFETIME), at))
    {
      PurgeLocked(purgeAt);
      var entry := Timed(Ceremony(kind, csrf, bootstrap), at + CEREMONY_LIFETIME);
      PurgedByLater(sessionOps, clock, at);
      PurgedByLater(ceremonyOps, clock, at);
      ceremonies := ceremonies[hash(raw) := entry];
      ceremonyOps, clock := Then(ceremonyOps, Put(hash(raw), entry, at)), at;
    }

    /** `raw` is the decoded cookie, if there is one. A ceremony is given out exactly when
        it was begun with this token, kind and CSRF token at most five minutes ago and no
        request with the token has come since; and whatever the answer, it is used up. */
    method ConsumeCeremony(kind: string, raw: Option<string>, csrf: string, now: Instant) returns (r: Option<Ceremony>)
      requires Valid() && clock <= now
      modifies this
      ensures Valid() && clock == now && sessionOps == old(sessionOps)
      ensures ceremonyOps == if raw.Some? then Then(old(ceremonyOps), Drop(hash(raw.value))) else old(ceremonyOps)
      ensures r == if raw.None? then None else CeremonyOf(old(ceremonyOps), hash(raw.value), kind, csrf, now)
      ensures r.Some? <==>
                && raw.Some? && Issued(old(ceremonyOps), hash(raw.value)).Some?
                && var begun := Issued(old(ceremonyOps), hash(raw.value)).value;
                   now - begun.at <= 5 * 60 * 1_000_000_000 && begun.value.kind == kind && begun.value.csrf == csrf
      ensures r.Some? ==> r.value == Issued(old(ceremonyOps), hash(raw.value)).value.value
      ensures raw.Some? ==> Issued(ceremonyOps, hash(raw.value)).None?
    {
      PurgedByLater(sessionOps, clock, now);
      PurgedByLater(ceremonyOps, clock, now);
      clock := now;
      if raw.None? {
        return None;
      }
      var key := hash(raw.value);
      var entry := if key in ceremonies then Some(ceremonies[key]) else None;
      TableHoldsIssued(ceremonyOps, CEREMONY_LIFETIME, now, key);
      ceremonies := ceremonies - {key};
      ceremonyOps := Then(ceremonyOps, Drop(key));
      if entry.None? || entry.value.value.kind != kind || now > entry.value.expires || entry.value.value.csrf != csrf {
        return None;
      }
      return Some(entry.value.value);
    }

    method IssueSession(raw: string, csrf: string, at: Instant, purgeAt: Instant)
      requires Valid() && clock <= at <= purgeAt
      modifies this
      ensures Valid() && clock == purgeAt
      ensures sessionOps == Then(Then(old(sessionOps), Put(hash(raw), Timed(csrf, at + sessionTTL), at)),
                                 Purge(purgeAt))
      ensures ceremonyOps == Then(old(ceremonyOps), Purge(purgeAt))
    {
      var entry := Timed(csrf, at + sessionTTL);
      sessions := sessions[hash(raw) := entry];
      sessionOps := Then(sessionOps, Put(hash(raw), entry, at));
      PurgeLocked(purgeAt);
    }

    /** A request is authenticated exactly when its token is that of a session issued less
        than the session lifetime ago and not logged out since; it gets that session's CSRF
        token. */
    method SessionForRequest(raw: Option<string>, now: Instant) returns (r: Option<string>)
      requires Valid() && clock <= now
      ensures r == if raw.None? then None else SessionOf(sessionOps, sessionTTL, hash(raw.value), now)
      ensures r.Some? <==>
                && raw.Some? && Issued(sessionOps, hash(raw.value)).Some?
                && now - Issued(sessionOps, hash(raw.value)).value.at < sessionTTL
      ensures r.Some? ==> r.value == Issued(sessionOps, hash(raw.value)).value.value
    {
      if raw.None? {
        return None;
      }
      PurgedByLater(sessionOps, clock, now);
      TableHoldsIssued(sessionOps, sessionTTL, now, hash(raw.value));
      if hash(raw.value) !in sessions || now >= sessions[hash(raw.value)].expires {
        return None;
      }
      return Some(sessions[hash(raw.value)].value);
    }

    method Logout(raw: Option<string>)
      requires Valid()
      modifies this
      ensures Valid() && clock == old(clock) && ceremonyOps == old(ceremonyOps)
      ensures sessionOps == if raw.Some? then Then(old(sessionOps), Drop(hash(raw.value))) else old(sessionOps)
      ensures raw.Some? ==> Issued(sessionOps, hash(raw.value)).None?
    {
      if raw.None? {
        return;
      }
      sessions := sessions - {hash(raw.value)};
      sessionOps := Then(sessionOps, Drop(hash(raw.value)));
    }
  }

  /** Deletes the expired entries one by one, in any order. */
  method Unexpired<V>(table: Table<V>, now: Instant) returns (kept: Table<V>)
    ensures kept == Apply(table, Purge(now))
  {
    kept := table;
    var pending := table.Keys;
    while pending != {}
      invariant pending <= table.Keys
      invariant kept == map key | key in table && (key in pending || now <= table[key].expires) :: table[key]
      decreases pending
    {
      var key :| key in pending;
      pending := pending - {key};
      if now > kept[key].expires {
        kept := kept - {key};
      }
    }
  }
}
