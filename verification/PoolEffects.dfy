/** What each operation on the pool writes, field by field: which record a candidate becomes, how long a failed
    endpoint waits, when a checked one is due again, and what a failing address loses. */
module PoolEffects {
  import opened Proxies
  import opened PoolStore
  import opened PoolView
  import opened PoolPreserved
  import opened Maintenance

  /** The row is of the endpoint a candidate names; one without a protocol is an http proxy. */
  predicate Holds(row: Proxy, p: Proxy) {
    row.ip == p.ip && row.port == p.port && row.protocol == if p.protocol == "" then "http" else p.protocol
  }

  /** The row a candidate is for: the one of its endpoint, or the next one if there is none. */
  ghost predicate IsFor(s: Store, p: Proxy, id: nat) {
    if exists k :: k in s.rows && Holds(s.rows[k], p) then id in s.rows && Holds(s.rows[id], p) else id == s.nextId
  }

  predicate LockedAt(s: Store, ip: string, t: Time) {
    ip in s.blocked && t < s.blocked[ip].until
  }

  // ---- a candidate ----

  /** An accepted candidate is stored as it came, under its own protocol, healthy and free to be checked: in the row
      of its endpoint, or a new one. It is cached last and unused, and its address starts afresh. */
  lemma CandidateIsStored(s: Store, p: Proxy, now: Time, db: Faults) returns (id: nat)
    requires RowsOK(s) && p.id == 0 && Upsert(s, p, now, db).1
    ensures IsFor(s, p, id)
    ensures forall k :: k in s.rows && Holds(s.rows[k], p) ==> k == id
    ensures var r := Upsert(s, p, now, db).0;
      var row := Proxy(id, p.ip, p.port, if p.protocol == "" then "http" else p.protocol, p.country, p.source, p.delay,
                       true, p.lastVerify, p.lastDeepVerify, 0, Some(0));
      && r.rows == s.rows[id := row] && r.nextId == (if id < s.nextId then s.nextId else id + 1)
      && URI(row) == URI(p) && r.index == s.index + {URI(p)} && r.retryAfter == s.retryAfter - {URI(p)}
      && r.pool != [] && r.pool[|r.pool| - 1] == Entry(row, 0)
      && (forall e :: e in r.pool[..|r.pool| - 1] <==> e in s.pool && URI(e.p) != URI(p))
      && r.locked == s.locked - {p.ip} && r.blocked == if db.side then s.blocked - {p.ip} else s.blocked
  {
    var row := AcceptedRow(s, p, db.read);
    id := row.id;
    UpsertAdmits(s, p, now, db);
    CandidateRow(s, p, db.read);
    UriOfEndpoint(row, p);
    AdmittedLast(ForgetExpired(s, p.ip, now), row);
    ForgetExpiredKeepsTheRest(s, p.ip, now);
    hide URI, AcceptedRow, Upsert, Conflicts, RowsOK, IsFor, Holds, Admit, DropUris, ForgetExpired;
  }

  lemma UpsertAdmits(s: Store, p: Proxy, now: Time, db: Faults)
    requires Upsert(s, p, now, db).1
    ensures !Conflicts(s.rows, Accepted(s.rows, p, db.read))
    ensures Upsert(s, p, now, db).0 ==
      ClearFailure(Admit(ForgetExpired(s, p.ip, now), AcceptedRow(s, p, db.read)), p.ip, db.side)
  {
    ForgetExpiredKeepsTheRest(s, p.ip, now);
    hide URI, Accepted, Conflicts, Admit, ForgetExpired;
  }

  lemma ForgetExpiredKeepsTheRest(s: Store, ip: string, now: Time)
    ensures var t := ForgetExpired(s, ip, now); t == s.(locked := t.locked) && t.locked - {ip} == s.locked - {ip}
  {}

  /** With a reliable database a candidate is refused exactly while its address is locked, and then nothing changes. */
  lemma CandidateIsRefused(s: Store, p: Proxy, now: Time)
    requires RowsOK(s) && p.id == 0
    ensures Upsert(s, p, now, RELIABLE).1 <==> !(p.ip in s.locked && now < s.locked[p.ip])
    ensures p.ip in s.locked && now < s.locked[p.ip] ==> Upsert(s, p, now, RELIABLE).0 == s
  {
    RowsAreUnique(s);
    ReliableNeverConflicts(s.rows, p);
    ForgetExpiredKeepsTheRest(s, p.ip, now);
    hide URI, WellFormed, Accepted, Conflicts, Admit, ForgetExpired, RowsOK, UniqueIndex;
  }

  lemma RowsAreUnique(s: Store)
    requires RowsOK(s)
    ensures UniqueIndex(s.rows)
  {}

  lemma CandidateRow(s: Store, p: Proxy, read: bool)
    requires RowsOK(s) && p.id == 0 && !Conflicts(s.rows, Accepted(s.rows, p, read))
    ensures var row := AcceptedRow(s, p, read); var id := row.id;
      && row == Proxy(id, p.ip, p.port, if p.protocol == "" then "http" else p.protocol, p.country, p.source,
                               p.delay, true, p.lastVerify, p.lastDeepVerify, 0, Some(0))
      && IsFor(s, p, id)
      && forall k :: k in s.rows && Holds(s.rows[k], p) ==> k == id
  {
    var q := Accepted(s.rows, p, read);
    forall k | k in s.rows && Holds(s.rows[k], p) ensures k == q.id {
      assert SameEndpoint(s.rows[k], q);
    }
    hide URI, WellFormed;
  }

  lemma AdmittedLast(t: Store, row: Proxy)
    ensures var r := Admit(t, row);
      && r.rows == t.rows[row.id := row] && r.nextId == (if row.id < t.nextId then t.nextId else row.id + 1)
      && r.index == t.index + {URI(row)} && r.retryAfter == t.retryAfter - {URI(row)}
      && r.locked == t.locked && r.blocked == t.blocked
      && r.pool != [] && r.pool[|r.pool| - 1] == Entry(row, 0)
      && (forall e :: e in r.pool[..|r.pool| - 1] <==> e in t.pool && URI(e.p) != URI(row))
  {
    hide URI;
    var r := Admit(t, row);
    assert r.pool[..|r.pool| - 1] == DropUris(t.pool, {URI(row)});
  }

  // ---- a passed check ----

  /** A passed check stores the measured delay and the time of the check, resets the count of failures and the retry
      time, and moves the time of the last deep check exactly if it was one. The address starts afresh, and the row
      is due again exactly once the interval after the check is over. */
  lemma PassIsStored(s: Store, p: Proxy, delay: int, at: Time, deep: bool, now: Time)
    requires p.id in s.rows && s.rows[p.id].ip == p.ip && !(p.ip in s.locked && now < s.locked[p.ip])
    ensures var r, was := VerifySuccess(s, p, delay, at, deep, now, RELIABLE), s.rows[p.id];
      && r.rows == s.rows[p.id := Proxy(was.id, was.ip, was.port, was.protocol, was.country, was.source, delay, true,
                                        at, if deep then at else was.lastDeepVerify, 0, Some(0))]
      && r.nextId == s.nextId && r.blocked == s.blocked - {p.ip} && r.locked == s.locked - {p.ip}
      && r.retryAfter == s.retryAfter - {URI(p)}
      && forall t: Time, interval: nat :: p.id in UnVerifiedIds(r.rows, r.blocked, t, interval) <==> t > at + interval
  {
    ForgetExpiredKeepsTheRest(s, p.ip, now);
    RecheckIsStored(ForgetExpired(s, p.ip, now), p, delay, at, deep);
    hide URI, Recheck, ForgetExpired;
  }

  lemma RecheckIsStored(t: Store, p: Proxy, delay: int, at: Time, deep: bool)
    requires p.id in t.rows
    ensures var r, was := Recheck(t, p, delay, at, deep, RELIABLE), t.rows[p.id];
      && r.rows == t.rows[p.id := Proxy(was.id, was.ip, was.port, was.protocol, was.country, was.source, delay, true,
                                        at, if deep then at else was.lastDeepVerify, 0, Some(0))]
      && r.nextId == t.nextId && r.blocked == t.blocked - {p.ip} && r.locked == t.locked - {p.ip}
      && r.retryAfter == t.retryAfter - {URI(p)}
  {
    hide URI, HasUri, FirstUri;
    var was := t.rows[p.id];
    assert Verified(was, delay, at, deep) == Proxy(was.id, was.ip, was.port, was.protocol, was.country, was.source, delay,
                                                    true, at, if deep then at else was.lastDeepVerify, 0, Some(0));
    hide Verified;
  }

  /** The cached record follows in its place with its use count; one that was not cached comes last, unused. */
  lemma PassIsCached(s: Store, p: Proxy, delay: int, at: Time, deep: bool, now: Time)
    requires Included(s) && IsSnapshot(s, p) && p.id in s.rows && !(p.ip in s.locked && now < s.locked[p.ip])
    ensures var r := VerifySuccess(s, p, delay, at, deep, now, RELIABLE);
      && p.id in r.rows
      && if exists e :: e in s.pool && URI(e.p) == URI(p)
         then InPlace(s.pool, r.pool, URI(p), r.rows[p.id])
         else r.pool == s.pool + [Entry(r.rows[p.id], 0)]
  {
    var t := ForgetExpired(s, p.ip, now);
    ForgetExpiredKeepsTheRest(s, p.ip, now);
    SameIncluded(s, t);
    HasUriMember(s.pool, URI(p));
    RecheckIsCached(t, p, delay, at, deep);
    if HasUri(s.pool, URI(p)) { InItsPlace(s, FirstUri(s.pool, URI(p)), Recheck(t, p, delay, at, deep, RELIABLE).rows[p.id]); }
    hide URI, HasUri, FirstUri, Included, IsSnapshot, Recheck, ForgetExpired, InPlace;
  }

  /** Where an endpoint is cached its record is replaced, with the use count left as it was; nothing else changes. */
  ghost predicate InPlace(pool: seq<Entry>, r: seq<Entry>, uri: string, row: Proxy) {
    |r| == |pool| && forall i :: 0 <= i < |pool| ==> r[i] == if URI(pool[i].p) == uri then Entry(row, pool[i].n) else pool[i]
  }

  lemma InItsPlace(s: Store, i: nat, row: Proxy)
    requires Included(s) && i < |s.pool|
    ensures InPlace(s.pool, s.pool[i := Entry(row, s.pool[i].n)], URI(s.pool[i].p), row)
  {
    OnlyOnePrints(s, i);
    hide URI, Included;
  }

  lemma SameIncluded(s: Store, t: Store)
    requires Included(s) && t == s.(locked := t.locked)
    ensures Included(t)
  {
    hide URI, WellFormed;
  }

  lemma RecheckIsCached(t: Store, p: Proxy, delay: int, at: Time, deep: bool)
    requires Included(t) && IsSnapshot(t, p) && p.id in t.rows
    ensures var r := Recheck(t, p, delay, at, deep, RELIABLE);
      && p.id in r.rows
      && r.pool == if HasUri(t.pool, URI(p))
                   then var i := FirstUri(t.pool, URI(p)); t.pool[i := Entry(r.rows[p.id], t.pool[i].n)]
                   else t.pool + [Entry(r.rows[p.id], 0)]
  {
    if HasUri(t.pool, URI(p)) { CachedRecord(t, p); }
    hide URI, HasUri, FirstUri, Included, Verified;
  }

  lemma OnlyOnePrints(s: Store, i: nat)
    requires Included(s) && i < |s.pool|
    ensures forall j :: 0 <= j < |s.pool| && j != i ==> URI(s.pool[j].p) != URI(s.pool[i].p)
  {
    hide URI, WellFormed;
    forall j | 0 <= j < |s.pool| && j != i ensures URI(s.pool[j].p) != URI(s.pool[i].p) {
      assert s.pool[i] in s.pool && s.pool[j] in s.pool;
    }
  }

  // ---- a failed check, or a refusal ----

  /** A failed check counts, takes the endpoint out, and makes it wait 30 minutes, 2 hours, 6 hours and then 24 hours
      from now: until then neither the periodic query nor a source brings it back. */
  lemma FailureWaits(s: Store, p: Proxy, now: Time)
    requires p.id in s.rows
    ensures var (r, n) := VerifyFailed(s, p, now, RELIABLE);
      n == s.rows[p.id].consecutiveFailures + 1 && TakenOut(s, p.id, URI(p), now, r)
  {
    QuarantineTakesOut(s, p.id, URI(p), now);
    hide URI, Quarantine, TakenOut;
  }

  /** So does a refusal by the endpoint itself; refusals of endpoints that are not cached change nothing. */
  lemma RefusalWaits(s: Store, uri: string, now: Time)
    requires Included(s)
    ensures var r := ProxyUnavailable(s, uri, now, RELIABLE);
      if exists e :: e in s.pool && URI(e.p) == uri
      then exists id :: id in s.rows && s.rows[id].available && URI(s.rows[id]) == uri && TakenOut(s, id, uri, now, r)
      else r == s
  {
    HasUriMember(s.pool, uri);
    if HasUri(s.pool, uri) {
      var e := s.pool[FirstUri(s.pool, uri)];
      assert e in s.pool;
      ProxyUnavailableTarget(s, uri);
      QuarantineTakesOut(s, e.p.id, uri, now);
      hide URI, Quarantine, TakenOut, WellFormed, Distinct;
      assert TakenOut(s, e.p.id, uri, now, ProxyUnavailable(s, uri, now, RELIABLE));
    }
  }

  /** What a failure or refusal at `now` makes of row `id`, printing as `uri`. */
  ghost predicate TakenOut(s: Store, id: nat, uri: string, now: Time, r: Store)
    requires id in s.rows
  {
    var c, row := s.rows[id].consecutiveFailures, s.rows[id];
    var retryAt := now + (if c == 0 then 1_800_000_000_000
                          else if c == 1 then 7_200_000_000_000
                          else if c == 2 then 21_600_000_000_000 else 86_400_000_000_000);
    && r.rows == s.rows[id := Proxy(row.id, row.ip, row.port, row.protocol, row.country, row.source, row.delay, false,
                                    now, row.lastDeepVerify, c + 1, Some(retryAt))]
    && r.nextId == s.nextId && r.blocked == s.blocked && r.locked == s.locked
    && (forall e :: e in r.pool <==> e in s.pool && URI(e.p) != uri)
    && (forall t: Time, interval: nat :: id in UnVerifiedIds(r.rows, r.blocked, t, interval) <==>
          t >= retryAt && !LockedAt(s, row.ip, t))
    && (forall t: Time :: ValidationDue(r, uri, t) <==> t >= retryAt)
    && (forall u, t: Time :: u != uri ==> ValidationDue(r, u, t) == ValidationDue(s, u, t))
  }

  lemma QuarantineTakesOut(s: Store, id: nat, uri: string, now: Time)
    requires id in s.rows
    ensures TakenOut(s, id, uri, now, Quarantine(s, id, uri, now))
  {
    hide URI, HasUri;
  }

  // ---- a failing address ----

  /** From the third failure on an address is locked for six hours from now and loses its rows and entries; before
      that a failure is only counted. */
  lemma AddressFails(s: Store, ip: string, now: Time)
    ensures var (r, locked) := Failure(s, ip, now, RELIABLE);
      var before := if ip in s.blocked then s.blocked[ip] else Blocked(0, 0);
      var until := now + 21_600_000_000_000;
      && (locked <==> before.failures >= 2)
      && r.blocked == s.blocked[ip := Blocked(before.failures + 1, if locked then until else before.until)]
      && r.locked == (if locked then s.locked[ip := until] else s.locked)
      && r.rows.Keys == s.rows.Keys && r.nextId == s.nextId && r.retryAfter == s.retryAfter
      && (forall id :: id in s.rows ==>
            r.rows[id] == if locked && s.rows[id].ip == ip then s.rows[id].(available := false) else s.rows[id])
      && (forall e :: e in r.pool <==> e in s.pool && !(locked && e.p.ip == ip))
      && (locked ==> forall t: Time :: IPLocked(r, ip, t) <==> t < until)
  {
    hide URI;
  }

  // ---- a cleanup ----

  /** A cleanup removes exactly the rows checked at least once, but not since the threshold. */
  lemma CleanupRemoves(s: Store, threshold: nat, now: Time)
    requires Included(s)
    ensures var r := Cleanup(s, threshold, now, RELIABLE);
      && (forall id :: id in r.rows <==> id in s.rows && !(0 < s.rows[id].lastVerify && s.rows[id].lastVerify + threshold < now))
      && (forall id :: id in r.rows ==> r.rows[id] == s.rows[id])
      && (forall e :: e in r.pool <==> e in s.pool && e.p.id in r.rows)
      && r.nextId == s.nextId && r.blocked == s.blocked && r.locked == s.locked && r.retryAfter == s.retryAfter
  {
    hide URI, WellFormed, Distinct, DropUris, PoolUris, RowsOK;
    var stale := StaleIds(s.rows, threshold, now);
    assert forall id :: id in stale <==> id in s.rows && 0 < s.rows[id].lastVerify && s.rows[id].lastVerify + threshold < now;
    hide StaleIds;
    forall e | e in s.pool ensures URI(e.p) in (set id | id in stale :: URI(s.rows[id])) <==> e.p.id in stale {
      assert e.p == s.rows[e.p.id];
      SamePrint(s, e.p.id);
    }
  }

  lemma SamePrint(s: Store, id: nat)
    requires RowsOK(s) && id in s.rows
    ensures forall k :: k in s.rows && URI(s.rows[k]) == URI(s.rows[id]) ==> k == id
  {
    hide URI, WellFormed;
  }

  // ---- a failing database ----

  /** When the row cannot be written nothing is: rows, pool, index, locks and retry times stay as they are, but for a lock
      that had expired. */
  lemma FailedWriteChangesNothing(s: Store, p: Proxy, uri: string, delay: int, at: Time, deep: bool, threshold: nat, now: Time, db: Faults)
    requires !db.write
    ensures !Upsert(s, p, now, db).1 && Upsert(s, p, now, db).0 == s.(locked := Upsert(s, p, now, db).0.locked)
    ensures var r := VerifySuccess(s, p, delay, at, deep, now, db); r == s.(locked := r.locked)
    ensures VerifyFailed(s, p, now, db) == (s, 0)
    ensures ProxyUnavailable(s, uri, now, db) == s && Cleanup(s, threshold, now, db) == s
    ensures forall ip :: IPLocked(Upsert(s, p, now, db).0, ip, now) == IPLocked(s, ip, now)
    ensures forall ip :: IPLocked(VerifySuccess(s, p, delay, at, deep, now, db), ip, now) == IPLocked(s, ip, now)
  {
    hide URI, Accepted, Conflicts, Recheck, DropUris, HasUri;
  }

  // ---- questions ----

  /** Asking about a lock or a retry time answers by the time kept, and forgets it exactly if it has passed. */
  lemma AskingForgets(s: Store, ip: string, uri: string, now: Time)
    ensures IPLocked(s, ip, now) <==> ip in s.locked && now < s.locked[ip]
    ensures ForgetExpired(s, ip, now) == if IPLocked(s, ip, now) then s else s.(locked := s.locked - {ip})
    ensures ValidationDue(s, uri, now) <==> !(uri in s.retryAfter && now < s.retryAfter[uri])
    ensures ForgetDue(s, uri, now) == if ValidationDue(s, uri, now) then s.(retryAfter := s.retryAfter - {uri}) else s
  {
    assert ip !in s.locked ==> s.locked - {ip} == s.locked;
    assert uri !in s.retryAfter ==> s.retryAfter - {uri} == s.retryAfter;
  }

  // ---- a start ----

  /** Whatever the tables are, a process that starts caches exactly the available rows whose address is not locked, each
      unused, knows exactly the unexpired locks, and waits exactly for the quarantined rows whose retry time is to come. */
  lemma StartKnows(s: Store, now: Time, renewed: Store, t: Time)
    requires RowsOK(s) && Restarts(s, now, renewed) && now <= t
    ensures renewed.rows == s.rows && renewed.blocked == s.blocked
    ensures forall id :: (exists e :: e in renewed.pool && e.p.id == id) <==>
      id in s.rows && s.rows[id].available && !LockedAt(s, s.rows[id].ip, now)
    ensures forall e :: e in renewed.pool ==> e.p.id in s.rows && e == Entry(s.rows[e.p.id], 0)
    ensures forall ip :: IPLocked(renewed, ip, t) <==> LockedAt(s, ip, t)
    ensures forall u :: ValidationDue(renewed, u, t) <==>
      !exists id :: id in s.rows && URI(s.rows[id]) == u && !s.rows[id].available && s.rows[id].nextVerifyAt.Some?
                    && t < s.rows[id].nextVerifyAt.value
  {
    PoolIdsAre(renewed.pool);
    hide URI, WellFormed, PoolUris, PoolIds, Distinct, Loadable;
    forall id ensures (exists e :: e in renewed.pool && e.p.id == id) <==>
      id in s.rows && s.rows[id].available && !LockedAt(s, s.rows[id].ip, now)
    {
      LoadableIs(s, now, id);
    }
    forall u ensures ValidationDue(renewed, u, t) <==> !Awaited(s, u, t) {
      StartWaits(s, now, renewed, t, u);
    }
  }

  lemma PoolIdsAre(pool: seq<Entry>)
    ensures forall id :: id in PoolIds(pool) <==> exists e :: e in pool && e.p.id == id
  {}

  lemma LoadableIs(s: Store, now: Time, id: nat)
    ensures id in Loadable(s.rows, s.blocked, now) <==> id in s.rows && s.rows[id].available && !LockedAt(s, s.rows[id].ip, now)
  {}

  /** Some quarantined row printing as `u` has a retry time after t. */
  ghost predicate Awaited(s: Store, u: string, t: Time) {
    exists id :: id in s.rows && URI(s.rows[id]) == u && !s.rows[id].available && s.rows[id].nextVerifyAt.Some?
                 && t < s.rows[id].nextVerifyAt.value
  }

  lemma StartWaits(s: Store, now: Time, renewed: Store, t: Time, u: string)
    requires RowsOK(s) && Restarts(s, now, renewed) && now <= t
    ensures ValidationDue(renewed, u, t) <==> !Awaited(s, u, t)
  {
    hide URI, WellFormed, PoolUris, PoolIds, Distinct, Loadable;
    if u in renewed.retryAfter {
      assert DelayedAs(s.rows, u, renewed.retryAfter[u], now);
      var k :| k in s.rows && Delayed(s.rows[k], now) && URI(s.rows[k]) == u && RetryAt(s.rows[k]) == renewed.retryAfter[u];
      SamePrint(s, k);
    }
    if Awaited(s, u, t) {
      var id :| id in s.rows && URI(s.rows[id]) == u && !s.rows[id].available && s.rows[id].nextVerifyAt.Some?
                && t < s.rows[id].nextVerifyAt.value;
      assert Delayed(s.rows[id], now);
      assert u in renewed.retryAfter.Keys;
    }
  }
}
