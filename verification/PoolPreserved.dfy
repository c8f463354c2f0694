/** Every lifecycle operation preserves what PoolView says: inclusion whatever database calls fail, and when they
    succeed pool, index and locks exactly, and the retry times but for what a cleanup forgets. */
module PoolPreserved {
  import opened Proxies
  import opened PoolStore
  import opened PoolView

  lemma IncludedHasUniqueIndex(s: Store)
    requires Included(s)
    ensures UniqueIndex(s.rows)
  {}

  // ---- upsert ----

  /** The saved row fits the table: its print form is its own. */
  lemma SaveRowOK(s: Store, p: Proxy, read: bool)
    requires Included(s) && IsCandidate(p)
    requires !Conflicts(s.rows, Accepted(s.rows, p, read))
    ensures var q := Accepted(s.rows, p, read); var row := q.(id := SavedId(s.nextId, q));
      RowsOK(SaveRow(s, row)) && (row.id in s.rows ==> URI(s.rows[row.id]) == URI(row)) && row.id >= 1
  {
    var q := Accepted(s.rows, p, read);
    var row := q.(id := SavedId(s.nextId, q));
    assert WellFormed(row);
    forall i | i in s.rows && URI(s.rows[i]) == URI(row) ensures i == row.id {
      UriInjective(s.rows[i], row);
      assert SameEndpoint(s.rows[i], q);
    }
  }

  lemma AdmitIncluded(t: Store, row: Proxy)
    requires Included(t) && RowsOK(SaveRow(t, row)) && row.available && row.id >= 1
    requires row.id in t.rows ==> URI(t.rows[row.id]) == URI(row)
    ensures Included(Admit(t, row))
    ensures PoolIds(Admit(t, row).pool) == PoolIds(t.pool) + {row.id}
  {
    SamePrintSameId(t, row);
    AdmitUris(t, row);
    AdmitIds(t, row);
    SameRowsOK(SaveRow(t, row), Admit(t, row));
    AdmittedEntries(t, row);
    hide URI, WellFormed, PoolUris, PoolIds, RowsOK, Admit, Distinct, SaveRow;
  }

  lemma AdmittedEntries(t: Store, row: Proxy)
    requires Included(t) && row.available
    requires forall e :: e in t.pool ==> (e.p.id == row.id <==> URI(e.p) == URI(row))
    ensures var r := Admit(t, row);
      && (forall e :: e in r.pool ==> e.p.id in r.rows && r.rows[e.p.id] == e.p && e.p.available)
      && Distinct(r.pool)
  {
    hide URI, RowsOK, PoolUris, Distinct;
    var kept := DropUris(t.pool, {URI(row)});
    DropUrisDistinct(t.pool, {URI(row)});
    AppendDistinct(kept, Entry(row, 0));
    assert forall e :: e in Admit(t, row).pool ==> e in kept || e == Entry(row, 0);
  }

  /** Among the cached records and the saved one, to print alike is to be the same row. */
  lemma SamePrintSameId(t: Store, row: Proxy)
    requires Included(t) && RowsOK(SaveRow(t, row))
    requires row.id in t.rows ==> URI(t.rows[row.id]) == URI(row)
    ensures forall e :: e in t.pool ==> (e.p.id == row.id <==> URI(e.p) == URI(row))
  {
    hide URI, WellFormed, PoolUris;
    forall e | e in t.pool ensures e.p.id == row.id <==> URI(e.p) == URI(row) {
      assert e.p == t.rows[e.p.id];
      if e.p.id != row.id {
        assert SaveRow(t, row).rows[e.p.id] == e.p && SaveRow(t, row).rows[row.id] == row;
      }
    }
  }

  lemma AppendDistinct(pool: seq<Entry>, e: Entry)
    requires Distinct(pool) && forall x :: x in pool ==> x.p.id != e.p.id
    ensures Distinct(pool + [e])
  {
    assert forall i :: 0 <= i < |pool| ==> pool[i] in pool;
  }

  lemma AdmitUris(t: Store, row: Proxy)
    requires t.index == PoolUris(t.pool)
    ensures Admit(t, row).index == PoolUris(Admit(t, row).pool)
  {
    hide URI;
    var r := Admit(t, row);
    var kept := DropUris(t.pool, {URI(row)});
    assert forall e :: e in r.pool <==> e in kept || e == Entry(row, 0);
    assert Entry(row, 0) in r.pool;
  }

  lemma AdmitIds(t: Store, row: Proxy)
    requires forall e :: e in t.pool ==> (e.p.id == row.id <==> URI(e.p) == URI(row))
    ensures PoolIds(Admit(t, row).pool) == PoolIds(t.pool) + {row.id}
  {
    hide URI;
    var r := Admit(t, row);
    var kept := DropUris(t.pool, {URI(row)});
    assert forall e :: e in r.pool <==> e in kept || e == Entry(row, 0);
    assert Entry(row, 0) in r.pool;
  }

  /** The row an accepted candidate is saved as. */
  ghost function AcceptedRow(t: Store, p: Proxy, read: bool): (r: Proxy) {
    var q := Accepted(t.rows, p, read);
    q.(id := SavedId(t.nextId, q))
  }

  lemma AcceptedIsAvailable(rows: map<nat, Proxy>, p: Proxy, read: bool)
    ensures Accepted(rows, p, read).available && Accepted(rows, p, read).nextVerifyAt == Some(ZERO_TIME)
    ensures Accepted(rows, p, read).ip == p.ip
  {}

  lemma UpsertIncluded(s: Store, p: Proxy, now: Time, db: Faults)
    requires Included(s) && IsCandidate(p)
    ensures Included(Upsert(s, p, now, db).0)
  {
    hide URI, Included, RowsOK, Accepted, Admit, PoolIds;
    ForgetExpiredKeeps(s, p.ip, now, now);
    var t := ForgetExpired(s, p.ip, now);
    if !IPLocked(s, p.ip, now) && db.write && !Conflicts(t.rows, Accepted(t.rows, p, db.read)) {
      AcceptedIsAvailable(t.rows, p, db.read);
      SaveRowOK(t, p, db.read);
      AdmitIncluded(t, AcceptedRow(t, p, db.read));
      ClearKeepsIncluded(Admit(t, AcceptedRow(t, p, db.read)), p.ip, db.side);
    }
  }

  /** A reliable lookup leaves nothing for the unique index to refuse. */
  lemma ReliableNeverConflicts(rows: map<nat, Proxy>, p: Proxy)
    requires UniqueIndex(rows)
    ensures !Conflicts(rows, Accepted(rows, p, true))
  {
    var q := Accepted(rows, p, true);
    var asked := q.(id := p.id);
    forall id | id in rows && SameEndpoint(rows[id], q) ensures id == q.id {
      assert SameEndpoint(rows[id], asked);
      assert HasEndpoint(rows, asked);
      assert SameEndpoint(rows[q.id], q);
    }
  }

  lemma UpsertKeepsPool(s: Store, p: Proxy, clock: Time, now: Time)
    requires PoolExact(s, clock) && clock <= now && IsCandidate(p)
    ensures PoolExact(Upsert(s, p, now, RELIABLE).0, now)
    ensures Upsert(s, p, now, RELIABLE).1 <==> !IPLocked(s, p.ip, now)
  {
    hide URI;
    IncludedHasUniqueIndex(s);
    ForgetExpiredKeeps(s, p.ip, clock, now);
    LaterPool(s, clock, now);
    if !IPLocked(s, p.ip, now) {
      var t := ForgetExpired(s, p.ip, now);
      ReliableNeverConflicts(t.rows, p);
      SaveRowOK(t, p, true);
      AdmitKeepsPool(t, AcceptedRow(t, p, true), now);
    }
  }

  lemma UpsertKeepsRetries(s: Store, p: Proxy, now: Time, grace: Time)
    requires Included(s) && RetriesAgree(s, now, grace) && IsCandidate(p)
    ensures UniqueIndex(s.rows) && RetriesAgree(Upsert(s, p, now, RELIABLE).0, now, grace)
  {
    hide URI;
    IncludedHasUniqueIndex(s);
    var t := ForgetExpired(s, p.ip, now);
    SameRetries(s, t, now, grace);
    ForgetExpiredKeeps(s, p.ip, now, now);
    if !IPLocked(s, p.ip, now) {
      ReliableNeverConflicts(t.rows, p);
      SaveRowOK(t, p, true);
      AdmitKeepsRetries(t, AcceptedRow(t, p, true), now, grace);
    }
  }

  /** Accepting a candidate keeps the view exact, beyond any grace it already has. */
  lemma UpsertExact(s: Store, p: Proxy, clock: Time, now: Time, grace: Time)
    requires ExactBeyond(s, clock, grace) && clock <= now && IsCandidate(p)
    ensures ExactBeyond(Upsert(s, p, now, RELIABLE).0, now, grace)
    ensures Upsert(s, p, now, RELIABLE).1 <==> !IPLocked(s, p.ip, now)
  {
    UpsertKeepsPool(s, p, clock, now);
    LaterRetries(s, clock, now, grace);
    UpsertKeepsRetries(s, p, now, grace);
    hide Upsert, Included, Complete, LocksAgree, NothingAvailableWaits, RetriesAgree, URI;
  }

  lemma AdmitKeepsPool(t: Store, row: Proxy, now: Time)
    requires PoolExact(t, now) && RowsOK(SaveRow(t, row)) && row.available && row.id >= 1
    requires row.id in t.rows ==> URI(t.rows[row.id]) == URI(row)
    requires RetryAt(row) == ZERO_TIME && !IPLocked(t, row.ip, now)
    ensures PoolExact(ClearFailure(Admit(t, row), row.ip, true), now)
  {
    hide URI;
    AdmitIncluded(t, row);
    var a := Admit(t, row);
    assert Complete(a);
    ClearAfterSave(t, a, row, now);
  }

  lemma AdmitKeepsRetries(t: Store, row: Proxy, now: Time, grace: Time)
    requires Included(t) && RetriesAgree(t, now, grace) && RowsOK(SaveRow(t, row)) && row.available && row.id >= 1
    requires row.id in t.rows ==> URI(t.rows[row.id]) == URI(row)
    ensures RetriesAgree(ClearFailure(Admit(t, row), row.ip, true), now, grace)
  {
    hide URI, WellFormed;
    var a := Admit(t, row);
    SameRowsOK(SaveRow(t, row), a);
    RetriesAfterSave(t, a, row, now, grace);
    SameRetries(a, ClearFailure(a, row.ip, true), now, grace);
  }

  /** Clearing an address whose row was just saved keeps everything exact. */
  lemma ClearAfterSave(t: Store, a: Store, row: Proxy, now: Time)
    requires LocksAgree(t, now) && NothingAvailableWaits(t, now)
    requires Included(a) && Complete(a)
    requires a.rows == t.rows[row.id := row] && a.locked == t.locked && a.blocked == t.blocked
    requires row.available ==> RetryAt(row) == ZERO_TIME
    ensures PoolExact(ClearFailure(a, row.ip, true), now)
  {
    hide URI;
    var r := ClearFailure(a, row.ip, true);
    assert LocksAgree(r, now);
    assert NothingAvailableWaits(r, now);
    assert Included(r) && Complete(r);
  }

  /** Saving an available row and dropping its retry time keeps the retry tables in step. */
  lemma RetriesAfterSave(t: Store, r: Store, row: Proxy, now: Time, grace: Time)
    requires RowsOK(t) && RowsOK(r) && RetriesAgree(t, now, grace)
    requires r.rows == t.rows[row.id := row] && row.available
    requires row.id in t.rows ==> URI(t.rows[row.id]) == URI(row)
    requires r.retryAfter == t.retryAfter - {URI(row)}
    ensures RetriesAgree(r, now, grace)
  {
    hide URI, WellFormed;
    forall u | u in r.retryAfter && now < r.retryAfter[u] && grace < r.retryAfter[u]
      ensures DelayedAs(r.rows, u, r.retryAfter[u], now)
    {
      assert DelayedAs(t.rows, u, t.retryAfter[u], now);
      var id :| id in t.rows && Delayed(t.rows[id], now) && URI(t.rows[id]) == u && RetryAt(t.rows[id]) == t.retryAfter[u];
      assert id != row.id;
      assert r.rows[id] == t.rows[id];
    }
    forall id | id in r.rows && Delayed(r.rows[id], now)
      ensures URI(r.rows[id]) in r.retryAfter && r.retryAfter[URI(r.rows[id])] == RetryAt(r.rows[id])
    {
      assert id != row.id && r.rows[id] == t.rows[id];
      assert URI(r.rows[id]) != URI(r.rows[row.id]);
    }
  }

  // ---- verification success ----

  lemma SnapshotUri(s: Store, p: Proxy)
    requires RowsOK(s) && IsSnapshot(s, p) && p.id in s.rows
    ensures URI(p) == URI(s.rows[p.id])
    ensures forall id :: id in s.rows && URI(s.rows[id]) == URI(p) ==> id == p.id
  {}

  lemma VerifySuccessIncluded(s: Store, p: Proxy, delay: int, at: Time, deep: bool, now: Time, db: Faults)
    requires Included(s) && IsSnapshot(s, p)
    ensures Included(VerifySuccess(s, p, delay, at, deep, now, db))
  {
    hide URI, Recheck, Included;
    ForgetExpiredKeeps(s, p.ip, now, now);
    var t := ForgetExpired(s, p.ip, now);
    if p.id in t.rows {
      RecheckIncluded(t, p, delay, at, deep, db);
    }
  }

  lemma RecheckIncluded(t: Store, p: Proxy, delay: int, at: Time, deep: bool, db: Faults)
    requires Included(t) && IsSnapshot(t, p) && p.id in t.rows
    ensures Included(Recheck(t, p, delay, at, deep, db))
  {
    RecheckedRowOK(t, p, delay, at, deep);
    hide URI, Verified, Included, RowsOK, IsSnapshot, Distinct, WellFormed;
    var row := Verified(t.rows[p.id], delay, at, deep);
    if HasUri(t.pool, URI(p)) {
      RefreshIncluded(t, p, delay, at, deep);
      ClearKeepsIncluded(Refreshed(t, p, delay, at, deep), p.ip, db.side);
    } else {
      hide PoolUris, PoolIds;
      NotCached(t, row);
      AdmitIncluded(t, row);
      ClearKeepsIncluded(Admit(t, row), p.ip, db.side);
      SavedIncluded(t, row);
    }
  }

  lemma ClearKeepsIncluded(s: Store, ip: string, persisted: bool)
    requires Included(s)
    ensures Included(ClearFailure(s, ip, persisted))
  {}

  /** A row that is saved but not cached leaves the pool a part of the available rows. */
  lemma SavedIncluded(t: Store, row: Proxy)
    requires Included(t) && RowsOK(SaveRow(t, row)) && row.id in t.rows && URI(t.rows[row.id]) == URI(row)
    requires !HasUri(t.pool, URI(row))
    ensures Included(SaveRow(t, row).(retryAfter := t.retryAfter - {URI(row)}))
  {
    hide URI, WellFormed;
    HasUriMember(t.pool, URI(row));
    assert forall e :: e in t.pool ==> e.p == t.rows[e.p.id] && e.p.id != row.id;
  }

  lemma RecheckedRowOK(t: Store, p: Proxy, delay: int, at: Time, deep: bool)
    requires Included(t) && p.id in t.rows && IsSnapshot(t, p)
    ensures var row := Verified(t.rows[p.id], delay, at, deep);
      RowsOK(SaveRow(t, row)) && row.available && row.id == p.id && row.ip == p.ip && URI(row) == URI(p) == URI(t.rows[p.id])
  {
    var row := Verified(t.rows[p.id], delay, at, deep);
    UriOfEndpoint(p, t.rows[p.id]);
    UriOfEndpoint(p, row);
    assert WellFormed(t.rows[p.id]);
    hide URI;
    assert RowsOK(SaveRow(t, row));
  }

  /** Dropping an endpoint that is not cached drops nothing. */
  lemma NotCached(t: Store, row: Proxy)
    requires !HasUri(t.pool, URI(row))
    ensures DropUris(t.pool, {URI(row)}) == t.pool
  {
    hide URI;
    HasUriMember(t.pool, URI(row));
    DropNothing(t.pool, {URI(row)});
  }

  lemma {:induction false} DropNothing(pool: seq<Entry>, uris: set<string>)
    requires forall e :: e in pool ==> URI(e.p) !in uris
    ensures DropUris(pool, uris) == pool
  {
    hide URI;
    if pool != [] {
      assert pool[0] in pool && forall e :: e in pool[1..] ==> e in pool;
      DropNothing(pool[1..], uris);
      assert pool == [pool[0]] + pool[1..];
    }
  }

  /** The checked row and its cached record change together. */
  function Refreshed(t: Store, p: Proxy, delay: int, at: Time, deep: bool): (r: Store)
    requires p.id in t.rows && HasUri(t.pool, URI(p))
  {
    var i := FirstUri(t.pool, URI(p));
    t.(rows := t.rows[p.id := Verified(t.rows[p.id], delay, at, deep)],
       retryAfter := t.retryAfter - {URI(p)},
       pool := t.pool[i := t.pool[i].(p := Verified(t.pool[i].p, delay, at, deep))])
  }

  /** The cached entry that prints like a checked record is the record's row. */
  lemma CachedRecord(t: Store, p: Proxy)
    requires Included(t) && p.id in t.rows && IsSnapshot(t, p) && HasUri(t.pool, URI(p))
    ensures var e := t.pool[FirstUri(t.pool, URI(p))];
      e in t.pool && e.p == t.rows[p.id] && e.p.id == p.id && p.id in PoolIds(t.pool)
  {
    SnapshotUri(t, p);
    hide URI, WellFormed;
    var e := t.pool[FirstUri(t.pool, URI(p))];
    assert e in t.pool && e.p == t.rows[e.p.id];
  }

  lemma RefreshIncluded(t: Store, p: Proxy, delay: int, at: Time, deep: bool)
    requires Included(t) && p.id in t.rows && IsSnapshot(t, p) && HasUri(t.pool, URI(p))
    ensures Included(Refreshed(t, p, delay, at, deep))
    ensures PoolIds(Refreshed(t, p, delay, at, deep).pool) == PoolIds(t.pool) && p.id in PoolIds(t.pool)
  {
    RecheckedRowOK(t, p, delay, at, deep);
    CachedRecord(t, p);
    var i := FirstUri(t.pool, URI(p));
    SameRowsOK(SaveRow(t, Verified(t.rows[p.id], delay, at, deep)), Refreshed(t, p, delay, at, deep));
    UpdateEntry(t.pool, i, t.pool[i].(p := Verified(t.pool[i].p, delay, at, deep)));
    hide URI, WellFormed, Verified, HasUri, FirstUri, PoolUris, PoolIds, IsSnapshot, RowsOK, Distinct;
  }

  lemma UpdateEntry(pool: seq<Entry>, i: nat, e: Entry)
    requires i < |pool| && Distinct(pool)
    requires e.p.id == pool[i].p.id && URI(e.p) == URI(pool[i].p)
    ensures Distinct(pool[i := e])
    ensures PoolUris(pool[i := e]) == PoolUris(pool) && PoolIds(pool[i := e]) == PoolIds(pool)
    ensures forall x :: x in pool[i := e] ==> x == e || (x in pool && x.p.id != e.p.id)
  {
    var r := pool[i := e];
    forall x | x in r ensures x == e || (x in pool && x.p.id != e.p.id) {
      var k :| 0 <= k < |r| && r[k] == x;
    }
    forall x | x in pool ensures URI(x.p) in PoolUris(r) && x.p.id in PoolIds(r) {
      var k :| 0 <= k < |pool| && pool[k] == x;
      assert r[k] in r;
    }
    assert pool[i] in pool;
  }

  lemma VerifySuccessKeepsPool(s: Store, p: Proxy, delay: int, at: Time, deep: bool, clock: Time, now: Time)
    requires PoolExact(s, clock) && clock <= now && IsSnapshot(s, p)
    ensures PoolExact(VerifySuccess(s, p, delay, at, deep, now, RELIABLE), now)
  {
    hide WellFormed, DropUris, PoolUris, Distinct, Verified;
    ForgetExpiredKeeps(s, p.ip, clock, now);
    LaterPool(s, clock, now);
    if !IPLocked(s, p.ip, now) && p.id in s.rows {
      var t := ForgetExpired(s, p.ip, now);
      var row := Verified(t.rows[p.id], delay, at, deep);
      RecheckedRowOK(t, p, delay, at, deep);
      VerifiedFields(t.rows[p.id], delay, at, deep);
      if HasUri(t.pool, URI(p)) {
        RefreshKeepsPool(t, p, delay, at, deep, now);
      } else {
        NotCached(t, row);
        AdmitKeepsPool(t, row, now);
      }
    }
  }

  lemma VerifySuccessKeepsRetries(s: Store, p: Proxy, delay: int, at: Time, deep: bool, now: Time, grace: Time)
    requires Included(s) && RetriesAgree(s, now, grace) && IsSnapshot(s, p)
    ensures RetriesAgree(VerifySuccess(s, p, delay, at, deep, now, RELIABLE), now, grace)
  {
    var t := ForgetExpired(s, p.ip, now);
    SameRetries(s, t, now, grace);
    if !IPLocked(s, p.ip, now) && p.id in s.rows {
      var row := Verified(t.rows[p.id], delay, at, deep);
      RecheckedRowOK(t, p, delay, at, deep);
      var r := Recheck(t, p, delay, at, deep, RELIABLE);
      RecheckRetries(t, p, delay, at, deep);
      SameRowsOK(SaveRow(t, row), r);
      hide URI, WellFormed, Recheck, Verified, ForgetExpired, IPLocked;
      RetriesAfterSave(t, r, row, now, grace);
    }
  }

  lemma RecheckRetries(t: Store, p: Proxy, delay: int, at: Time, deep: bool)
    requires RowsOK(t) && p.id in t.rows
    ensures var r, row := Recheck(t, p, delay, at, deep, RELIABLE), Verified(t.rows[p.id], delay, at, deep);
      && r.rows == t.rows[p.id := row] && r.rows == SaveRow(t, row).rows && r.nextId == SaveRow(t, row).nextId
      && r.retryAfter == t.retryAfter - {URI(p)}
  {
    hide URI, HasUri, WellFormed;
  }

  /** A passed routine check keeps the view exact, beyond any grace it already has. */
  lemma VerifySuccessExact(s: Store, p: Proxy, delay: int, at: Time, deep: bool, clock: Time, now: Time, grace: Time)
    requires ExactBeyond(s, clock, grace) && clock <= now && IsSnapshot(s, p)
    ensures ExactBeyond(VerifySuccess(s, p, delay, at, deep, now, RELIABLE), now, grace)
  {
    VerifySuccessKeepsPool(s, p, delay, at, deep, clock, now);
    LaterRetries(s, clock, now, grace);
    VerifySuccessKeepsRetries(s, p, delay, at, deep, now, grace);
    hide VerifySuccess, Included, Complete, LocksAgree, NothingAvailableWaits, RetriesAgree, URI;
  }

  lemma VerifiedFields(row: Proxy, delay: int, at: Time, deep: bool)
    ensures var v := Verified(row, delay, at, deep); v.available && RetryAt(v) == ZERO_TIME && v.ip == row.ip && v.id == row.id
  {}

  lemma RefreshKeepsPool(t: Store, p: Proxy, delay: int, at: Time, deep: bool, now: Time)
    requires PoolExact(t, now) && p.id in t.rows && IsSnapshot(t, p) && HasUri(t.pool, URI(p))
    ensures PoolExact(ClearFailure(Refreshed(t, p, delay, at, deep), p.ip, true), now)
  {
    RecheckedRowOK(t, p, delay, at, deep);
    VerifiedFields(t.rows[p.id], delay, at, deep);
    hide URI, WellFormed, Verified, PoolUris;
    var a := Refreshed(t, p, delay, at, deep);
    var row := Verified(t.rows[p.id], delay, at, deep);
    RefreshIncluded(t, p, delay, at, deep);
    assert Complete(a);
    ClearAfterSave(t, a, row, now);
  }

  // ---- quarantine: failed checks and refusing upstreams ----

  lemma QuarantineRowsOK(s: Store, id: nat, uri: string, now: Time)
    requires RowsOK(s) && id in s.rows
    ensures RowsOK(Quarantine(s, id, uri, now))
  {
    var r := Quarantine(s, id, uri, now);
    UriOfEndpoint(s.rows[id], r.rows[id]);
    assert WellFormed(r.rows[id]);
    hide URI, WellFormed, DropUris, HasUri, RetryBackoff;
  }

  lemma QuarantineIncluded(s: Store, id: nat, uri: string, now: Time)
    requires Included(s) && id in s.rows && uri == URI(s.rows[id])
    ensures Included(Quarantine(s, id, uri, now))
    ensures PoolIds(Quarantine(s, id, uri, now).pool) == PoolIds(s.pool) - {id}
  {
    QuarantineRowsOK(s, id, uri, now);
    QuarantineDrops(s, id, uri);
    DropUrisDistinct(s.pool, {uri});
    QuarantineIds(s.pool, DropUris(s.pool, {uri}), id);
    HasUriMember(s.pool, uri);
    QuarantineUris(s.pool, uri);
    hide URI, WellFormed, Distinct, RowsOK, PoolUris, PoolIds, RetryBackoff, DropUris, HasUri;
  }

  lemma QuarantineIds(pool: seq<Entry>, left: seq<Entry>, id: nat)
    requires forall e :: e in left <==> e in pool && e.p.id != id
    ensures PoolIds(left) == PoolIds(pool) - {id}
  {}

  lemma QuarantineDrops(s: Store, id: nat, uri: string)
    requires Included(s) && id in s.rows && uri == URI(s.rows[id])
    ensures forall e :: e in DropUris(s.pool, {uri}) <==> e in s.pool && e.p.id != id
  {
    hide URI, WellFormed;
    assert forall e :: e in s.pool ==> e.p == s.rows[e.p.id];
  }

  lemma QuarantineUris(pool: seq<Entry>, uri: string)
    ensures PoolUris(DropUris(pool, {uri})) == PoolUris(pool) - {uri}
  {
    hide URI;
  }

  lemma QuarantineKeepsPool(s: Store, id: nat, uri: string, clock: Time, now: Time)
    requires PoolExact(s, clock) && clock <= now && id in s.rows && uri == URI(s.rows[id])
    ensures PoolExact(Quarantine(s, id, uri, now), now)
  {
    hide WellFormed;
    LaterPool(s, clock, now);
    QuarantineIncluded(s, id, uri, now);
    var r := Quarantine(s, id, uri, now);
    hide URI, PoolUris, DropUris, Included;
    assert Complete(r);
    assert NothingAvailableWaits(r, now);
    assert LocksAgree(r, now);
  }

  /** Taking an endpoint out of service keeps the view exact, beyond any grace it already has. */
  lemma QuarantineExact(s: Store, id: nat, uri: string, clock: Time, now: Time, grace: Time)
    requires ExactBeyond(s, clock, grace) && clock <= now && id in s.rows && uri == URI(s.rows[id])
    ensures ExactBeyond(Quarantine(s, id, uri, now), now, grace)
  {
    QuarantineKeepsPool(s, id, uri, clock, now);
    LaterRetries(s, clock, now, grace);
    QuarantineRetries(s, id, uri, now, grace);
    hide Quarantine, Complete, LocksAgree, NothingAvailableWaits, RetriesAgree, URI;
  }

  lemma QuarantineRetries(s: Store, id: nat, uri: string, now: Time, grace: Time)
    requires RowsOK(s) && RetriesAgree(s, now, grace) && id in s.rows && uri == URI(s.rows[id])
    ensures RetriesAgree(Quarantine(s, id, uri, now), now, grace)
  {
    var r := Quarantine(s, id, uri, now);
    UriOfEndpoint(s.rows[id], r.rows[id]);
    hide URI, WellFormed, DropUris;
    forall u | u in r.retryAfter && now < r.retryAfter[u] && grace < r.retryAfter[u]
      ensures DelayedAs(r.rows, u, r.retryAfter[u], now)
    {
      if u == uri {
        assert Delayed(r.rows[id], now);
      } else {
        assert DelayedAs(s.rows, u, s.retryAfter[u], now);
        var k :| k in s.rows && Delayed(s.rows[k], now) && URI(s.rows[k]) == u && RetryAt(s.rows[k]) == s.retryAfter[u];
        assert r.rows[k] == s.rows[k];
      }
    }
  }

  lemma ProxyUnavailableTarget(s: Store, uri: string)
    requires Included(s) && HasUri(s.pool, uri)
    ensures var id := s.pool[FirstUri(s.pool, uri)].p.id;
      id in s.rows && id >= 1 && URI(s.rows[id]) == uri
  {
    assert s.pool[FirstUri(s.pool, uri)] in s.pool;
  }

  // ---- a failure of an address ----

  lemma FailureIncluded(s: Store, ip: string, now: Time, db: Faults)
    requires Included(s)
    ensures Included(Failure(s, ip, now, db).0)
  {
    hide URI, WellFormed, PoolUris, TakeDown, DropIP, RowsOK;
    var (r, locked) := Failure(s, ip, now, db);
    assert RowsOK(r) by {
      TakeDownRowsOK(s, ip);
      SameRowsOK(s, r);
      SameRowsOK(s.(rows := TakeDown(s.rows, ip)), r);
    }
    if locked {
      DropIPDistinct(s.pool, ip);
      FailureUris(s, ip);
      assert forall e :: e in r.pool ==> e in s.pool && e.p.ip != ip;
    }
  }

  lemma SameRowsOK(s: Store, r: Store)
    ensures s.rows == r.rows && s.nextId == r.nextId && RowsOK(s) ==> RowsOK(r)
  {}

  lemma TakeDownRowsOK(s: Store, ip: string)
    requires RowsOK(s)
    ensures RowsOK(s.(rows := TakeDown(s.rows, ip)))
  {
    forall id | id in s.rows ensures URI(TakeDown(s.rows, ip)[id]) == URI(s.rows[id]) {
      UriOfEndpoint(TakeDown(s.rows, ip)[id], s.rows[id]);
    }
    hide URI;
  }

  lemma FailureUris(s: Store, ip: string)
    requires Included(s)
    ensures s.index - (set e | e in s.pool && e.p.ip == ip :: URI(e.p)) == PoolUris(DropIP(s.pool, ip))
  {
    hide URI, WellFormed;
    var gone := set e | e in s.pool && e.p.ip == ip :: URI(e.p);
    forall e | e in s.pool ensures URI(e.p) in gone <==> e.p.ip == ip {
      if URI(e.p) in gone {
        var g :| g in s.pool && g.p.ip == ip && URI(g.p) == URI(e.p);
        assert g.p == s.rows[g.p.id] && e.p == s.rows[e.p.id];
        assert g.p.id == e.p.id;
      }
    }
  }

  lemma FailureKeepsPool(s: Store, ip: string, clock: Time, now: Time)
    requires PoolExact(s, clock) && clock <= now
    ensures PoolExact(Failure(s, ip, now, RELIABLE).0, now)
  {
    hide URI, WellFormed, PoolUris, TakeDown, DropIP, Distinct, RowsOK, Included;
    LaterPool(s, clock, now);
    FailureIncluded(s, ip, now, RELIABLE);
    var (r, locked) := Failure(s, ip, now, RELIABLE);
    if locked {
      FailureComplete(s, ip);
      assert Complete(r);
      FailureLocks(s, ip, now);
      assert NothingAvailableWaits(r, now);
    }
  }

  lemma FailureKeepsRetries(s: Store, ip: string, now: Time, grace: Time)
    requires RetriesAgree(s, now, grace) && NothingAvailableWaits(s, now)
    ensures RetriesAgree(Failure(s, ip, now, RELIABLE).0, now, grace)
  {
    var (r, locked) := Failure(s, ip, now, RELIABLE);
    if locked {
      RetriesAfterTakeDown(s, r, ip, now, grace);
    } else {
      SameRetries(s, r, now, grace);
    }
  }

  /** Counting a failure, and locking at the third, keep the view exact, beyond any grace it already has. */
  lemma FailureExact(s: Store, ip: string, clock: Time, now: Time, grace: Time)
    requires ExactBeyond(s, clock, grace) && clock <= now
    ensures ExactBeyond(Failure(s, ip, now, RELIABLE).0, now, grace)
  {
    FailureKeepsPool(s, ip, clock, now);
    LaterPool(s, clock, now);
    LaterRetries(s, clock, now, grace);
    FailureKeepsRetries(s, ip, now, grace);
    hide Failure, Included, Complete, LocksAgree, NothingAvailableWaits, RetriesAgree, URI;
  }

  lemma FailureLocks(s: Store, ip: string, now: Time)
    requires LocksAgree(s, now)
    ensures LocksAgree(Failure(s, ip, now, RELIABLE).0, now)
  {
    hide URI, TakeDown, DropIP;
  }

  lemma FailureComplete(s: Store, ip: string)
    requires Included(s) && Complete(s)
    ensures forall id :: id in s.rows && s.rows[id].available && s.rows[id].ip != ip ==> id in PoolIds(DropIP(s.pool, ip))
  {
    hide URI, WellFormed, DropIP;
    forall id | id in s.rows && s.rows[id].available && s.rows[id].ip != ip ensures id in PoolIds(DropIP(s.pool, ip)) {
      assert id in PoolIds(s.pool);
      var e :| e in s.pool && e.p.id == id;
      assert e in DropIP(s.pool, ip);
    }
  }

  /** Taking an address down delays no row that was not delayed, and moves no delay. */
  lemma TakenDownAlike(s: Store, ip: string, now: Time, id: nat)
    requires NothingAvailableWaits(s, now) && id in s.rows
    ensures var row := TakeDown(s.rows, ip)[id];
      && URI(row) == URI(s.rows[id]) && RetryAt(row) == RetryAt(s.rows[id])
      && Delayed(row, now) == Delayed(s.rows[id], now)
  {
    UriOfEndpoint(TakeDown(s.rows, ip)[id], s.rows[id]);
    hide URI;
  }

  lemma RetriesAfterTakeDown(s: Store, r: Store, ip: string, now: Time, grace: Time)
    requires RetriesAgree(s, now, grace) && NothingAvailableWaits(s, now)
    requires r.rows == TakeDown(s.rows, ip) && r.retryAfter == s.retryAfter
    ensures RetriesAgree(r, now, grace)
  {
    forall id | id in s.rows
      ensures URI(r.rows[id]) == URI(s.rows[id]) && RetryAt(r.rows[id]) == RetryAt(s.rows[id])
      ensures Delayed(r.rows[id], now) == Delayed(s.rows[id], now)
    {
      TakenDownAlike(s, ip, now, id);
    }
    hide URI, TakeDown, Delayed, NothingAvailableWaits;
    forall u | u in r.retryAfter && now < r.retryAfter[u] && grace < r.retryAfter[u]
      ensures DelayedAs(r.rows, u, r.retryAfter[u], now)
    {
      assert DelayedAs(s.rows, u, s.retryAfter[u], now);
      var k :| k in s.rows && Delayed(s.rows[k], now) && URI(s.rows[k]) == u && RetryAt(s.rows[k]) == s.retryAfter[u];
      assert Delayed(r.rows[k], now);
    }
  }

  // ---- stale cleanup ----

  /** None of the rows a cleanup would remove is still waiting for a retry later than `grace`. */
  ghost predicate ForgetsUntil(s: Store, threshold: nat, now: Time, grace: Time) {
    forall id :: id in StaleIds(s.rows, threshold, now) && Delayed(s.rows[id], now) ==> RetryAt(s.rows[id]) <= grace
  }

  /** The latest retry time a cleanup would forget while it is still waited for; the zero time if none. */
  ghost function LatestForgotten(s: Store, threshold: nat, now: Time): (t: Time)
    ensures forall grace :: ForgetsUntil(s, threshold, now, grace) <==> t <= grace
  {
    LatestDelay(s.rows, StaleIds(s.rows, threshold, now), now)
  }

  ghost function LatestDelay(rows: map<nat, Proxy>, ids: set<nat>, now: Time): (t: Time)
    requires ids <= rows.Keys
    ensures forall id :: id in ids && Delayed(rows[id], now) ==> RetryAt(rows[id]) <= t
    ensures t == ZERO_TIME || exists id :: id in ids && Delayed(rows[id], now) && RetryAt(rows[id]) == t
    decreases |ids|
  {
    if ids == {} then ZERO_TIME
    else
      var id :| id in ids;
      var rest := LatestDelay(rows, ids - {id}, now);
      if Delayed(rows[id], now) && RetryAt(rows[id]) > rest then RetryAt(rows[id]) else rest
  }

  /** With a threshold of a day or more a cleanup forgets no delay but the exceptional ones. */
  lemma LongCleanupForgetsUntil(s: Store, threshold: nat, now: Time, grace: Time)
    requires DelaysBounded(s, grace) && threshold >= DAY
    ensures ForgetsUntil(s, threshold, now, grace)
  {}

  lemma CleanupIncluded(s: Store, threshold: nat, now: Time, db: Faults)
    requires Included(s)
    ensures Included(Cleanup(s, threshold, now, db))
  {
    var r := Cleanup(s, threshold, now, db);
    var stale := StaleIds(s.rows, threshold, now);
    var uris := set id | id in stale :: URI(s.rows[id]);
    if r != s {
      DropUrisDistinct(s.pool, uris);
      assert forall e :: e in s.pool ==> e.p == s.rows[e.p.id];
      forall e | e in s.pool ensures e in r.pool <==> e.p.id !in stale {
        if URI(e.p) in uris {
          var id :| id in stale && URI(s.rows[id]) == URI(e.p);
        }
      }
      assert RowsOK(r);
      assert r.index == PoolUris(r.pool);
    }
  }

  /** Whatever a cleanup removes, everything but the retry times stays exact. */
  lemma CleanupKeepsPool(s: Store, threshold: nat, clock: Time, now: Time)
    requires PoolExact(s, clock) && clock <= now
    ensures PoolExact(Cleanup(s, threshold, now, RELIABLE), now)
  {
    hide URI, WellFormed, PoolUris;
    LaterPool(s, clock, now);
    CleanupIncluded(s, threshold, now, RELIABLE);
    var r := Cleanup(s, threshold, now, RELIABLE);
    if r != s {
      CleanupComplete(s, threshold, now);
      assert LocksAgree(r, now);
      assert NothingAvailableWaits(r, now);
    }
  }

  /** A cleanup keeps the view exact beyond `grace` if and only if none of the rows it removes is still waiting
      for a later retry: with no grace, if and only if none is still waiting. */
  lemma CleanupExact(s: Store, threshold: nat, clock: Time, now: Time, grace: Time)
    requires ExactBeyond(s, clock, grace) && clock <= now
    ensures PoolExact(Cleanup(s, threshold, now, RELIABLE), now)
    ensures ExactBeyond(Cleanup(s, threshold, now, RELIABLE), now, grace) <==> ForgetsUntil(s, threshold, now, grace)
  {
    CleanupKeepsPool(s, threshold, clock, now);
    LaterRetries(s, clock, now, grace);
    hide Cleanup, Complete, LocksAgree, NothingAvailableWaits, RetriesAgree, ForgetsUntil, URI;
    CleanupRetries(s, threshold, now, grace);
  }

  lemma CleanupComplete(s: Store, threshold: nat, now: Time)
    requires Included(s) && Complete(s)
    ensures Complete(Cleanup(s, threshold, now, RELIABLE))
  {
    hide URI, WellFormed;
    var r := Cleanup(s, threshold, now, RELIABLE);
    var stale := StaleIds(s.rows, threshold, now);
    if r != s {
      forall id | id in r.rows && r.rows[id].available ensures id in PoolIds(r.pool) {
        assert id in PoolIds(s.pool);
        var e :| e in s.pool && e.p.id == id;
        assert forall k :: k in stale ==> URI(s.rows[k]) != URI(s.rows[id]);
        assert e in r.pool;
      }
    }
  }

  /** Cleanup forgets rows but not their retry times. That goes unnoticed beyond `grace` exactly when no removed
      row is still waiting for a retry later than that. */
  lemma CleanupRetries(s: Store, threshold: nat, now: Time, grace: Time)
    requires RowsOK(s) && RetriesAgree(s, now, grace)
    ensures RetriesAgree(Cleanup(s, threshold, now, RELIABLE), now, grace) <==> ForgetsUntil(s, threshold, now, grace)
  {
    hide URI, DropUris, PoolUris, WellFormed;
    var r := Cleanup(s, threshold, now, RELIABLE);
    var stale := StaleIds(s.rows, threshold, now);
    if ForgetsUntil(s, threshold, now, grace) {
      CleanupKeepsRetries(s, threshold, now, grace);
    } else {
      var id :| id in stale && Delayed(s.rows[id], now) && RetryAt(s.rows[id]) > grace;
      var u := URI(s.rows[id]);
      assert u in r.retryAfter && now < r.retryAfter[u];
      assert !DelayedAs(r.rows, u, r.retryAfter[u], now);
    }
  }

  lemma CleanupKeepsRetries(s: Store, threshold: nat, now: Time, grace: Time)
    requires RetriesAgree(s, now, grace) && ForgetsUntil(s, threshold, now, grace)
    ensures RetriesAgree(Cleanup(s, threshold, now, RELIABLE), now, grace)
  {
    hide URI, DropUris, PoolUris;
    var r := Cleanup(s, threshold, now, RELIABLE);
    forall u | u in r.retryAfter && now < r.retryAfter[u] && grace < r.retryAfter[u]
      ensures DelayedAs(r.rows, u, r.retryAfter[u], now)
    {
      assert DelayedAs(s.rows, u, s.retryAfter[u], now);
      var k :| k in s.rows && Delayed(s.rows[k], now) && URI(s.rows[k]) == u && RetryAt(s.rows[k]) == s.retryAfter[u];
      assert k !in StaleIds(s.rows, threshold, now);
      assert k in r.rows && r.rows[k] == s.rows[k];
    }
  }

  // ---- picks ----

  lemma UseIncluded(s: Store, at: Option<nat>)
    requires Included(s)
    ensures Included(UseEntry(s, at)) && PoolIds(UseEntry(s, at).pool) == PoolIds(s.pool)
  {
    hide URI, WellFormed, RowsOK;
    if at.Some? && at.value < |s.pool| {
      var e := s.pool[at.value];
      assert e in s.pool;
      UpdateEntry(s.pool, at.value, e.(n := e.n + 1));
      SameRowsOK(s, UseEntry(s, at));
    }
  }

  lemma UseKeepsPool(s: Store, at: Option<nat>, clock: Time, now: Time)
    requires PoolExact(s, clock) && clock <= now
    ensures PoolExact(UseEntry(s, at), now)
  {
    LaterPool(s, clock, now);
    UseIncluded(s, at);
    hide Included, URI, PoolIds;
  }

  // ---- restart ----

  /** A new process over the same tables. */
  ghost predicate Restarts(s: Store, now: Time, renewed: Store) {
    FreshOver(renewed, s.rows, s.nextId, s.blocked, now)
  }

  /** A restart changes no answer about endpoints and locks. A retry time memory still holds up to `grace` can only
      make the old process the stricter one, and not beyond `grace`; the new one is an exact view whatever the one
      before forgot. */
  lemma RestartInvisible(s: Store, clock: Time, now: Time, renewed: Store, grace: Time)
    requires PoolExact(s, clock) && clock <= now && Restarts(s, now, renewed)
    ensures ExactView(renewed, now)
    ensures renewed.index == s.index
    ensures PoolIds(renewed.pool) == PoolIds(s.pool)
    ensures forall ip, t :: now <= t ==> (IPLocked(renewed, ip, t) <==> IPLocked(s, ip, t))
    ensures RetriesAgree(s, now, grace) ==>
      forall u, t :: now <= t ==> SameAnswerBeyond(s, renewed, u, t, grace)
  {
    hide URI, WellFormed;
    LaterPool(s, clock, now);
    RestartSameIds(s, now, renewed);
    StartExact(s, now, renewed);
    SameIdsSameUris(s, renewed);
    if RetriesAgree(s, now, grace) {
      forall u, t: Time | now <= t ensures SameAnswerBeyond(s, renewed, u, t, grace) {
        RestartKeepsRetry(s, now, renewed, u, t, grace);
      }
    }
  }

  /** An endpoint due in the old process is due in the new one, and from `grace` on the other way round. */
  ghost predicate SameAnswerBeyond(s: Store, renewed: Store, u: string, t: Time, grace: Time) {
    && (ValidationDue(s, u, t) ==> ValidationDue(renewed, u, t))
    && (grace <= t && ValidationDue(renewed, u, t) ==> ValidationDue(s, u, t))
  }

  lemma RestartSameIds(s: Store, now: Time, renewed: Store)
    requires PoolExact(s, now) && Restarts(s, now, renewed)
    ensures PoolIds(renewed.pool) == PoolIds(s.pool)
  {
    hide URI, WellFormed;
    forall id | id in PoolIds(s.pool) ensures id in Loadable(s.rows, s.blocked, now) {
      var e :| e in s.pool && e.p.id == id;
    }
  }

  /** What the tables must satisfy for a process started on them to begin with an exact view. */
  ghost predicate TablesOK(s: Store, now: Time) {
    && RowsOK(s) && NothingAvailableWaits(s, now)
    && (forall id :: id in s.rows && s.rows[id].available ==> !BlockedAt(s.blocked, s.rows[id].ip, now))
  }

  lemma RestartIncluded(s: Store, now: Time, renewed: Store)
    requires RowsOK(s) && Restarts(s, now, renewed)
    ensures Included(renewed)
  {
    hide URI, WellFormed, PoolUris;
    forall e | e in renewed.pool ensures e.p.id in s.rows && s.rows[e.p.id] == e.p && e.p.available {
      assert e.p == s.rows[e.p.id] && s.rows[e.p.id].id == e.p.id;
      assert e.p.id in PoolIds(renewed.pool);
    }
    assert RowsOK(renewed);
  }

  /** A new process over good tables starts with an exact view. */
  lemma StartExact(s: Store, now: Time, renewed: Store)
    requires TablesOK(s, now) && Restarts(s, now, renewed)
    ensures ExactView(renewed, now)
  {
    hide URI, WellFormed, PoolUris;
    RestartIncluded(s, now, renewed);
    assert Complete(renewed);
    RestartRetries(s, now, renewed);
  }

  lemma RestartRetries(s: Store, now: Time, renewed: Store)
    requires RowsOK(s) && Restarts(s, now, renewed)
    ensures RetriesAgree(renewed, now, ZERO_TIME)
  {
    hide URI, WellFormed, PoolUris, PoolIds, Distinct;
    forall id | id in s.rows && Delayed(s.rows[id], now)
      ensures URI(s.rows[id]) in renewed.retryAfter && renewed.retryAfter[URI(s.rows[id])] == RetryAt(s.rows[id])
    {
      var u := URI(s.rows[id]);
      assert u in renewed.retryAfter.Keys;
      assert DelayedAs(s.rows, u, renewed.retryAfter[u], now);
      var k :| k in s.rows && Delayed(s.rows[k], now) && URI(s.rows[k]) == u && RetryAt(s.rows[k]) == renewed.retryAfter[u];
      assert k == id;
    }
  }

  lemma SameIdsSameUris(s: Store, renewed: Store)
    requires Included(s) && renewed.rows == s.rows && PoolIds(renewed.pool) == PoolIds(s.pool)
    requires forall e :: e in renewed.pool ==> e.p.id in s.rows && e.p == s.rows[e.p.id]
    ensures PoolUris(renewed.pool) == PoolUris(s.pool)
  {
    forall e | e in s.pool ensures URI(e.p) in PoolUris(renewed.pool) {
      assert e.p.id in PoolIds(renewed.pool);
      var g :| g in renewed.pool && g.p.id == e.p.id;
      assert g.p == e.p;
    }
    forall g | g in renewed.pool ensures URI(g.p) in PoolUris(s.pool) {
      assert g.p.id in PoolIds(s.pool);
      var e :| e in s.pool && e.p.id == g.p.id;
    }
  }

  lemma RestartKeepsRetry(s: Store, now: Time, renewed: Store, u: string, t: Time, grace: Time)
    requires RowsOK(s) && RetriesAgree(s, now, grace) && Restarts(s, now, renewed) && now <= t
    ensures SameAnswerBeyond(s, renewed, u, t, grace)
  {
    hide URI;
    if u in s.retryAfter && t < s.retryAfter[u] && grace <= t {
      assert DelayedAs(s.rows, u, s.retryAfter[u], now);
      var k :| k in s.rows && Delayed(s.rows[k], now) && URI(s.rows[k]) == u && RetryAt(s.rows[k]) == s.retryAfter[u];
      assert u in renewed.retryAfter.Keys;
      assert DelayedAs(s.rows, u, renewed.retryAfter[u], now);
    }
    if u in renewed.retryAfter {
      assert DelayedAs(s.rows, u, renewed.retryAfter[u], now);
    }
  }
}
