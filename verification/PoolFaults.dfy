/** Runs on a database whose calls may fail, in any pattern: what survives is inclusion, and that rows never
    change endpoint. */
module PoolFaults {
  import opened Proxies
  import opened PoolStore
  import opened PoolView
  import opened PoolPreserved
  import opened PoolRuns
  import opened Maintenance

  // ---- endpoints of rows ----

  /** Rows that were there keep their endpoint, and ids below the next one are not handed out again. */
  ghost predicate KeepsEndpoints(s: Store, s': Store) {
    && s.nextId <= s'.nextId
    && (forall id :: id in s'.rows && id < s.nextId ==> id in s.rows && SameEndpoint(s.rows[id], s'.rows[id]))
  }

  lemma KeepsEndpointsChain(a: Store, b: Store, c: Store)
    requires KeepsEndpoints(a, b) && KeepsEndpoints(b, c)
    ensures KeepsEndpoints(a, c)
  {}

  lemma SameRowsKeepEndpoints(s: Store, s': Store)
    ensures s.rows == s'.rows && s.nextId == s'.nextId ==> KeepsEndpoints(s, s')
  {}

  lemma ForgetExpiredKeepsTables(s: Store, ip: string, now: Time)
    ensures ForgetExpired(s, ip, now).rows == s.rows && ForgetExpired(s, ip, now).blocked == s.blocked
    ensures ForgetExpired(s, ip, now).nextId == s.nextId && ForgetExpired(s, ip, now).pool == s.pool
  {}

  /** Whatever one operation does, and whichever of its database calls fail, no row changes endpoint. */
  lemma StepKeepsEndpoints(s: Store, e: Event, db: Faults, s': Store)
    requires Included(s) && Allowed(s, e.op) && UniqueIndex(s.rows)
    requires if e.op.Restart? then Restarts(s, e.now, s') else s' == Apply(s, e.op, e.now, db)
    ensures KeepsEndpoints(s, s')
  {
    hide URI, Included, Upsert, VerifySuccess, Quarantine, IsSnapshot, IsCandidate, UniqueIndex, KeepsEndpoints, RetryBackoff;
    match e.op
    case Found(p) => FoundKeepsEndpoints(s, p, e.now, db);
    case Passed(p, delay, at, deep) => PassedKeepsEndpoints(s, p, delay, at, deep, e.now, db);
    case Failed(p) =>
      SameRowsKeepEndpoints(s, s');
      if p.id in s.rows { QuarantineKeepsEndpoints(s, p.id, URI(p), e.now); }
    case Refused(uri) =>
      if s' != s { QuarantineKeepsEndpoints(s, s.pool[FirstUri(s.pool, uri)].p.id, uri, e.now); } else { SameRowsKeepEndpoints(s, s'); }
    case Suspect(ip) => SuspectKeepsEndpoints(s, ip, e.now, db);
    case CleanUp(threshold) => CleanupKeepsEndpoints(s, threshold, e.now, db);
    case _ => SameRowsKeepEndpoints(s, s');
  }

  /** The same for a step of a reliable run. */
  lemma ReliableKeepsEndpoints(s: Store, e: Event, clock: Time, s': Store)
    requires PoolExact(s, clock) && Step(s, e, s')
    ensures KeepsEndpoints(s, s')
  {
    PoolIsIncluded(s, clock);
    hide PoolExact, Included, Allowed, UniqueIndex, Apply, Restarts, KeepsEndpoints;
    StepKeepsEndpoints(s, e, RELIABLE, s');
  }

  lemma PassedKeepsEndpoints(s: Store, p: Proxy, delay: int, at: Time, deep: bool, now: Time, db: Faults)
    ensures KeepsEndpoints(s, VerifySuccess(s, p, delay, at, deep, now, db))
  {
    var t := ForgetExpired(s, p.ip, now);
    ForgetExpiredKeepsTables(s, p.ip, now);
    if p.id in t.rows { RecheckRow(t, p, delay, at, deep, db); }
    hide URI, Recheck, ForgetExpired, IPLocked, Verified;
  }

  /** A passed check changes one row, and not its endpoint. */
  lemma RecheckRow(t: Store, p: Proxy, delay: int, at: Time, deep: bool, db: Faults)
    requires p.id in t.rows
    ensures var r := Recheck(t, p, delay, at, deep, db);
      && r.nextId == t.nextId && r.rows == t.rows[p.id := Verified(t.rows[p.id], delay, at, deep)]
      && SameEndpoint(t.rows[p.id], r.rows[p.id])
  {
    hide URI, HasUri;
  }

  lemma QuarantineKeepsEndpoints(s: Store, id: nat, uri: string, now: Time)
    requires id in s.rows
    ensures KeepsEndpoints(s, Quarantine(s, id, uri, now))
  {
    hide URI, DropUris, RetryBackoff;
  }

  lemma SuspectKeepsEndpoints(s: Store, ip: string, now: Time, db: Faults)
    ensures KeepsEndpoints(s, Failure(s, ip, now, db).0)
  {
    hide URI, DropIP, TakeDown;
  }

  lemma CleanupKeepsEndpoints(s: Store, threshold: nat, now: Time, db: Faults)
    ensures KeepsEndpoints(s, Cleanup(s, threshold, now, db))
  {
    hide URI, DropUris;
  }

  lemma FoundKeepsEndpoints(s: Store, p: Proxy, now: Time, db: Faults)
    requires Included(s) && UniqueIndex(s.rows) && IsCandidate(p)
    ensures KeepsEndpoints(s, Upsert(s, p, now, db).0)
  {
    hide URI, WellFormed, DropUris, PoolUris;
    ForgetExpiredKeepsTables(s, p.ip, now);
    AcceptedEndpoint(s.rows, p, db.read);
    hide UniqueIndex, Accepted, ForgetExpired, IPLocked, Conflicts, Distinct, HasEndpoint;
  }

  /** An accepted candidate is new, or has the id of the row of its endpoint. */
  lemma AcceptedEndpoint(rows: map<nat, Proxy>, p: Proxy, read: bool)
    requires p.id == 0
    ensures var q := Accepted(rows, p, read);
      q.id == 0 || (q.id in rows && SameEndpoint(rows[q.id], q))
  {}

  // ---- faulty runs ----

  /** The record was read from the table in this state or an earlier one. */
  ghost predicate WasRead(states: seq<Store>, k: nat, p: Proxy)
    requires k < |states|
  {
    exists i :: 0 <= i <= k && p.id in states[i].rows && p == Selected(states[i].rows[p.id])
  }

  /** What the callers do: candidates are new, and checked records were read before. */
  ghost predicate Called(states: seq<Store>, k: nat, op: Op)
    requires k < |states|
  {
    match op
    case Found(p) => IsCandidate(p)
    case Passed(p, _, _, _) => WasRead(states, k, p)
    case Failed(p) => WasRead(states, k, p)
    case _ => true
  }

  ghost predicate FaultyRun(states: seq<Store>, events: seq<Event>, faults: seq<Faults>) {
    && |states| == |events| + 1 == |faults| + 1
    && Included(states[0])
    && forall k :: 0 <= k < |events| ==> FaultyStep(states, events[k], faults[k], k)
  }

  ghost predicate FaultyStep(states: seq<Store>, e: Event, db: Faults, k: nat)
    requires k + 1 < |states|
  {
    && Called(states, k, e.op)
    && (UniqueIndex(states[k].rows) ==>
          if e.op.Restart? then Restarts(states[k], e.now, states[k + 1]) else states[k + 1] == Apply(states[k], e.op, e.now, db))
  }

  lemma ReadIsSnapshot(s: Store, p: Proxy, s': Store)
    requires Included(s) && KeepsEndpoints(s, s') && p.id in s.rows && p == Selected(s.rows[p.id])
    ensures IsSnapshot(s', p)
  {
    hide URI, WellFormed;
  }

  lemma CalledIsAllowed(states: seq<Store>, k: nat, op: Op)
    requires k < |states| && Called(states, k, op)
    requires forall i :: 0 <= i <= k ==> Included(states[i]) && KeepsEndpoints(states[i], states[k])
    ensures Allowed(states[k], op)
  {
    hide Included, KeepsEndpoints, IsSnapshot, IsCandidate, Selected;
    if op.Passed? || op.Failed? {
      var i :| 0 <= i <= k && op.p.id in states[i].rows && op.p == Selected(states[i].rows[op.p.id]);
      ReadIsSnapshot(states[i], op.p, states[k]);
    }
  }

  /** Whatever database calls fail, the pool is never more than the available rows, each cached record
      equals its row, the index lists exactly the pool, and rows keep their endpoints. */
  lemma {:induction false} FaultyRunIncluded(states: seq<Store>, events: seq<Event>, faults: seq<Faults>, k: nat)
    requires FaultyRun(states, events, faults) && k <= |events|
    ensures forall i :: 0 <= i <= k ==> Included(states[i]) && KeepsEndpoints(states[i], states[k])
  {
    hide Included, Apply, Allowed, UniqueIndex, KeepsEndpoints, Called, Restarts;
    if k == 0 {
      SameRowsKeepEndpoints(states[0], states[0]);
    } else {
      FaultyRunIncluded(states, events, faults, k - 1);
      var s, e, db := states[k - 1], events[k - 1], faults[k - 1];
      assert FaultyStep(states, e, db, k - 1);
      CalledIsAllowed(states, k - 1, e.op);
      IncludedHasUniqueIndex(s);
      StepKeepsEndpoints(s, e, db, states[k]);
      SameRowsKeepEndpoints(states[k], states[k]);
      if e.op.Restart? {
        IncludedRows(s);
        RestartIncluded(s, e.now, states[k]);
      } else {
        AnyFaultsIncluded(s, e.op, e.now, db);
      }
      forall i | 0 <= i < k ensures Included(states[i]) && KeepsEndpoints(states[i], states[k]) {
        KeepsEndpointsChain(states[i], s, states[k]);
      }
    }
  }

  lemma IncludedRows(s: Store)
    requires Included(s)
    ensures RowsOK(s)
  {}

  lemma EndpointOf(s: Store, s': Store, id: nat)
    requires KeepsEndpoints(s, s') && id < s.nextId
    ensures id < s'.nextId
    ensures id in s'.rows ==> id in s.rows && SameEndpoint(s.rows[id], s'.rows[id])
  {}
}
