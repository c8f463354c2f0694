/** What a run of the pool never does, and what it always comes to: locks hold, failures are counted,
    quarantined rows recover in bounded time, and records read earlier stay good. */
module PoolSafety {
  import opened Proxies
  import opened PoolStore
  import opened PoolView
  import opened PoolPreserved
  import opened PoolRuns
  import opened PoolFaults
  import opened RowHistory
  import opened Maintenance

  // ---- a locked address stays out ----

  ghost predicate LockedOut(s: Store, ip: string, until: Time) {
    && ip in s.blocked && s.blocked[ip].until >= until && s.blocked[ip].failures >= FAILURE_LOCK_THRESHOLD
    && ip in s.locked && s.locked[ip] >= until
    && (forall id :: id in s.rows && s.rows[id].ip == ip ==> !s.rows[id].available)
    && (forall e :: e in s.pool ==> e.p.ip != ip)
  }

  lemma LockTakesEffect(s: Store, ip: string, now: Time)
    requires Failure(s, ip, now, RELIABLE).1
    ensures LockedOut(Failure(s, ip, now, RELIABLE).0, ip, now + FAILURE_LOCK_DURATION)
  {
    hide URI;
  }

  lemma StepKeepsLockedOut(s: Store, e: Event, s': Store, clock: Time, ip: string, until: Time)
    requires PoolExact(s, clock) && clock <= e.now && Step(s, e, s')
    requires LockedOut(s, ip, until) && e.now < until <= e.now + FAILURE_LOCK_DURATION
    ensures LockedOut(s', ip, until)
  {
    hide URI, RowsOK, PoolExact, Included, UniqueIndex, WellFormed, Upsert, Quarantine, VerifySuccess;
    match e.op
    case Found(p) => FoundKeepsLockedOut(s, p, e.now, ip, until);
    case Passed(p, delay, at, deep) => PassedKeepsLockedOut(s, p, delay, at, deep, e.now, ip, until);
    case Failed(p) => if p.id in s.rows { QuarantineKeepsLockedOut(s, p.id, URI(p), e.now, ip, until); }
    case Refused(uri) =>
      if s' != s { QuarantineKeepsLockedOut(s, s.pool[FirstUri(s.pool, uri)].p.id, uri, e.now, ip, until); }
    case Restart => RestartKeepsLockedOut(s, e.now, s', ip, until);
    case _ =>
  }

  lemma FoundKeepsLockedOut(s: Store, p: Proxy, now: Time, ip: string, until: Time)
    requires UniqueIndex(s.rows) && LockedOut(s, ip, until) && now < until
    ensures LockedOut(Upsert(s, p, now, RELIABLE).0, ip, until)
  {
    hide URI, UniqueIndex;
  }

  lemma PassedKeepsLockedOut(s: Store, p: Proxy, delay: int, at: Time, deep: bool, now: Time, ip: string, until: Time)
    requires LockedOut(s, ip, until) && IsSnapshot(s, p) && now < until
    ensures LockedOut(VerifySuccess(s, p, delay, at, deep, now, RELIABLE), ip, until)
  {
    hide URI;
    var t := ForgetExpired(s, p.ip, now);
    if !IPLocked(s, p.ip, now) && p.id in s.rows && HasUri(t.pool, URI(p)) {
      var i := FirstUri(t.pool, URI(p));
      assert t.pool[i] in t.pool;
    }
  }

  lemma QuarantineKeepsLockedOut(s: Store, id: nat, uri: string, now: Time, ip: string, until: Time)
    requires LockedOut(s, ip, until) && id in s.rows
    ensures LockedOut(Quarantine(s, id, uri, now), ip, until)
  {
    hide URI;
  }

  lemma RestartKeepsLockedOut(s: Store, now: Time, renewed: Store, ip: string, until: Time)
    requires LockedOut(s, ip, until) && Restarts(s, now, renewed) && now < until
    ensures LockedOut(renewed, ip, until)
  {
    hide URI;
    assert forall e :: e in renewed.pool ==> e.p.id in PoolIds(renewed.pool);
  }

  /** Once a failure locks an address, no operation and no restart puts one of its endpoints back in
      the pool, makes one of its rows available, or lifts the lock, until six hours have passed. */
  lemma {:induction false} LockHolds(states: seq<Store>, events: seq<Event>, start: Time, lock: nat, k: nat, ip: string)
    requires IsRun(states, events, start) && lock < k <= |events|
    requires events[lock].op == Suspect(ip) && Failure(states[lock], ip, events[lock].now, RELIABLE).1
    requires ClockAt(events, start, k) < events[lock].now + FAILURE_LOCK_DURATION
    ensures LockedOut(states[k], ip, events[lock].now + FAILURE_LOCK_DURATION)
  {
    hide PoolExact, Step, LockedOut, Failure;
    var until := events[lock].now + FAILURE_LOCK_DURATION;
    if k == lock + 1 {
      assert Step(states[lock], events[lock], states[k]);
      LockTakesEffect(states[lock], ip, events[lock].now);
      SuspectStep(states[lock], events[lock], states[k], ip);
    } else {
      assert events[k - 2].now <= events[k - 1].now;
      LockHolds(states, events, start, lock, k - 1, ip);
      RunPool(states, events, start, k - 1);
      assert Step(states[k - 1], events[k - 1], states[k]);
      assert events[lock].now <= events[k - 1].now;
      StepKeepsLockedOut(states[k - 1], events[k - 1], states[k], ClockAt(events, start, k - 1), ip, until);
    }
  }

  lemma SuspectStep(s: Store, e: Event, s': Store, ip: string)
    requires Step(s, e, s') && e.op == Suspect(ip)
    ensures s' == Failure(s, ip, e.now, RELIABLE).0
  {
    hide Failure;
  }

  // ---- the count of failures ----

  function StoredCount(s: Store, ip: string): (r: nat) {
    if ip in s.blocked then s.blocked[ip].failures else 0
  }

  /** An operation that accepts an endpoint of `ip` as healthy. */
  predicate Accepts(s: Store, e: Event, ip: string) {
    match e.op
    case Found(p) => p.ip == ip && !IPLocked(s, ip, e.now)
    case Passed(p, _, _, _) => p.ip == ip && !IPLocked(s, ip, e.now) && p.id in s.rows
    case _ => false
  }

  /** The failures of `ip` since it was last accepted, read off the run alone. */
  function FailuresSince(states: seq<Store>, events: seq<Event>, k: nat, ip: string): (r: nat)
    requires |states| == |events| + 1 && k <= |events|
  {
    if k == 0 then StoredCount(states[0], ip)
    else if events[k - 1].op == Suspect(ip) then FailuresSince(states, events, k - 1, ip) + 1
    else if Accepts(states[k - 1], events[k - 1], ip) then 0
    else FailuresSince(states, events, k - 1, ip)
  }

  lemma StepCounts(s: Store, e: Event, s': Store, clock: Time, ip: string)
    requires PoolExact(s, clock) && clock <= e.now && Step(s, e, s')
    ensures StoredCount(s', ip) ==
      if e.op == Suspect(ip) then StoredCount(s, ip) + 1 else if Accepts(s, e, ip) then 0 else StoredCount(s, ip)
  {
    hide URI, PoolExact, Quarantine, TakeDown, DropUris, DropIP, Upsert, VerifySuccess, IsSnapshot, IsCandidate, UniqueIndex;
    match e.op
    case Found(p) => hide Failure, Restarts; FoundTables(s, p, e.now);
    case Passed(p, delay, at, deep) => hide Failure, Restarts; PassedTables(s, p, delay, at, deep, e.now);
    case Failed(p) => hide Failure, Restarts; if p.id in s.rows { QuarantineKeepsBlocked(s, p.id, URI(p), e.now); }
    case Refused(uri) => hide Failure, Restarts;
      if s' != s { QuarantineKeepsBlocked(s, s.pool[FirstUri(s.pool, uri)].p.id, uri, e.now); }
    case _ =>
  }

  /** What an accepted or rejected candidate leaves in the tables. */
  lemma FoundTables(s: Store, p: Proxy, now: Time)
    requires UniqueIndex(s.rows)
    ensures var r := Upsert(s, p, now, RELIABLE).0;
      if IPLocked(s, p.ip, now) then r == s
      else
        var row := AcceptedRow(s, p, true);
        && r.rows == s.rows[row.id := row] && r.blocked == s.blocked - {p.ip}
        && r.nextId == SaveRow(s, row).nextId
  {
    hide URI, DropUris;
    ForgetExpiredKeepsTables(s, p.ip, now);
    ReliableNeverConflicts(s.rows, p);
    AcceptedIsAvailable(s.rows, p, true);
    hide Accepted, Conflicts, UniqueIndex;
  }

  /** What a passed check leaves in the tables. */
  lemma PassedTables(s: Store, p: Proxy, delay: int, at: Time, deep: bool, now: Time)
    ensures var r := VerifySuccess(s, p, delay, at, deep, now, RELIABLE);
      && r.nextId == s.nextId
      && if IPLocked(s, p.ip, now) || p.id !in s.rows then r.rows == s.rows && r.blocked == s.blocked
         else r.rows == s.rows[p.id := Verified(s.rows[p.id], delay, at, deep)] && r.blocked == s.blocked - {p.ip}
  {
    hide URI, Verified, Recheck;
    var t := ForgetExpired(s, p.ip, now);
    ForgetExpiredKeepsTables(s, p.ip, now);
    if p.id in s.rows {
      RecheckTables(t, p, delay, at, deep);
    }
  }

  lemma RecheckTables(t: Store, p: Proxy, delay: int, at: Time, deep: bool)
    requires p.id in t.rows
    ensures var r := Recheck(t, p, delay, at, deep, RELIABLE);
      && r.nextId == t.nextId && r.rows == t.rows[p.id := Verified(t.rows[p.id], delay, at, deep)]
      && r.blocked == t.blocked - {p.ip}
  {
    hide URI, Verified, HasUri;
  }

  lemma QuarantineKeepsBlocked(s: Store, id: nat, uri: string, now: Time)
    requires id in s.rows
    ensures Quarantine(s, id, uri, now).blocked == s.blocked
  {
    hide URI;
  }

  /** The stored count is the number of failures since the last acceptance, across restarts too, and a
      failure locks the address exactly when that number reaches three. */
  lemma {:induction false} CountIsFailuresSince(states: seq<Store>, events: seq<Event>, start: Time, k: nat, ip: string)
    requires IsRun(states, events, start) && k <= |events|
    ensures StoredCount(states[k], ip) == FailuresSince(states, events, k, ip)
    ensures k < |events| && events[k].op == Suspect(ip) ==>
      (Failure(states[k], ip, events[k].now, RELIABLE).1 <==> FailuresSince(states, events, k + 1, ip) >= 3)
  {
    hide PoolExact, Step, TakeDown, DropIP, Accepts;
    if k > 0 {
      CountIsFailuresSince(states, events, start, k - 1, ip);
      RunPool(states, events, start, k - 1);
      assert Step(states[k - 1], events[k - 1], states[k]);
      assert ClockAt(events, start, k - 1) <= events[k - 1].now;
      StepCounts(states[k - 1], events[k - 1], states[k], ClockAt(events, start, k - 1), ip);
    }
  }

  // ---- bounded recovery ----

  /** A failure of row `id` itself or of its address. */
  predicate Touches(s: Store, op: Op, id: nat) {
    id in s.rows &&
    match op
    case Failed(p) => p.id == id
    case Refused(uri) => uri == URI(s.rows[id])
    case Suspect(ip) => ip == s.rows[id].ip
    case _ => false
  }

  /** When row `id` or its address last failed; the start of the run when it has not. */
  function LastFailure(states: seq<Store>, events: seq<Event>, start: Time, k: nat, id: nat): (r: Time)
    requires |states| == |events| + 1 && k <= |events|
  {
    if k == 0 then start
    else if Touches(states[k - 1], events[k - 1].op, id) then events[k - 1].now
    else LastFailure(states, events, start, k - 1, id)
  }

  /** Row `id` is neither delayed nor locked beyond a day after `since`. */
  ghost predicate RecoversBy(s: Store, id: nat, since: Time) {
    id in s.rows ==>
      && RetryAt(s.rows[id]) <= since + DAY
      && (s.rows[id].ip in s.blocked ==> s.blocked[s.rows[id].ip].until <= since + DAY)
  }

  lemma StepRecovers(s: Store, e: Event, s': Store, clock: Time, id: nat, since: Time)
    requires PoolExact(s, clock) && clock <= e.now && since <= e.now && Step(s, e, s')
    requires RecoversBy(s, id, since)
    ensures RecoversBy(s', id, if Touches(s, e.op, id) then e.now else since)
  {
    hide URI, PoolExact, Upsert, VerifySuccess, Quarantine, IsSnapshot, IsCandidate, UniqueIndex, RecoversBy, RetryBackoff;
    PoolIsIncluded(s, clock);
    match e.op
    case Found(p) => FoundRecovers(s, p, e.now, id, since);
    case Passed(p, delay, at, deep) => PassedRecovers(s, p, delay, at, deep, e.now, id, since);
    case Failed(p) =>
      if p.id in s.rows { QuarantineRecovers(s, p.id, URI(p), e.now, id, since); } else { GoneRecovers(s, p.id, id, since, e.now); }
    case Refused(uri) => RefusedRecovers(s, uri, e.now, id, since);
    case Suspect(ip) => SuspectRecovers(s, ip, e.now, id, since);
    case CleanUp(threshold) => CleanupRecovers(s, threshold, e.now, id, since);
    case _ => SameTablesRecover(s, s', id, since);
  }

  lemma SameTablesRecover(s: Store, s': Store, id: nat, since: Time)
    requires RecoversBy(s, id, since)
    ensures s.rows == s'.rows && s.blocked == s'.blocked ==> RecoversBy(s', id, since)
  {}

  lemma GoneRecovers(s: Store, target: nat, id: nat, since: Time, now: Time)
    requires RecoversBy(s, id, since) && target !in s.rows
    ensures target == id ==> RecoversBy(s, id, now)
  {}

  lemma RefusedRecovers(s: Store, uri: string, now: Time, id: nat, since: Time)
    requires Included(s) && since <= now && RecoversBy(s, id, since)
    ensures RecoversBy(ProxyUnavailable(s, uri, now, RELIABLE), id, if Touches(s, Refused(uri), id) then now else since)
  {
    hide URI, Quarantine;
    if HasUri(s.pool, uri) {
      ProxyUnavailableTarget(s, uri);
      QuarantineRecovers(s, s.pool[FirstUri(s.pool, uri)].p.id, uri, now, id, since);
    }
  }

  lemma SuspectRecovers(s: Store, ip: string, now: Time, id: nat, since: Time)
    requires since <= now && RecoversBy(s, id, since)
    ensures RecoversBy(Failure(s, ip, now, RELIABLE).0, id, if Touches(s, Suspect(ip), id) then now else since)
  {
    hide URI, DropIP, TakeDown;
  }

  lemma CleanupRecovers(s: Store, threshold: nat, now: Time, id: nat, since: Time)
    requires RecoversBy(s, id, since)
    ensures RecoversBy(Cleanup(s, threshold, now, RELIABLE), id, since)
  {
    hide URI, DropUris;
  }

  lemma FoundRecovers(s: Store, p: Proxy, now: Time, id: nat, since: Time)
    requires UniqueIndex(s.rows) && RecoversBy(s, id, since)
    ensures RecoversBy(Upsert(s, p, now, RELIABLE).0, id, since)
  {
    hide URI, Upsert;
    FoundTables(s, p, now);
    AcceptedIsAvailable(s.rows, p, true);
    hide Accepted, UniqueIndex;
  }

  lemma PassedRecovers(s: Store, p: Proxy, delay: int, at: Time, deep: bool, now: Time, id: nat, since: Time)
    requires RecoversBy(s, id, since)
    ensures RecoversBy(VerifySuccess(s, p, delay, at, deep, now, RELIABLE), id, since)
  {
    hide URI, VerifySuccess;
    PassedTables(s, p, delay, at, deep, now);
  }

  lemma QuarantineRecovers(s: Store, target: nat, uri: string, now: Time, id: nat, since: Time)
    requires target in s.rows && since <= now && RecoversBy(s, id, since)
    ensures RecoversBy(Quarantine(s, target, uri, now), id, if target == id then now else since)
  {
    hide URI, DropUris;
  }

  lemma {:induction false} RunRecovers(states: seq<Store>, events: seq<Event>, start: Time, k: nat, id: nat)
    requires IsRun(states, events, start) && k <= |events|
    requires forall i :: RecoversBy(states[0], i, start)
    ensures RecoversBy(states[k], id, LastFailure(states, events, start, k, id))
    ensures LastFailure(states, events, start, k, id) <= ClockAt(events, start, k)
  {
    hide PoolExact, Step, RecoversBy, Touches;
    if k > 0 {
      RunRecovers(states, events, start, k - 1, id);
      RunPool(states, events, start, k - 1);
      assert Step(states[k - 1], events[k - 1], states[k]);
      assert ClockAt(events, start, k - 1) <= events[k - 1].now;
      StepRecovers(states[k - 1], events[k - 1], states[k], ClockAt(events, start, k - 1), id,
                   LastFailure(states, events, start, k - 1, id));
    } else {
      assert RecoversBy(states[0], id, start);
    }
  }

  /** In every state of a run, a quarantined row that has a retry time is returned to the verifier exactly from a
      time that is at most a day after the row or its address last failed; one that has none never is. */
  lemma QuarantineIsBounded(states: seq<Store>, events: seq<Event>, start: Time, k: nat, id: nat, t: Time, interval: nat)
    requires IsRun(states, events, start) && k <= |events|
    requires forall i :: RecoversBy(states[0], i, start)
    requires id in states[k].rows && !states[k].rows[id].available
    ensures var s := states[k];
      && (id in UnVerifiedIds(s.rows, s.blocked, t, interval) <==>
            TimeWritten(states, events, k, id) && t >= RecoversAt(s.rows[id], s.blocked))
      && RecoversAt(s.rows[id], s.blocked) <= LastFailure(states, events, start, k, id) + DAY
  {
    RunRecovers(states, events, start, k, id);
    TimePresentWhen(states, events, start, k, id);
    DueExactlyFrom(states[k].rows, states[k].blocked, id, t, interval);
  }

  // ---- delays stay bounded ----

  lemma QuarantineBounded(s: Store, id: nat, uri: string, now: Time, grace: Time)
    requires DelaysBounded(s, grace) && id in s.rows
    ensures DelaysBounded(Quarantine(s, id, uri, now), grace)
  {
    hide URI, DropUris;
  }

  lemma FoundBounded(s: Store, p: Proxy, now: Time, grace: Time)
    requires UniqueIndex(s.rows) && DelaysBounded(s, grace)
    ensures DelaysBounded(Upsert(s, p, now, RELIABLE).0, grace)
  {
    hide URI, Upsert;
    FoundTables(s, p, now);
    AcceptedIsAvailable(s.rows, p, true);
    hide Accepted, UniqueIndex;
  }

  lemma PassedBounded(s: Store, p: Proxy, delay: int, at: Time, deep: bool, now: Time, grace: Time)
    requires DelaysBounded(s, grace)
    ensures DelaysBounded(VerifySuccess(s, p, delay, at, deep, now, RELIABLE), grace)
  {
    hide URI, VerifySuccess;
    PassedTables(s, p, delay, at, deep, now);
  }

  lemma SuspectBounded(s: Store, ip: string, now: Time, grace: Time)
    requires DelaysBounded(s, grace)
    ensures DelaysBounded(Failure(s, ip, now, RELIABLE).0, grace)
  {
    hide URI, DropIP, TakeDown;
  }

  lemma CleanupBounded(s: Store, threshold: nat, now: Time, grace: Time)
    requires DelaysBounded(s, grace)
    ensures DelaysBounded(Cleanup(s, threshold, now, RELIABLE), grace)
  {
    hide URI, DropUris;
  }

  lemma SameRowsBounded(s: Store, s': Store, grace: Time)
    requires DelaysBounded(s, grace)
    ensures s.rows == s'.rows ==> DelaysBounded(s', grace)
  {}

  lemma StepBounded(s: Store, e: Event, s': Store, grace: Time)
    requires DelaysBounded(s, grace) && Step(s, e, s')
    ensures DelaysBounded(s', grace)
  {
    hide URI, Upsert, VerifySuccess, Quarantine, Failure, Cleanup, IsSnapshot, IsCandidate, UniqueIndex, DelaysBounded;
    SameRowsBounded(s, s', grace);
    match e.op
    case Found(p) => FoundBounded(s, p, e.now, grace);
    case Passed(p, delay, at, deep) => PassedBounded(s, p, delay, at, deep, e.now, grace);
    case Failed(p) => if p.id in s.rows { QuarantineBounded(s, p.id, URI(p), e.now, grace); }
    case Refused(uri) =>
      if s' != s { QuarantineBounded(s, s.pool[FirstUri(s.pool, uri)].p.id, uri, e.now, grace); }
    case Suspect(ip) => SuspectBounded(s, ip, e.now, grace);
    case CleanUp(threshold) => CleanupBounded(s, threshold, e.now, grace);
    case _ =>
  }

  lemma {:induction false} RunBounded(states: seq<Store>, events: seq<Event>, start: Time, k: nat, grace: Time)
    requires IsRun(states, events, start) && k <= |events| && DelaysBounded(states[0], grace)
    ensures DelaysBounded(states[k], grace)
    decreases k
  {
    hide PoolExact, Step, DelaysBounded;
    if k > 0 {
      RunBounded(states, events, start, k - 1, grace);
      assert Step(states[k - 1], events[k - 1], states[k]);
      StepBounded(states[k - 1], events[k - 1], states[k], grace);
    }
  }

  ghost predicate LongCleanups(events: seq<Event>) {
    forall i :: 0 <= i < |events| && events[i].op.CleanUp? ==> events[i].op.threshold >= DAY
  }

  lemma {:induction false} LongCleanupsForgetLittle(states: seq<Store>, events: seq<Event>, start: Time, k: nat, grace: Time)
    requires IsRun(states, events, start) && k <= |events| && DelaysBounded(states[0], grace) && LongCleanups(events)
    ensures ForgottenUntil(states, events, grace, k) <= grace
    decreases k
  {
    hide PoolExact, Step, DelaysBounded, LatestForgotten, ForgetsUntil;
    if k > 0 {
      LongCleanupsForgetLittle(states, events, start, k - 1, grace);
      RunBounded(states, events, start, k - 1, grace);
      var s, e := states[k - 1], events[k - 1];
      if e.op.CleanUp? { LongCleanupForgetsUntil(s, e.op.threshold, e.now, grace); }
    }
  }

  /** In a run whose delays begin bounded but for exceptional ones up to `grace`, and whose cleanups spare a day or
      more, every state from `grace` on is an exact view. */
  lemma LongCleanupsStayExact(states: seq<Store>, events: seq<Event>, start: Time, k: nat, grace: Time)
    requires IsRun(states, events, start) && k <= |events| && LongCleanups(events)
    requires RetriesAgree(states[0], start, grace) && DelaysBounded(states[0], grace)
    ensures ExactBeyond(states[k], ClockAt(events, start, k), grace)
    ensures grace <= ClockAt(events, start, k) ==> ExactView(states[k], ClockAt(events, start, k))
  {
    hide PoolExact, RetriesAgree, Step, DelaysBounded, LongCleanups;
    RunExact(states, events, start, k, grace);
    LongCleanupsForgetLittle(states, events, start, k, grace);
    LooserRetries(states[k], ClockAt(events, start, k), ForgottenUntil(states, events, grace, k), grace);
  }

  // ---- records read earlier ----

  /** A row never changes endpoint and its id is never reused, so a record the verifier read earlier is
      still a snapshot when its check ends: what `Allowed` asks of routine checks holds by itself. */
  lemma {:induction false} SnapshotStaysGood(states: seq<Store>, events: seq<Event>, start: Time, i: nat, k: nat, id: nat)
    requires IsRun(states, events, start) && i <= k <= |events| && id in states[i].rows
    ensures id < states[k].nextId
    ensures id in states[k].rows ==> SameEndpoint(states[i].rows[id], states[k].rows[id])
    ensures IsSnapshot(states[k], Selected(states[i].rows[id]))
  {
    hide Step, KeepsEndpoints, WellFormed;
    RunPool(states, events, start, i);
    if k > i {
      SnapshotStaysGood(states, events, start, i, k - 1, id);
      RunPool(states, events, start, k - 1);
      assert Step(states[k - 1], events[k - 1], states[k]);
      ReliableKeepsEndpoints(states[k - 1], events[k - 1], ClockAt(events, start, k - 1), states[k]);
      EndpointOf(states[k - 1], states[k], id);
    }
  }
}
