/** Whole runs of the pool: any sequence of lifecycle operations and restarts, on a clock that never
    goes back, starting from a pool that is exact but perhaps for its retry times. */
module PoolRuns {
  import opened Proxies
  import opened PoolStore
  import opened PoolView
  import opened PoolPreserved

  datatype Op =
    | Found(p: Proxy)                                            // a candidate passed validation
    | Passed(p: Proxy, delay: int, at: Time, deep: bool)         // a routine check passed
    | Failed(p: Proxy)                                           // a routine check failed
    | Refused(uri: string)                                       // an upstream answered 403 or 407
    | Suspect(ip: string)                                        // one more failure of an address
    | AskLocked(ip: string)
    | AskDue(uri: string)
    | CleanUp(threshold: nat)
    | Used(position: Option<nat>)                                // a request was handed the entry at a position
    | Restart

  datatype Event = Event(op: Op, now: Time)

  /** What callers guarantee: see IsCandidate and IsSnapshot. */
  ghost predicate Allowed(s: Store, op: Op) {
    match op
    case Found(p) => IsCandidate(p)
    case Passed(p, _, _, _) => IsSnapshot(s, p)
    case Failed(p) => IsSnapshot(s, p)
    case _ => true
  }

  /** What one operation other than a restart does when the database calls in `db` succeed. */
  ghost function Apply(s: Store, op: Op, now: Time, db: Faults): (r: Store)
    requires op.Found? ==> UniqueIndex(s.rows)
  {
    match op
    case Found(p) => Upsert(s, p, now, db).0
    case Passed(p, delay, at, deep) => VerifySuccess(s, p, delay, at, deep, now, db)
    case Failed(p) => VerifyFailed(s, p, now, db).0
    case Refused(uri) => ProxyUnavailable(s, uri, now, db)
    case Suspect(ip) => Failure(s, ip, now, db).0
    case AskLocked(ip) => ForgetExpired(s, ip, now)
    case AskDue(uri) => ForgetDue(s, uri, now)
    case CleanUp(threshold) => Cleanup(s, threshold, now, db)
    case Used(position) => UseEntry(s, position)
    case Restart => s
  }

  ghost predicate Step(s: Store, e: Event, s': Store) {
    && Allowed(s, e.op) && UniqueIndex(s.rows)
    && if e.op.Restart? then Restarts(s, e.now, s') else s' == Apply(s, e.op, e.now, RELIABLE)
  }

  ghost predicate IsRun(states: seq<Store>, events: seq<Event>, start: Time) {
    && |states| == |events| + 1
    && PoolExact(states[0], start)
    && (events != [] ==> start <= events[0].now)
    && (forall i, j :: 0 <= i <= j < |events| ==> events[i].now <= events[j].now)
    && (forall i :: 0 <= i < |events| ==> Step(states[i], events[i], states[i + 1]))
  }

  /** The clock when state k was reached. */
  function ClockAt(events: seq<Event>, start: Time, k: nat): (r: Time)
    requires k <= |events|
  {
    if k == 0 then start else events[k - 1].now
  }

  // ---- one step ----

  lemma AnyFaultsIncluded(s: Store, op: Op, now: Time, db: Faults)
    requires Included(s) && Allowed(s, op)
    ensures UniqueIndex(s.rows) && Included(Apply(s, op, now, db))
  {
    hide URI, Included, Upsert, VerifySuccess, Quarantine, Failure, Cleanup, IsSnapshot, IsCandidate, UniqueIndex;
    IncludedHasUniqueIndex(s);
    match op
    case Found(p) => UpsertIncluded(s, p, now, db);
    case Passed(p, delay, at, deep) => VerifySuccessIncluded(s, p, delay, at, deep, now, db);
    case Failed(p) => FailedIncluded(s, p, now, db);
    case Refused(uri) => RefusedIncluded(s, uri, now, db);
    case Suspect(ip) => FailureIncluded(s, ip, now, db);
    case AskLocked(ip) => ForgetExpiredKeeps(s, ip, now, now);
    case AskDue(uri) => ForgetDueKeeps(s, uri, now, now);
    case CleanUp(threshold) => CleanupIncluded(s, threshold, now, db);
    case Used(position) => UseIncluded(s, position);
    case Restart =>
  }

  lemma FailedIncluded(s: Store, p: Proxy, now: Time, db: Faults)
    requires Included(s) && IsSnapshot(s, p)
    ensures Included(VerifyFailed(s, p, now, db).0)
  {
    hide URI, Quarantine;
    if p.id in s.rows {
      SnapshotUri(s, p);
      QuarantineIncluded(s, p.id, URI(p), now);
    }
  }

  lemma RefusedIncluded(s: Store, uri: string, now: Time, db: Faults)
    requires Included(s)
    ensures Included(ProxyUnavailable(s, uri, now, db))
  {
    hide URI, Quarantine;
    if HasUri(s.pool, uri) {
      ProxyUnavailableTarget(s, uri);
      QuarantineIncluded(s, s.pool[FirstUri(s.pool, uri)].p.id, uri, now);
    }
  }

  /** Pool, index and locks stay exact in every step, whatever a cleanup removes. */
  lemma StepKeepsPool(s: Store, e: Event, s': Store, clock: Time)
    requires PoolExact(s, clock) && clock <= e.now && Step(s, e, s')
    ensures PoolExact(s', e.now)
  {
    hide URI, PoolExact, ExactView, Upsert, VerifySuccess, Quarantine, Failure, Cleanup, IsSnapshot, IsCandidate, UniqueIndex, Restarts;
    match e.op
    case Found(p) => UpsertKeepsPool(s, p, clock, e.now);
    case Passed(p, delay, at, deep) => VerifySuccessKeepsPool(s, p, delay, at, deep, clock, e.now);
    case Failed(p) => FailedKeepsPool(s, p, clock, e.now);
    case Refused(uri) => RefusedKeepsPool(s, uri, clock, e.now);
    case Suspect(ip) => FailureKeepsPool(s, ip, clock, e.now);
    case AskLocked(ip) => ForgetExpiredKeeps(s, ip, clock, e.now);
    case AskDue(uri) => ForgetDueKeeps(s, uri, clock, e.now);
    case CleanUp(threshold) => CleanupKeepsPool(s, threshold, clock, e.now);
    case Used(position) => UseKeepsPool(s, position, clock, e.now);
    case Restart => RestartInvisible(s, clock, e.now, s', ZERO_TIME); ExactIsPool(s', e.now);
  }

  lemma ExactIsPool(s: Store, clock: Time)
    requires ExactView(s, clock)
    ensures PoolExact(s, clock) && RetriesAgree(s, clock, ZERO_TIME)
  {
    hide PoolExact, RetriesAgree;
  }

  lemma PoolIsIncluded(s: Store, clock: Time)
    requires PoolExact(s, clock)
    ensures Included(s) && RowsOK(s) && NothingAvailableWaits(s, clock)
  {
    hide URI, WellFormed;
  }

  lemma FailedKeepsPool(s: Store, p: Proxy, clock: Time, now: Time)
    requires PoolExact(s, clock) && clock <= now && IsSnapshot(s, p)
    ensures PoolExact(VerifyFailed(s, p, now, RELIABLE).0, now)
  {
    hide URI, Quarantine;
    LaterPool(s, clock, now);
    if p.id in s.rows {
      SnapshotUri(s, p);
      QuarantineKeepsPool(s, p.id, URI(p), clock, now);
    }
  }

  lemma RefusedKeepsPool(s: Store, uri: string, clock: Time, now: Time)
    requires PoolExact(s, clock) && clock <= now
    ensures PoolExact(ProxyUnavailable(s, uri, now, RELIABLE), now)
  {
    hide URI, Quarantine;
    LaterPool(s, clock, now);
    if HasUri(s.pool, uri) {
      ProxyUnavailableTarget(s, uri);
      QuarantineKeepsPool(s, s.pool[FirstUri(s.pool, uri)].p.id, uri, clock, now);
    }
  }

  // ---- what cleanups forget ----

  /** How long retry times without a row may stay in memory after one more operation: a cleanup adds those of the
      rows it removes, a restart ends them all. */
  ghost function ForgottenAfter(s: Store, op: Op, now: Time, grace: Time): (r: Time) {
    match op
    case CleanUp(threshold) =>
      var forgotten := LatestForgotten(s, threshold, now);
      if forgotten > grace then forgotten else grace
    case Restart => ZERO_TIME
    case _ => grace
  }

  /** The same over the first k operations of a run that began with `grace`. */
  ghost function ForgottenUntil(states: seq<Store>, events: seq<Event>, grace: Time, k: nat): (r: Time)
    requires |states| == |events| + 1 && k <= |events|
  {
    if k == 0 then grace
    else ForgottenAfter(states[k - 1], events[k - 1].op, events[k - 1].now, ForgottenUntil(states, events, grace, k - 1))
  }

  lemma StepKeepsRetries(s: Store, e: Event, s': Store, clock: Time, grace: Time)
    requires PoolExact(s, clock) && RetriesAgree(s, clock, grace) && clock <= e.now && Step(s, e, s')
    ensures RetriesAgree(s', e.now, ForgottenAfter(s, e.op, e.now, grace))
  {
    PoolIsIncluded(s, clock);
    LaterPool(s, clock, e.now);
    PoolIsIncluded(s, e.now);
    hide URI, RetriesAgree, NothingAvailableWaits, PoolExact, Included, RowsOK, ExactView, Upsert, VerifySuccess, Quarantine, Failure, Cleanup;
    hide IsSnapshot, IsCandidate, UniqueIndex, Restarts, LatestForgotten, ForgetsUntil;
    LaterRetries(s, clock, e.now, grace);
    match e.op
    case Found(p) => UpsertKeepsRetries(s, p, e.now, grace);
    case Passed(p, delay, at, deep) => VerifySuccessKeepsRetries(s, p, delay, at, deep, e.now, grace);
    case Failed(p) => FailedKeepsRetries(s, p, e.now, grace);
    case Refused(uri) => RefusedKeepsRetries(s, uri, e.now, grace);
    case Suspect(ip) => FailureKeepsRetries(s, ip, e.now, grace);
    case AskDue(uri) => ForgetDueKeepsRetries(s, uri, e.now, grace);
    case CleanUp(threshold) =>
      var looser := ForgottenAfter(s, e.op, e.now, grace);
      LooserRetries(s, e.now, grace, looser);
      CleanupKeepsRetries(s, threshold, e.now, looser);
    case Restart => RestartInvisible(s, clock, e.now, s', grace); ExactIsPool(s', e.now);
    case AskLocked(ip) => SameRetries(s, s', e.now, grace);
    case Used(position) => SameRetries(s, s', e.now, grace);
  }

  lemma FailedKeepsRetries(s: Store, p: Proxy, now: Time, grace: Time)
    requires RowsOK(s) && RetriesAgree(s, now, grace) && IsSnapshot(s, p)
    ensures RetriesAgree(VerifyFailed(s, p, now, RELIABLE).0, now, grace)
  {
    hide URI, Quarantine, RetriesAgree;
    if p.id in s.rows {
      SnapshotUri(s, p);
      QuarantineRetries(s, p.id, URI(p), now, grace);
    }
  }

  lemma RefusedKeepsRetries(s: Store, uri: string, now: Time, grace: Time)
    requires Included(s) && RetriesAgree(s, now, grace)
    ensures RetriesAgree(ProxyUnavailable(s, uri, now, RELIABLE), now, grace)
  {
    hide URI, Quarantine, RetriesAgree;
    if HasUri(s.pool, uri) {
      ProxyUnavailableTarget(s, uri);
      QuarantineRetries(s, s.pool[FirstUri(s.pool, uri)].p.id, uri, now, grace);
    }
  }

  // ---- every reachable state ----

  /** Pool, index and locks are exact in every state of every run. */
  lemma {:induction false} RunPool(states: seq<Store>, events: seq<Event>, start: Time, k: nat)
    requires IsRun(states, events, start) && k <= |events|
    ensures PoolExact(states[k], ClockAt(events, start, k))
  {
    hide PoolExact, Step;
    if k > 0 {
      RunPool(states, events, start, k - 1);
      assert Step(states[k - 1], events[k - 1], states[k]);
      assert ClockAt(events, start, k - 1) <= events[k - 1].now;
      StepKeepsPool(states[k - 1], events[k - 1], states[k], ClockAt(events, start, k - 1));
    }
  }

  /** Every state of every run is an exact view but for retry times up to the latest one a cleanup forgot since the
      last restart: once that has passed, it is an exact view again. */
  lemma {:induction false} RunExact(states: seq<Store>, events: seq<Event>, start: Time, k: nat, grace: Time)
    requires IsRun(states, events, start) && k <= |events| && RetriesAgree(states[0], start, grace)
    ensures ExactBeyond(states[k], ClockAt(events, start, k), ForgottenUntil(states, events, grace, k))
    ensures ForgottenUntil(states, events, grace, k) <= ClockAt(events, start, k) ==>
              ExactView(states[k], ClockAt(events, start, k))
  {
    hide PoolExact, RetriesAgree, Step, ForgottenAfter;
    RunPool(states, events, start, k);
    var clock := ClockAt(events, start, k);
    if k > 0 {
      RunExact(states, events, start, k - 1, grace);
      RunPool(states, events, start, k - 1);
      assert Step(states[k - 1], events[k - 1], states[k]);
      assert ClockAt(events, start, k - 1) <= clock;
      StepKeepsRetries(states[k - 1], events[k - 1], states[k], ClockAt(events, start, k - 1), ForgottenUntil(states, events, grace, k - 1));
    }
    if ForgottenUntil(states, events, grace, k) <= clock { GraceIsOver(states[k], clock, ForgottenUntil(states, events, grace, k)); }
  }

  /** Between any two operations of a run: the endpoints in the pool, the index, and the endpoints of the available
      rows are the same, each once, with equal records; and a process started at any later time would answer the
      same about locks. */
  lemma PoolMatchesTables(states: seq<Store>, events: seq<Event>, start: Time, k: nat, now: Time, renewed: Store)
    requires IsRun(states, events, start) && k <= |events| && ClockAt(events, start, k) <= now
    requires Restarts(states[k], now, renewed)
    ensures var s := states[k];
      && s.index == PoolUris(s.pool) == (set id | id in s.rows && s.rows[id].available :: URI(s.rows[id]))
      && (forall e :: e in s.pool ==> e.p.id in s.rows && e.p == s.rows[e.p.id])
      && (forall i, j :: 0 <= i < j < |s.pool| ==> URI(s.pool[i].p) != URI(s.pool[j].p))
      && renewed.index == s.index
      && (forall ip, t :: now <= t ==> (IPLocked(renewed, ip, t) <==> IPLocked(s, ip, t)))
  {
    RunPool(states, events, start, k);
    RestartInvisible(states[k], ClockAt(events, start, k), now, renewed, ZERO_TIME);
    IndexIsAvailable(states[k], ClockAt(events, start, k));
  }

  /** The same about retry times: whatever a process refuses to check again, the one running refuses too, and once
      the forgotten times have passed the two answer alike. */
  lemma RetriesMatchTables(states: seq<Store>, events: seq<Event>, start: Time, k: nat, grace: Time, now: Time, renewed: Store, u: string, t: Time)
    requires IsRun(states, events, start) && k <= |events| && ClockAt(events, start, k) <= now <= t
    requires RetriesAgree(states[0], start, grace) && Restarts(states[k], now, renewed)
    ensures ValidationDue(states[k], u, t) ==> ValidationDue(renewed, u, t)
    ensures ForgottenUntil(states, events, grace, k) <= t ==> (ValidationDue(renewed, u, t) <==> ValidationDue(states[k], u, t))
  {
    hide PoolExact, RetriesAgree, Step, Restarts, ValidationDue, ForgottenUntil;
    var clock, until := ClockAt(events, start, k), ForgottenUntil(states, events, grace, k);
    RunExact(states, events, start, k, grace);
    LaterRetries(states[k], clock, now, until);
    RestartInvisible(states[k], clock, now, renewed, until);
    assert SameAnswerBeyond(states[k], renewed, u, t, until);
  }

  lemma IndexIsAvailable(s: Store, clock: Time)
    requires PoolExact(s, clock)
    ensures s.index == (set id | id in s.rows && s.rows[id].available :: URI(s.rows[id]))
    ensures forall i, j :: 0 <= i < j < |s.pool| ==> URI(s.pool[i].p) != URI(s.pool[j].p)
  {
    hide URI, WellFormed;
    var live := set id | id in s.rows && s.rows[id].available :: URI(s.rows[id]);
    forall u | u in live ensures u in s.index {
      var id :| id in s.rows && s.rows[id].available && URI(s.rows[id]) == u;
      assert id in PoolIds(s.pool);
      var e :| e in s.pool && e.p.id == id;
      assert e.p == s.rows[id];
    }
    forall i, j | 0 <= i < j < |s.pool| ensures URI(s.pool[i].p) != URI(s.pool[j].p) {
      assert s.pool[i] in s.pool && s.pool[j] in s.pool;
    }
  }

  // ---- unreliable databases ----

  /** What the two outcomes of the reload leave of a recovered row outside the pool. */
  lemma ReloadOf(s: Store, p: Proxy, delay: int, at: Time, now: Time, reload: bool)
    requires Included(s) && IsSnapshot(s, p) && p.id in s.rows && !s.rows[p.id].available && !IPLocked(s, p.ip, now)
    ensures var r := VerifySuccess(s, p, delay, at, false, now, Faults(reload, true, true));
      && r.rows == s.rows[p.id := Verified(s.rows[p.id], delay, at, false)] && p.id !in PoolIds(s.pool)
      && r.pool == if reload then s.pool + [Entry(r.rows[p.id], 0)] else s.pool
  {
    var t := ForgetExpired(s, p.ip, now);
    NotThere(t, p);
    hide URI, WellFormed, Included, IsSnapshot, RowsOK, HasUri;
  }

  lemma NotThere(t: Store, p: Proxy)
    requires Included(t) && IsSnapshot(t, p) && p.id in t.rows && !t.rows[p.id].available
    ensures !HasUri(t.pool, URI(p)) && p.id !in PoolIds(t.pool)
  {
    SnapshotUri(t, p);
    HasUriMember(t.pool, URI(p));
    hide URI, WellFormed, HasUri;
    assert forall e :: e in t.pool ==> e.p == t.rows[e.p.id] && e.p.id != p.id;
  }

  /** Inclusion alone is not exactness: when the reload of a recovered row fails, the row is available
      but not in the pool. */
  lemma ReloadFaultLosesRow(s: Store, p: Proxy, delay: int, at: Time, now: Time)
    requires Included(s) && IsSnapshot(s, p) && p.id in s.rows && !s.rows[p.id].available && !IPLocked(s, p.ip, now)
    ensures !Complete(VerifySuccess(s, p, delay, at, false, now, Faults(false, true, true)))
    ensures Complete(s) ==> Complete(VerifySuccess(s, p, delay, at, false, now, RELIABLE))
  {
    ReloadOf(s, p, delay, at, now, false);
    ReloadOf(s, p, delay, at, now, true);
    assert s.rows[p.id].id == p.id && Verified(s.rows[p.id], delay, at, false).id == p.id;
    hide URI, WellFormed, VerifySuccess, Included, IsSnapshot, IPLocked, RowsOK;
    var ok := VerifySuccess(s, p, delay, at, false, now, RELIABLE);
    assert ok.pool[|s.pool|].p.id == p.id && ok.pool[|s.pool|] in ok.pool;
    assert forall e :: e in s.pool ==> e in ok.pool;
  }
}
