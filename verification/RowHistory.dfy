/** What the row of an endpoint says in every state of a run, read off what happened to it: its failures in a row, its
    last checks, its delay and its retry time, and so when the verifier gets it again. */
module RowHistory {
  import opened Proxies
  import opened PoolStore
  import opened PoolView
  import opened PoolPreserved
  import opened PoolEffects
  import opened PoolRuns
  import opened Maintenance

  datatype Facts = Facts(failures: nat, lastVerify: Time, lastDeepVerify: Time, delay: int, retryAt: Option<Time>)

  function FactsOf(row: Proxy): (f: Facts) {
    Facts(row.consecutiveFailures, row.lastVerify, row.lastDeepVerify, row.delay, row.nextVerifyAt)
  }

  /** The wait after the m-th failure in a row: 30 minutes, 2 hours, 6 hours, then 24 hours. */
  function WaitAfter(m: nat): (wait: nat) {
    if m <= 1 then 1_800_000_000_000
    else if m == 2 then 7_200_000_000_000
    else if m == 3 then 21_600_000_000_000
    else 86_400_000_000_000
  }

  /** An operation that accepts row `id` as healthy. */
  ghost predicate AcceptsRow(s: Store, e: Event, id: nat) {
    match e.op
    case Found(p) => !IPLocked(s, p.ip, e.now) && IsFor(s, p, id)
    case Passed(p, _, _, _) => !IPLocked(s, p.ip, e.now) && id == p.id && id in s.rows
    case _ => false
  }

  /** An operation that fails row `id`: its check failed, or its endpoint refused. */
  predicate FailsRow(s: Store, e: Event, id: nat) {
    match e.op
    case Failed(p) => id == p.id && id in s.rows
    case Refused(uri) => id in s.rows && s.rows[id].available && URI(s.rows[id]) == uri
    case _ => false
  }

  /** What one more event makes of the facts about row `id`. */
  ghost function Told(s: Store, e: Event, id: nat, f: Facts): (g: Facts) {
    if AcceptsRow(s, e, id) then
      match e.op
      case Found(p) => Facts(0, p.lastVerify, p.lastDeepVerify, p.delay, Some(0))
      case Passed(p, delay, at, deep) => Facts(0, at, if deep then at else f.lastDeepVerify, delay, Some(0))
      case _ => f
    else if FailsRow(s, e, id) then
      f.(failures := f.failures + 1, lastVerify := e.now, retryAt := Some(e.now + WaitAfter(f.failures + 1)))
    else f
  }

  /** The facts about row `id` after the first k events of a run, from those it began with. */
  ghost function FactsAfter(states: seq<Store>, events: seq<Event>, k: nat, id: nat): (f: Facts)
    requires |states| == |events| + 1 && k <= |events|
  {
    if k > 0 then Told(states[k - 1], events[k - 1], id, FactsAfter(states, events, k - 1, id))
    else if id in states[0].rows then FactsOf(states[0].rows[id])
    else Facts(0, 0, 0, 0, None)
  }

  // ---- one step ----

  /** The row after a step says what the event makes of what it said before; and a row that is new was accepted. */
  ghost predicate Tells(s: Store, e: Event, s': Store, id: nat, f: Facts) {
    id in s'.rows && (id in s.rows ==> FactsOf(s.rows[id]) == f) ==>
      FactsOf(s'.rows[id]) == Told(s, e, id, f) && (id in s.rows || AcceptsRow(s, e, id))
  }

  lemma SameRowsTell(s: Store, e: Event, s': Store, id: nat, f: Facts)
    requires !AcceptsRow(s, e, id) && !FailsRow(s, e, id)
    requires s'.rows.Keys <= s.rows.Keys && forall i :: i in s'.rows ==> FactsOf(s'.rows[i]) == FactsOf(s.rows[i])
    ensures Tells(s, e, s', id, f)
  {
    hide AcceptsRow, FailsRow, FactsOf;
  }

  lemma FoundTells(s: Store, p: Proxy, now: Time, id: nat, f: Facts)
    requires RowsOK(s) && IsCandidate(p)
    ensures Tells(s, Event(Found(p), now), Upsert(s, p, now, RELIABLE).0, id, f)
  {
    CandidateIsRefused(s, p, now);
    if Upsert(s, p, now, RELIABLE).1 {
      var own := CandidateIsStored(s, p, now, RELIABLE);
      OnlyOneIsFor(s, p, own, id);
    }
    hide URI, Upsert, RowsOK, IsFor;
  }

  lemma OnlyOneIsFor(s: Store, p: Proxy, own: nat, id: nat)
    requires IsFor(s, p, own) && forall k :: k in s.rows && Holds(s.rows[k], p) ==> k == own
    ensures IsFor(s, p, id) <==> id == own
  {
    hide Holds;
  }

  lemma PassedTells(s: Store, p: Proxy, delay: int, at: Time, deep: bool, now: Time, id: nat, f: Facts)
    requires IsSnapshot(s, p)
    ensures Tells(s, Event(Passed(p, delay, at, deep), now), VerifySuccess(s, p, delay, at, deep, now, RELIABLE), id, f)
  {
    if p.id in s.rows && !IPLocked(s, p.ip, now) {
      PassIsStored(s, p, delay, at, deep, now);
    } else {
      ForgetExpiredKeepsTheRest(s, p.ip, now);
    }
    hide URI, Recheck, ForgetExpired;
  }

  lemma TakenOutTells(s: Store, e: Event, s': Store, target: nat, uri: string, id: nat, f: Facts)
    requires target in s.rows && TakenOut(s, target, uri, e.now, s')
    requires !AcceptsRow(s, e, id) && (FailsRow(s, e, id) <==> id == target)
    ensures Tells(s, e, s', id, f)
  {
    hide URI, AcceptsRow, FailsRow, UnVerifiedIds, ValidationDue, LockedAt;
  }

  lemma FailedTells(s: Store, p: Proxy, now: Time, id: nat, f: Facts)
    ensures Tells(s, Event(Failed(p), now), VerifyFailed(s, p, now, RELIABLE).0, id, f)
  {
    if p.id in s.rows {
      FailureWaits(s, p, now);
      hide URI, VerifyFailed, TakenOut, Tells;
      TakenOutTells(s, Event(Failed(p), now), VerifyFailed(s, p, now, RELIABLE).0, p.id, URI(p), id, f);
    }
  }

  lemma RefusedTells(s: Store, uri: string, clock: Time, now: Time, id: nat, f: Facts)
    requires PoolExact(s, clock)
    ensures Tells(s, Event(Refused(uri), now), ProxyUnavailable(s, uri, now, RELIABLE), id, f)
  {
    RefusalWaits(s, uri, now);
    AvailableIsCached(s, clock, id);
    var e, s' := Event(Refused(uri), now), ProxyUnavailable(s, uri, now, RELIABLE);
    hide URI, ProxyUnavailable, TakenOut, PoolExact, Tells, FactsOf, Told;
    if exists e :: e in s.pool && URI(e.p) == uri {
      var target :| target in s.rows && s.rows[target].available && URI(s.rows[target]) == uri && TakenOut(s, target, uri, now, s');
      PoolIsIncluded(s, clock);
      SamePrint(s, target);
      TakenOutTells(s, e, s', target, uri, id, f);
    } else {
      SameRowsTell(s, e, s', id, f);
    }
  }

  lemma AvailableIsCached(s: Store, clock: Time, id: nat)
    requires PoolExact(s, clock)
    ensures id in s.rows && s.rows[id].available ==> exists e :: e in s.pool && URI(e.p) == URI(s.rows[id])
  {
    hide URI, WellFormed;
    if id in s.rows && s.rows[id].available {
      assert id in PoolIds(s.pool);
      var e :| e in s.pool && e.p.id == id;
      assert e.p == s.rows[id];
    }
  }

  lemma StepTells(s: Store, e: Event, s': Store, clock: Time, id: nat, f: Facts)
    requires PoolExact(s, clock) && Step(s, e, s')
    ensures Tells(s, e, s', id, f)
  {
    PoolIsIncluded(s, clock);
    if e.op.Found? || e.op.Passed? || e.op.Failed? || e.op.Refused? {
      hide URI, PoolExact, Included, RowsOK, Upsert, VerifySuccess, VerifyFailed, ProxyUnavailable, IsSnapshot, IsCandidate, UniqueIndex, Tells;
      match e.op
      case Found(p) => FoundTells(s, p, e.now, id, f);
      case Passed(p, delay, at, deep) => PassedTells(s, p, delay, at, deep, e.now, id, f);
      case Failed(p) => FailedTells(s, p, e.now, id, f);
      case Refused(uri) => RefusedTells(s, uri, clock, e.now, id, f);
    } else {
      hide Step, PoolExact, Included, RowsOK, Tells, FactsOf;
      QuietStep(s, e, s');
      SameRowsTell(s, e, s', id, f);
    }
  }

  /** All other steps leave what rows say alone, though they may remove rows. */
  lemma QuietStep(s: Store, e: Event, s': Store)
    requires Step(s, e, s') && !e.op.Found? && !e.op.Passed? && !e.op.Failed? && !e.op.Refused?
    ensures s'.rows.Keys <= s.rows.Keys && forall i :: i in s'.rows ==> FactsOf(s'.rows[i]) == FactsOf(s.rows[i])
  {
    hide URI, UniqueIndex, TakeDown, DropIP, DropUris, PoolIds, PoolUris;
  }

  // ---- whole runs ----

  /** In every state of a run each row says what its history makes of it. */
  lemma {:induction false} RowTellsItsHistory(states: seq<Store>, events: seq<Event>, start: Time, k: nat, id: nat)
    requires IsRun(states, events, start) && k <= |events| && id in states[k].rows
    ensures FactsOf(states[k].rows[id]) == FactsAfter(states, events, k, id)
  {
    hide PoolExact, Step, Told, FactsOf, AcceptsRow;
    if k > 0 {
      RunPool(states, events, start, k - 1);
      assert Step(states[k - 1], events[k - 1], states[k]);
      StepTells(states[k - 1], events[k - 1], states[k], ClockAt(events, start, k - 1), id, FactsAfter(states, events, k - 1, id));
      if id in states[k - 1].rows { RowTellsItsHistory(states, events, start, k - 1, id); }
    }
  }

  /** So the verifier gets a row exactly while its address is not locked and, if it is healthy, its last check is longer
      ago than the interval; if not, the time its failures make it wait is over. */
  lemma DueByHistory(states: seq<Store>, events: seq<Event>, start: Time, k: nat, id: nat, t: Time, interval: nat)
    requires IsRun(states, events, start) && k <= |events| && id in states[k].rows
    ensures var s, f := states[k], FactsAfter(states, events, k, id);
      id in UnVerifiedIds(s.rows, s.blocked, t, interval) <==>
        && !LockedAt(s, s.rows[id].ip, t)
        && if s.rows[id].available then t > f.lastVerify + interval else f.retryAt.Some? && t >= f.retryAt.value
  {
    RowTellsItsHistory(states, events, start, k, id);
    hide FactsAfter, Step, PoolExact;
  }

  /** How often row `id` failed between two states. */
  function FailuresIn(states: seq<Store>, events: seq<Event>, i: nat, k: nat, id: nat): (m: nat)
    requires |states| == |events| + 1 && i <= k <= |events|
  {
    if i == k then 0 else FailuresIn(states, events, i, k - 1, id) + (if FailsRow(states[k - 1], events[k - 1], id) then 1 else 0)
  }

  /** While a row is not accepted again its failures add up, one each. */
  lemma {:induction false} FailuresAddUp(states: seq<Store>, events: seq<Event>, start: Time, i: nat, k: nat, id: nat)
    requires IsRun(states, events, start) && i <= k <= |events| && id in states[i].rows && id in states[k].rows
    requires forall j :: i <= j < k ==> !AcceptsRow(states[j], events[j], id)
    ensures states[k].rows[id].consecutiveFailures
      == states[i].rows[id].consecutiveFailures + FailuresIn(states, events, i, k, id)
  {
    RowTellsItsHistory(states, events, start, i, id);
    RowTellsItsHistory(states, events, start, k, id);
    FactsAddUp(states, events, i, k, id);
    hide FactsAfter, FailuresIn, Step, PoolExact;
  }

  lemma {:induction false} FactsAddUp(states: seq<Store>, events: seq<Event>, i: nat, k: nat, id: nat)
    requires |states| == |events| + 1 && i <= k <= |events|
    requires forall j :: i <= j < k ==> !AcceptsRow(states[j], events[j], id)
    ensures FactsAfter(states, events, k, id).failures == FactsAfter(states, events, i, id).failures + FailuresIn(states, events, i, k, id)
    decreases k
  {
    hide AcceptsRow, FailsRow;
    if i < k { FactsAddUp(states, events, i, k - 1, id); }
  }

  // ---- which rows have a retry time ----

  /** Row `id` had a retry time when the run began, or was accepted or failed since. */
  ghost predicate TimeWritten(states: seq<Store>, events: seq<Event>, k: nat, id: nat)
    requires |states| == |events| + 1 && k <= |events|
  {
    if k == 0 then id in states[0].rows && states[0].rows[id].nextVerifyAt.Some?
    else
      || AcceptsRow(states[k - 1], events[k - 1], id) || FailsRow(states[k - 1], events[k - 1], id)
      || TimeWritten(states, events, k - 1, id)
  }

  /** A row has a retry time exactly if it began with one, or has been accepted, checked or refused since. */
  lemma {:induction false} TimePresentWhen(states: seq<Store>, events: seq<Event>, start: Time, k: nat, id: nat)
    requires IsRun(states, events, start) && k <= |events| && id in states[k].rows
    ensures states[k].rows[id].nextVerifyAt.Some? <==> TimeWritten(states, events, k, id)
  {
    hide PoolExact, Step, AcceptsRow, FailsRow;
    if k > 0 {
      RunPool(states, events, start, k - 1);
      assert Step(states[k - 1], events[k - 1], states[k]);
      var s := states[k - 1];
      var f := if id in s.rows then FactsOf(s.rows[id]) else Facts(0, 0, 0, 0, None);
      StepTells(s, events[k - 1], states[k], ClockAt(events, start, k - 1), id, f);
      if id in s.rows { TimePresentWhen(states, events, start, k - 1, id); }
      ToldTime(s, events[k - 1], id, f);
    }
  }

  lemma ToldTime(s: Store, e: Event, id: nat, f: Facts)
    ensures Told(s, e, id, f).retryAt.Some? <==> AcceptsRow(s, e, id) || FailsRow(s, e, id) || f.retryAt.Some?
  {
    hide IsFor, URI, IPLocked;
  }
}
