/** The whole cache in service: pool operations, restarts, picks, round-robin turns, reported failures and sweeps
    in any order on one clock. */
module ServiceRuns {
  import opened Proxies
  import opened PoolStore
  import opened PoolView
  import opened PoolPreserved
  import opened PoolSafety
  import opened Scheduler
  import PoolRuns
  import SchedulerRuns

  /** The pool with its tables, the scheduling state and the round-robin cursor. */
  datatype World = World(store: Store, sched: Sched, cursor: nat)

  datatype Op =
    | Pool(op: PoolRuns.Op)
    | Picked(domain: string)
    | Turned
    | TargetFailed(uri: string, target: string, ttl: nat)
    | SweepAll

  datatype Event = Event(op: Op, now: Time)

  /** What one event other than a pool operation does. */
  function Serve(w: World, op: Op, now: Time): (r: World)
    requires !op.Pool?
  {
    match op
    case Picked(domain) =>
      var r := Pick(w.store.pool, w.sched, domain, now);
      World(w.store.(pool := r.pool), r.sched, w.cursor)
    case Turned => if w.store.pool == [] then w else w.(cursor := NextTurn(w.cursor, |w.store.pool|).1)
    case TargetFailed(uri, target, ttl) => w.(sched := MarkTargetFailure(w.sched, uri, target, now, ttl))
    case SweepAll => w.(sched := Sweep(w.sched, now))
  }

  /** The entry an event hands out. */
  function Served(w: World, e: Event): (r: Option<Entry>) {
    match e.op
    case Picked(domain) =>
      var choice := Pick(w.store.pool, w.sched, domain, e.now).choice;
      if choice.Some? && choice.value < |w.store.pool| then Some(w.store.pool[choice.value]) else None
    case Turned => if w.store.pool == [] then None else Some(w.store.pool[NextTurn(w.cursor, |w.store.pool|).0])
    case _ => None
  }

  ghost predicate Step(w: World, e: Event, w': World) {
    if e.op.Pool? then
      && !e.op.op.Used? && PoolRuns.Step(w.store, PoolRuns.Event(e.op.op, e.now), w'.store)
      && (if e.op.op.Restart? then w'.sched == Sched(map[], map[]) && w'.cursor == 0
          else w'.sched == w.sched && w'.cursor == w.cursor)
    else w' == Serve(w, e.op, e.now)
  }

  ghost predicate IsRun(ws: seq<World>, es: seq<Event>, start: Time) {
    && |ws| == |es| + 1
    && PoolExact(ws[0].store, start)
    && (es != [] ==> start <= es[0].now)
    && (forall i, j :: 0 <= i <= j < |es| ==> es[i].now <= es[j].now)
    && (forall i :: 0 <= i < |es| ==> Step(ws[i], es[i], ws[i + 1]))
  }

  // ---- the pool's side of a run ----

  /** What the pool sees of an event: a pick uses an entry, the rest leaves it alone. */
  function StoreEvent(w: World, e: Event): (r: PoolRuns.Event) {
    match e.op
    case Pool(op) => PoolRuns.Event(op, e.now)
    case Picked(domain) => PoolRuns.Event(PoolRuns.Used(Pick(w.store.pool, w.sched, domain, e.now).choice), e.now)
    case _ => PoolRuns.Event(PoolRuns.Used(None), e.now)
  }

  ghost function Stores(ws: seq<World>): (r: seq<Store>)
    ensures |r| == |ws| && forall i :: 0 <= i < |ws| ==> r[i] == ws[i].store
  {
    seq(|ws|, i requires 0 <= i < |ws| => ws[i].store)
  }

  ghost function StoreEvents(ws: seq<World>, es: seq<Event>): (r: seq<PoolRuns.Event>)
    requires |ws| == |es| + 1
    ensures |r| == |es| && forall i :: 0 <= i < |es| ==> r[i] == StoreEvent(ws[i], es[i])
  {
    seq(|es|, i requires 0 <= i < |es| => StoreEvent(ws[i], es[i]))
  }

  lemma PickUses(pool: seq<Entry>, s: Sched, domain: string, now: Time)
    ensures var r := Pick(pool, s, domain, now);
      && (r.choice.Some? ==> r.choice.value < |pool|)
      && r.pool == if r.choice.None? then pool else pool[r.choice.value := pool[r.choice.value].(n := pool[r.choice.value].n + 1)]
  {
    hide URI, RecentOnly, ExcludedIps, OpenCircuits, PruneTarget;
  }

  lemma StepProjects(w: World, e: Event, clock: Time, w': World)
    requires PoolExact(w.store, clock) && Step(w, e, w')
    ensures PoolRuns.Step(w.store, StoreEvent(w, e), w'.store)
  {
    hide PoolExact, Pick, MarkTargetFailure, Sweep, UniqueIndex, PoolRuns.Step;
    if !e.op.Pool? {
      if e.op.Picked? { PickUses(w.store.pool, w.sched, e.op.domain, e.now); }
      UsedIsStep(w.store, StoreEvent(w, e), clock, w'.store);
    }
  }

  lemma UsedIsStep(s: Store, e: PoolRuns.Event, clock: Time, s': Store)
    requires PoolExact(s, clock) && e.op.Used? && s' == UseEntry(s, e.op.position)
    ensures PoolRuns.Step(s, e, s')
  {
    hide UseEntry, URI;
    IncludedHasUniqueIndex(s);
  }

  /** The clock when state k was reached. */
  function ClockAt(es: seq<Event>, start: Time, k: nat): (r: Time)
    requires k <= |es|
  {
    if k == 0 then start else es[k - 1].now
  }

  lemma {:induction false} PoolStaysExact(ws: seq<World>, es: seq<Event>, start: Time, k: nat)
    requires IsRun(ws, es, start) && k <= |es|
    ensures PoolExact(ws[k].store, ClockAt(es, start, k))
  {
    hide PoolExact, Step, PoolRuns.Step;
    if k > 0 {
      PoolStaysExact(ws, es, start, k - 1);
      var w, e, clock := ws[k - 1], es[k - 1], ClockAt(es, start, k - 1);
      assert Step(w, e, ws[k]);
      StepProjects(w, e, clock, ws[k]);
      EventTime(w, e);
      PoolRuns.StepKeepsPool(w.store, StoreEvent(w, e), ws[k].store, clock);
    }
  }

  lemma EventTime(w: World, e: Event)
    ensures StoreEvent(w, e).now == e.now
  {}

  /** A run in service is, for the pool, a run of pool operations, so every theorem about those applies to it;
      in particular its pool, index and locks are exact in each of its states. */
  lemma RunProjects(ws: seq<World>, es: seq<Event>, start: Time)
    requires IsRun(ws, es, start)
    ensures PoolRuns.IsRun(Stores(ws), StoreEvents(ws, es), start)
    ensures forall k :: 0 <= k <= |es| ==> PoolExact(ws[k].store, ClockAt(es, start, k))
  {
    hide PoolExact, Step, PoolRuns.Step, StoreEvent;
    var ss, ps := Stores(ws), StoreEvents(ws, es);
    forall k | 0 <= k <= |es| ensures PoolExact(ws[k].store, ClockAt(es, start, k)) {
      PoolStaysExact(ws, es, start, k);
    }
    forall i | 0 <= i < |es| ensures ps[i].now == es[i].now && PoolRuns.Step(ss[i], ps[i], ss[i + 1]) {
      assert Step(ws[i], es[i], ws[i + 1]);
      EventTime(ws[i], es[i]);
      StepProjects(ws[i], es[i], ClockAt(es, start, i), ws[i + 1]);
    }
  }

  // ---- what is handed out ----

  lemma ServedFromPool(w: World, e: Event)
    requires Served(w, e).Some?
    ensures Served(w, e).value in w.store.pool
  {
    hide Pick;
  }

  /** Whatever is handed out, by a pick or a turn, is the record of an available row whose address is not locked. */
  lemma ServedIsHealthy(ws: seq<World>, es: seq<Event>, start: Time, k: nat)
    requires IsRun(ws, es, start) && k < |es| && Served(ws[k], es[k]).Some?
    ensures var p := Served(ws[k], es[k]).value.p;
      && p.id in ws[k].store.rows && ws[k].store.rows[p.id] == p && p.available
      && !IPLocked(ws[k].store, p.ip, es[k].now)
  {
    PoolStaysExact(ws, es, start, k);
    ServedFromPool(ws[k], es[k]);
    assert ClockAt(es, start, k) <= es[k].now;
    hide Pick, Step, Served, URI, WellFormed;
    PoolEntryIsHealthy(ws[k].store, Served(ws[k], es[k]).value, ClockAt(es, start, k), es[k].now);
  }

  lemma PoolEntryIsHealthy(s: Store, e: Entry, clock: Time, now: Time)
    requires PoolExact(s, clock) && clock <= now && e in s.pool
    ensures e.p.id in s.rows && s.rows[e.p.id] == e.p && e.p.available && !IPLocked(s, e.p.ip, now)
  {
    hide URI, WellFormed;
  }

  /** From the failure that locks an address until six hours later nothing of it is handed out, whatever else
      happens, restarts included. */
  lemma NeverServesLocked(ws: seq<World>, es: seq<Event>, start: Time, lock: nat, k: nat, ip: string)
    requires IsRun(ws, es, start) && lock < k < |es| && Served(ws[k], es[k]).Some?
    requires es[lock].op == Pool(PoolRuns.Suspect(ip)) && Failure(ws[lock].store, ip, es[lock].now, RELIABLE).1
    requires es[k].now < es[lock].now + FAILURE_LOCK_DURATION
    ensures Served(ws[k], es[k]).value.p.ip != ip
  {
    RunProjects(ws, es, start);
    ServedFromPool(ws[k], es[k]);
    hide Pick, Step, Served, PoolExact, Failure, PoolRuns.IsRun;
    var ss, ps := Stores(ws), StoreEvents(ws, es);
    assert ps[lock] == PoolRuns.Event(PoolRuns.Suspect(ip), es[lock].now);
    EventTime(ws[k - 1], es[k - 1]);
    assert es[k - 1].now <= es[k].now;
    LockHolds(ss, ps, start, lock, k, ip);
  }

  // ---- the window ----

  ghost predicate NoRestart(es: seq<Event>, i: nat, k: nat) {
    i <= k <= |es| && forall j :: i <= j < k ==> es[j].op != Pool(PoolRuns.Restart)
  }

  /** No event but a restart lifts the exclusion of an address before its window is over. */
  lemma StepKeepsExcluded(w: World, e: Event, w': World, domain: string, ip: string, unix: nat)
    requires Step(w, e, w') && e.op != Pool(PoolRuns.Restart) && Unix(e.now) <= unix
    requires ip in ExcludedIps(Given(w.sched, domain), unix)
    ensures ip in ExcludedIps(Given(w'.sched, domain), unix)
  {
    hide ExcludedIps, Given, Pick, MarkTargetFailure, Sweep, PoolRuns.Step;
    match e.op
    case Pool(op) =>
    case Picked(d) => SchedulerRuns.PickedExcludes(w.store.pool, w.sched, d, e.now, domain, unix);
    case Turned =>
    case TargetFailed(uri, target, ttl) => SchedulerRuns.MarkKeepsGiven(w.sched, uri, target, e.now, ttl, domain);
    case SweepAll => SweepKeepsGiven(w.sched, e.now, domain, unix);
  }

  lemma SweepKeepsGiven(s: Sched, now: Time, domain: string, unix: nat)
    requires Unix(now) <= unix
    ensures ExcludedIps(Given(Sweep(s, now), domain), unix) == ExcludedIps(Given(s, domain), unix)
  {
    SchedulerRuns.SweepIsAlike(s, now);
    hide ExcludedIps, Given, Sweep, OpenCircuits, Circuits;
  }

  lemma {:induction false} PickedStaysExcluded(ws: seq<World>, es: seq<Event>, start: Time, i: nat, k: nat, domain: string, unix: nat)
    requires IsRun(ws, es, start) && i < k && NoRestart(es, i, k)
    requires es[i].op == Op.Picked(domain) && Served(ws[i], es[i]).Some?
    requires Unix(es[k - 1].now) <= unix < Unix(es[i].now) + WINDOW
    ensures Served(ws[i], es[i]).value.p.ip in ExcludedIps(Given(ws[k].sched, domain), unix)
    decreases k
  {
    hide PoolExact, Step, Pick, ExcludedIps, Given, Served;
    assert Step(ws[k - 1], es[k - 1], ws[k]);
    if k == i + 1 {
      PickExcludes(ws[i], es[i], ws[k], domain, unix);
    } else {
      assert es[k - 2].now <= es[k - 1].now;
      SchedulerRuns.UnixMonotone(es[k - 2].now, es[k - 1].now);
      PickedStaysExcluded(ws, es, start, i, k - 1, domain, unix);
      StepKeepsExcluded(ws[k - 1], es[k - 1], ws[k], domain, Served(ws[i], es[i]).value.p.ip, unix);
    }
  }

  lemma PickExcludes(w: World, e: Event, w': World, domain: string, unix: nat)
    requires Step(w, e, w') && e.op == Op.Picked(domain) && Served(w, e).Some?
    requires Unix(e.now) <= unix < Unix(e.now) + WINDOW
    ensures Served(w, e).value.p.ip in ExcludedIps(Given(w'.sched, domain), unix)
  {
    hide ExcludedIps, Given, Pick;
    SchedulerRuns.PickedExcludes(w.store.pool, w.sched, domain, e.now, domain, unix);
  }

  lemma PickAvoidsExcluded(w: World, e: Event, domain: string)
    requires e.op == Op.Picked(domain) && Served(w, e).Some?
    ensures Served(w, e).value.p.ip !in ExcludedIps(Given(w.sched, domain), Unix(e.now))
  {
    hide ExcludedIps, Given, Pick;
    SchedulerRuns.ChosenIsNotExcluded(w.store.pool, w.sched, domain, e.now);
  }

  /** While the process lives no domain is given the same address twice at seconds less than three apart, whatever
      happens to the pool, the circuits and the lists in between. */
  lemma PicksAreApart(ws: seq<World>, es: seq<Event>, start: Time, i: nat, j: nat, domain: string)
    requires IsRun(ws, es, start) && i < j < |es| && NoRestart(es, i, j)
    requires es[i].op == Op.Picked(domain) && es[j].op == Op.Picked(domain)
    requires Served(ws[i], es[i]).Some? && Served(ws[j], es[j]).Some?
    requires Served(ws[i], es[i]).value.p.ip == Served(ws[j], es[j]).value.p.ip
    ensures Unix(es[j].now) - Unix(es[i].now) >= WINDOW
  {
    hide PoolExact, Step, Pick, ExcludedIps, Given, Served;
    if Unix(es[j].now) < Unix(es[i].now) + WINDOW {
      assert es[j - 1].now <= es[j].now;
      SchedulerRuns.UnixMonotone(es[j - 1].now, es[j].now);
      PickedStaysExcluded(ws, es, start, i, j, domain, Unix(es[j].now));
      PickAvoidsExcluded(ws[j], es[j], domain);
      assert false;
    }
  }

  // ---- the round robin among picks ----

  /** Events i..k serve requests only. */
  ghost predicate OnlyServes(es: seq<Event>, i: nat, k: nat) {
    i <= k <= |es| && forall j :: i <= j < k ==> !es[j].op.Pool?
  }

  function TurnsIn(es: seq<Event>, i: nat, k: nat): (r: nat)
    requires i <= k <= |es|
  {
    if i == k then 0 else TurnsIn(es, i, k - 1) + (if es[k - 1].op.Turned? then 1 else 0)
  }

  /** Same entries in the same order, use counts aside. */
  ghost predicate SameOrder(a: seq<Entry>, b: seq<Entry>) {
    |a| == |b| && forall x :: 0 <= x < |a| ==> a[x].p == b[x].p
  }

  lemma ServeKeepsOrder(w: World, op: Op, now: Time)
    requires !op.Pool? && w.store.pool != []
    ensures SameOrder(w.store.pool, Serve(w, op, now).store.pool)
    ensures Serve(w, op, now).cursor == if op.Turned? then NextTurn(w.cursor, |w.store.pool|).1 else w.cursor
  {
    hide Pick, MarkTargetFailure, Sweep;
    if op.Picked? { PickUses(w.store.pool, w.sched, op.domain, now); }
  }

  /** While only requests are served the list keeps its order and the cursor counts the turns. */
  lemma {:induction false} CursorCountsTurns(ws: seq<World>, es: seq<Event>, start: Time, i: nat, k: nat)
    requires IsRun(ws, es, start) && OnlyServes(es, i, k) && ws[i].store.pool != []
    ensures SameOrder(ws[i].store.pool, ws[k].store.pool)
    ensures ws[k].cursor == CursorAfter(ws[i].cursor, |ws[i].store.pool|, TurnsIn(es, i, k))
    decreases k
  {
    hide PoolExact, Serve, PoolRuns.Step;
    if i < k {
      CursorCountsTurns(ws, es, start, i, k - 1);
      assert Step(ws[k - 1], es[k - 1], ws[k]);
      ServeKeepsOrder(ws[k - 1], es[k - 1].op, es[k - 1].now);
    }
  }

  lemma {:induction false} FindTurn(es: seq<Event>, i: nat, k: nat, t: nat) returns (j: nat)
    requires i <= k <= |es| && t < TurnsIn(es, i, k)
    ensures i <= j < k && es[j].op.Turned? && TurnsIn(es, i, j) == t
    decreases k
  {
    if es[k - 1].op.Turned? && t == TurnsIn(es, i, k - 1) {
      j := k - 1;
    } else {
      j := FindTurn(es, i, k - 1, t);
    }
  }

  lemma {:induction false} TurnsGrow(es: seq<Event>, i: nat, a: nat, b: nat)
    requires i <= a <= b <= |es|
    ensures TurnsIn(es, i, a) <= TurnsIn(es, i, b)
    ensures a < b && es[a].op.Turned? ==> TurnsIn(es, i, a) < TurnsIn(es, i, b)
    decreases b
  {
    if a < b { TurnsGrow(es, i, a, b - 1); }
  }

  /** Event j hands out, as a turn, the endpoint at position x of the list as it was at event i. */
  ghost predicate TurnServes(ws: seq<World>, es: seq<Event>, i: nat, j: nat, x: nat)
    requires |ws| == |es| + 1 && i <= j < |es| && x < |ws[i].store.pool|
  {
    es[j].op.Turned? && Served(ws[j], es[j]).Some? && URI(Served(ws[j], es[j]).value.p) == URI(ws[i].store.pool[x].p)
  }

  /** A turn serves the position the rotation is at. */
  lemma TurnServesItsPosition(ws: seq<World>, es: seq<Event>, start: Time, i: nat, j: nat, x: nat)
    requires IsRun(ws, es, start) && i <= j && OnlyServes(es, i, j + 1) && es[j].op.Turned? && x < |ws[i].store.pool|
    ensures TurnServes(ws, es, i, j, x) <==> Turn(ws[i].cursor, |ws[i].store.pool|, TurnsIn(es, i, j)) == x
  {
    hide PoolExact, Serve, URI, Pick;
    assert OnlyServes(es, i, j);
    CursorCountsTurns(ws, es, start, i, j);
    PoolStaysExact(ws, es, start, i);
    var pool, at := ws[i].store.pool, NextTurn(ws[j].cursor, |ws[j].store.pool|).0;
    PoolRuns.IndexIsAvailable(ws[i].store, ClockAt(es, start, i));
    assert Served(ws[j], es[j]).value.p == pool[at].p;
    if at != x { assert URI(pool[at].p) != URI(pool[x].p); }
  }

  /** As many turns as the pool has entries, with any picks, failures and sweeps among them, hand out each
      endpoint of the pool exactly once. */
  lemma TurnsServeEachOnce(ws: seq<World>, es: seq<Event>, start: Time, i: nat, k: nat, x: nat) returns (j: nat)
    requires IsRun(ws, es, start) && OnlyServes(es, i, k)
    requires TurnsIn(es, i, k) == |ws[i].store.pool| && x < |ws[i].store.pool|
    ensures i <= j < k && TurnServes(ws, es, i, j, x)
    ensures forall h :: i <= h < k && TurnServes(ws, es, i, h, x) ==> h == j
  {
    hide TurnServes, Step, TurnsIn, Turn, PoolExact;
    var len, cursor := |ws[i].store.pool|, ws[i].cursor;
    RoundRobinServesEach(cursor, len, x);
    var t :| 0 <= t < len && Turn(cursor, len, t) == x;
    j := FindTurn(es, i, k, t);
    TurnServesItsPosition(ws, es, start, i, j, x);
    forall h | i <= h < k && TurnServes(ws, es, i, h, x) ensures h == j {
      SameTurn(ws, es, start, i, k, h, j, x);
    }
  }

  lemma SameTurn(ws: seq<World>, es: seq<Event>, start: Time, i: nat, k: nat, h: nat, j: nat, x: nat)
    requires IsRun(ws, es, start) && OnlyServes(es, i, k) && i <= h < k && i <= j < k
    requires TurnsIn(es, i, k) == |ws[i].store.pool| && x < |ws[i].store.pool|
    requires TurnServes(ws, es, i, h, x) && TurnServes(ws, es, i, j, x)
    ensures h == j
  {
    var len, cursor := |ws[i].store.pool|, ws[i].cursor;
    TurnServesItsPosition(ws, es, start, i, h, x);
    TurnServesItsPosition(ws, es, start, i, j, x);
    hide Step, TurnsIn, Turn, PoolExact, Served;
    TurnsGrow(es, i, h, k);
    TurnsGrow(es, i, j, k);
    RoundRobinServesEach(cursor, len, x);
    if h < j { TurnsGrow(es, i, h, j); }
    if j < h { TurnsGrow(es, i, j, h); }
  }
}
