/** Whole runs of the scheduler, whatever happens to the pool in between: no domain is given an address
    twice within the window, and the sweeper cannot be noticed. */
module SchedulerRuns {
  import opened Proxies
  import opened PoolStore
  import opened Scheduler

  /** The pool a pick finds is arbitrary: every pool operation may have run since the last pick. */
  datatype Op =
    | PickFor(domain: string, pool: seq<Entry>)
    | TargetFailed(uri: string, target: string, ttl: nat)
    | SweepAll

  datatype Event = Event(op: Op, now: Time)

  function Apply(s: Sched, e: Event): (r: Sched) {
    match e.op
    case PickFor(domain, pool) => Pick(pool, s, domain, e.now).sched
    case TargetFailed(uri, target, ttl) => MarkTargetFailure(s, uri, target, e.now, ttl)
    case SweepAll => Sweep(s, e.now)
  }

  function Choice(s: Sched, e: Event): (r: Option<nat>) {
    match e.op
    case PickFor(domain, pool) => Pick(pool, s, domain, e.now).choice
    case _ => None
  }

  function After(s: Sched, events: seq<Event>): (r: Sched) {
    if events == [] then s else Apply(After(s, events[..|events| - 1]), events[|events| - 1])
  }

  /** Events on a clock that never goes back, from `start` on. */
  ghost predicate OnClock(events: seq<Event>, start: Time) {
    && (forall i :: 0 <= i < |events| ==> start <= events[i].now)
    && (forall i, j :: 0 <= i <= j < |events| ==> events[i].now <= events[j].now)
  }

  // ---- what the window and the circuits say ----

  lemma RecentKeepsExcluded(v: seq<Entry>, unix: nat, later: nat)
    requires unix <= later
    ensures ExcludedIps(RecentOnly(v, unix), later) == ExcludedIps(v, later)
  {}

  lemma AppendExcludes(v: seq<Entry>, e: Entry, later: nat)
    ensures ExcludedIps(v + [e], later) == ExcludedIps(v, later) + (if later - e.n < WINDOW then {e.p.ip} else {})
  {
    assert forall x :: x in v + [e] <==> x in v || x == e;
  }

  /** The sweeper's leftover copies are of an entry that is either kept anyway or out of the window, so
      it never changes which addresses a later pick must avoid. */
  lemma SweepKeepsExcluded(v: seq<Entry>, unix: nat, later: nat)
    requires unix <= later
    ensures ExcludedIps(SweepList(v, unix), later) == ExcludedIps(v, later)
  {
    var kept := NotExpired(v, unix);
    if |kept| != |v| {
      var last := v[|v| - 1];
      var copies := Copies(last, |v| - |kept| - 1);
      assert last in v;
      assert forall x :: x in kept + copies ==> x in kept || x == last;
      assert forall x :: x in kept ==> x in kept + copies;
    }
  }

  lemma SweepKeepsFresh(v: seq<Entry>, unix: nat)
    ensures forall e :: e in v && unix - e.n <= WINDOW ==> e in SweepList(v, unix)
    ensures forall e :: e in SweepList(v, unix) ==> e in v
  {
    var kept := NotExpired(v, unix);
    if |kept| != |v| {
      var copies := Copies(v[|v| - 1], |v| - |kept| - 1);
      assert forall e :: e in kept ==> e in kept + copies;
      assert forall e :: e in kept + copies ==> e in kept || e == v[|v| - 1];
    }
  }

  lemma {:induction false} AllKept(v: seq<Entry>, unix: nat)
    requires |NotExpired(v, unix)| == |v|
    ensures NotExpired(v, unix) == v
  {
    if v != [] {
      AllKept(v[1..], unix);
    }
  }

  /** The sweep removes exactly the expired entries of a list if and only if there is at most one of them. */
  lemma SweepIsExactWhen(v: seq<Entry>, unix: nat)
    ensures SweepList(v, unix) == NotExpired(v, unix) <==> |v| - |NotExpired(v, unix)| <= 1
  {
    if |NotExpired(v, unix)| == |v| { AllKept(v, unix); }
  }

  /** It leaves no expired entry if and only if there is at most one, or the last entry is not expired itself. */
  lemma SweepCleansWhen(v: seq<Entry>, unix: nat)
    ensures (forall e :: e in SweepList(v, unix) ==> unix - e.n <= WINDOW) <==>
      (|v| - |NotExpired(v, unix)| <= 1 || unix - v[|v| - 1].n <= WINDOW)
  {
    SweepIsExactWhen(v, unix);
    var m := |v| - |NotExpired(v, unix)|;
    if m >= 2 {
      var last := v[|v| - 1];
      var kept, copies := NotExpired(v, unix), Copies(last, m - 1);
      assert copies[0] == last;
      assert last in SweepList(v, unix) by { assert (kept + copies)[|kept|] == last; }
      assert forall e :: e in kept + copies ==> e in kept || e == last;
    }
  }

  // ---- the sweeper is invisible ----

  /** From `now` on, two schedulers avoid the same addresses and skip the same endpoints. */
  ghost predicate Alike(s: Sched, t: Sched, now: Time) {
    && (forall d, unix: nat :: Unix(now) <= unix ==> ExcludedIps(Given(s, d), unix) == ExcludedIps(Given(t, d), unix))
    && (forall d, later: Time :: now <= later ==>
          OpenCircuits(Circuits(s, d), later) == OpenCircuits(Circuits(t, d), later))
  }

  lemma UnixMonotone(a: Time, b: Time)
    requires a <= b
    ensures Unix(a) <= Unix(b)
  {}

  lemma OpenTwice(failures: map<string, Time>, now: Time, later: Time)
    requires now <= later
    ensures OpenCircuits(OpenCircuits(failures, now), later) == OpenCircuits(failures, later)
  {}

  lemma PruneKeepsOpen(s: Sched, target: string, d: string, now: Time, later: Time)
    requires now <= later
    ensures OpenCircuits(Circuits(PruneTarget(s, target, now), d), later) == OpenCircuits(Circuits(s, d), later)
  {
    OpenTwice(Circuits(s, target), now, later);
  }

  lemma SweptGiven(s: Sched, d: string, now: Time)
    ensures Given(Sweep(s, now), d) == if d in s.dl then SweepList(s.dl[d], Unix(now)) else []
  {
    hide SweepList, OpenCircuits;
  }

  lemma SweepIsAlike(s: Sched, now: Time)
    ensures Alike(s, Sweep(s, now), now)
  {
    var t := Sweep(s, now);
    forall d, unix: nat | Unix(now) <= unix ensures ExcludedIps(Given(s, d), unix) == ExcludedIps(Given(t, d), unix) {
      SweptGiven(s, d, now);
      SweepKeepsExcluded(Given(s, d), Unix(now), unix);
    }
    forall d, later: Time | now <= later
      ensures OpenCircuits(Circuits(s, d), later) == OpenCircuits(Circuits(t, d), later)
    {
      OpenTwice(Circuits(s, d), now, later);
    }
  }

  /** Alike schedulers choose alike and stay alike. */
  lemma PickAlike(s: Sched, t: Sched, pool: seq<Entry>, domain: string, clock: Time, now: Time)
    requires Alike(s, t, clock) && clock <= now
    ensures Pick(pool, s, domain, now).choice == Pick(pool, t, domain, now).choice
    ensures Pick(pool, s, domain, now).pool == Pick(pool, t, domain, now).pool
    ensures Alike(Pick(pool, s, domain, now).sched, Pick(pool, t, domain, now).sched, now)
  {
    UnixMonotone(clock, now);
    var a, b := Pick(pool, s, domain, now), Pick(pool, t, domain, now);
    SameChoice(s, t, pool, domain, now);
    forall d, unix: nat | Unix(now) <= unix
      ensures ExcludedIps(Given(a.sched, d), unix) == ExcludedIps(Given(b.sched, d), unix)
    {
      PickedExcludes(pool, s, domain, now, d, unix);
      PickedExcludes(pool, t, domain, now, d, unix);
    }
    forall d, later: Time | now <= later
      ensures OpenCircuits(Circuits(a.sched, d), later) == OpenCircuits(Circuits(b.sched, d), later)
    {
      PickedOpen(pool, s, domain, now, d, later);
      PickedOpen(pool, t, domain, now, d, later);
    }
  }

  lemma SameChoice(s: Sched, t: Sched, pool: seq<Entry>, domain: string, now: Time)
    requires OpenCircuits(Circuits(s, domain), now) == OpenCircuits(Circuits(t, domain), now)
    requires ExcludedIps(Given(s, domain), Unix(now)) == ExcludedIps(Given(t, domain), Unix(now))
    ensures Pick(pool, s, domain, now).choice == Pick(pool, t, domain, now).choice
    ensures Pick(pool, s, domain, now).pool == Pick(pool, t, domain, now).pool
  {
    hide OpenCircuits, ExcludedIps, LeastUsed, PruneTarget, RecentOnly;
  }

  /** After a pick the excluded addresses are those before and the one just given. */
  lemma PickedExcludes(pool: seq<Entry>, s: Sched, domain: string, now: Time, d: string, unix: nat)
    requires Unix(now) <= unix
    ensures var r := Pick(pool, s, domain, now);
      ExcludedIps(Given(r.sched, d), unix) == ExcludedIps(Given(s, d), unix) +
        (if d == domain && r.choice.Some? && unix - Unix(now) < WINDOW then {pool[r.choice.value].p.ip} else {})
  {
    hide OpenCircuits, LeastUsed, URI, Eligible;
    var r := Pick(pool, s, domain, now);
    RecentKeepsExcluded(Given(s, domain), Unix(now), unix);
    if r.choice.Some? {
      AppendExcludes(RecentOnly(Given(s, domain), Unix(now)), Entry(pool[r.choice.value].p, Unix(now)), unix);
    }
    hide ExcludedIps, RecentOnly;
  }

  lemma PickedOpen(pool: seq<Entry>, s: Sched, domain: string, now: Time, d: string, later: Time)
    requires now <= later
    ensures OpenCircuits(Circuits(Pick(pool, s, domain, now).sched, d), later) == OpenCircuits(Circuits(s, d), later)
  {
    hide OpenCircuits, LeastUsed, RecentOnly, ExcludedIps, PruneTarget;
    PruneKeepsOpen(s, domain, d, now, later);
    assert Pick(pool, s, domain, now).sched.circuits in {s.circuits, PruneTarget(s, domain, now).circuits};
  }

  lemma MarkAlike(s: Sched, t: Sched, uri: string, target: string, ttl: nat, clock: Time, now: Time)
    requires Alike(s, t, clock) && clock <= now
    ensures Alike(MarkTargetFailure(s, uri, target, now, ttl), MarkTargetFailure(t, uri, target, now, ttl), now)
  {
    UnixMonotone(clock, now);
    var a, b := MarkTargetFailure(s, uri, target, now, ttl), MarkTargetFailure(t, uri, target, now, ttl);
    forall d ensures Given(a, d) == Given(s, d) && Given(b, d) == Given(t, d) {
      MarkKeepsGiven(s, uri, target, now, ttl, d);
      MarkKeepsGiven(t, uri, target, now, ttl, d);
    }
    forall d, later: Time | now <= later
      ensures OpenCircuits(Circuits(a, d), later) == OpenCircuits(Circuits(b, d), later)
    {
      MarkedOpen(s, uri, target, now, ttl, d, later);
      MarkedOpen(t, uri, target, now, ttl, d, later);
    }
  }

  lemma MarkedOpen(s: Sched, uri: string, target: string, now: Time, ttl: nat, d: string, later: Time)
    ensures OpenCircuits(Circuits(MarkTargetFailure(s, uri, target, now, ttl), d), later) ==
      if uri != "" && target != "" && d == target then
        (if later < now + ttl then OpenCircuits(Circuits(s, d), later)[uri := now + ttl]
         else OpenCircuits(Circuits(s, d), later) - {uri})
      else OpenCircuits(Circuits(s, d), later)
  {}

  function WithoutSweeps(events: seq<Event>): (r: seq<Event>) {
    if events == [] then []
    else WithoutSweeps(events[..|events| - 1]) +
         (if events[|events| - 1].op.SweepAll? then [] else [events[|events| - 1]])
  }

  /** A run and the same run without its sweeps leave alike schedulers. */
  lemma {:induction false} SweepsInvisible(s: Sched, events: seq<Event>, start: Time)
    requires OnClock(events, start)
    ensures Alike(After(s, events), After(s, WithoutSweeps(events)), if events == [] then start else events[|events| - 1].now)
  {
    hide Pick, Sweep, MarkTargetFailure, Alike;
    if events == [] {
      AlikeItself(s, start);
    } else {
      var prefix, e := events[..|events| - 1], events[|events| - 1];
      var clock := if prefix == [] then start else prefix[|prefix| - 1].now;
      SweepsInvisible(s, prefix, start);
      var a, b := After(s, prefix), After(s, WithoutSweeps(prefix));
      AfterAppend(s, WithoutSweeps(prefix), e);
      match e.op
      case PickFor(domain, pool) => PickAlike(a, b, pool, domain, clock, e.now);
      case TargetFailed(uri, target, ttl) => MarkAlike(a, b, uri, target, ttl, clock, e.now);
      case SweepAll =>
        SweepIsAlike(a, e.now);
        AlikeChain(a, b, clock, e.now);
        assert WithoutSweeps(events) == WithoutSweeps(prefix);
    }
  }

  lemma AlikeItself(s: Sched, now: Time)
    ensures Alike(s, s, now)
  {}

  /** Hence every pick chooses the same entry, and leaves the same pool, as if the sweeper had never run. */
  lemma SweepsNeverChangeAPick(s: Sched, events: seq<Event>, start: Time, pool: seq<Entry>, domain: string, now: Time)
    requires OnClock(events, start) && start <= now && (events != [] ==> events[|events| - 1].now <= now)
    ensures var swept, unswept := After(s, events), After(s, WithoutSweeps(events));
      && Pick(pool, swept, domain, now).choice == Pick(pool, unswept, domain, now).choice
      && Pick(pool, swept, domain, now).pool == Pick(pool, unswept, domain, now).pool
  {
    hide Pick, Alike;
    SweepsInvisible(s, events, start);
    PickAlike(After(s, events), After(s, WithoutSweeps(events)), pool, domain,
              if events == [] then start else events[|events| - 1].now, now);
  }

  lemma AlikeChain(a: Sched, b: Sched, clock: Time, now: Time)
    requires Alike(a, b, clock) && clock <= now && Alike(a, Sweep(a, now), now)
    ensures Alike(Sweep(a, now), b, now)
  {
    hide Sweep, ExcludedIps, OpenCircuits, Given, Circuits;
    UnixMonotone(clock, now);
  }

  lemma AfterAppend(s: Sched, events: seq<Event>, e: Event)
    ensures After(s, events + [e]) == Apply(After(s, events), e)
  {
    assert (events + [e])[..|events|] == events;
  }

  // ---- spacing ----

  /** What pick i gave its domain. */
  predicate Gave(s: Sched, events: seq<Event>, i: nat, domain: string, ip: string)
    requires i < |events|
  {
    events[i].op.PickFor? && events[i].op.domain == domain &&
    var r := Pick(events[i].op.pool, After(s, events[..i]), domain, events[i].now);
    r.choice.Some? && events[i].op.pool[r.choice.value].p.ip == ip
  }

  /** An address given at one event is excluded for its domain until the window is over. */
  lemma {:induction false} GivenStaysExcluded(s: Sched, events: seq<Event>, start: Time, i: nat, k: nat, domain: string, ip: string, unix: nat)
    requires OnClock(events, start) && i < k <= |events| && Gave(s, events, i, domain, ip)
    requires Unix(events[k - 1].now) <= unix < Unix(events[i].now) + WINDOW
    ensures ip in ExcludedIps(Given(After(s, events[..k]), domain), unix)
    decreases k
  {
    hide ExcludedIps, Sweep, MarkTargetFailure, Pick, Given;
    var e := events[k - 1];
    assert events[..k][..k - 1] == events[..k - 1];
    var before := After(s, events[..k - 1]);
    if k == i + 1 {
      PickedExcludes(e.op.pool, before, domain, e.now, domain, unix);
    } else {
      assert events[k - 2].now <= e.now;
      UnixMonotone(events[k - 2].now, e.now);
      GivenStaysExcluded(s, events, start, i, k - 1, domain, ip, unix);
      match e.op
      case PickFor(d, pool) => PickedExcludes(pool, before, d, e.now, domain, unix);
      case TargetFailed(uri, target, ttl) => MarkKeepsGiven(before, uri, target, e.now, ttl, domain);
      case SweepAll => SweepIsAlike(before, e.now);
    }
  }

  lemma MarkKeepsGiven(s: Sched, uri: string, target: string, now: Time, ttl: nat, d: string)
    ensures Given(MarkTargetFailure(s, uri, target, now, ttl), d) == Given(s, d)
  {}

  lemma ChosenIsNotExcluded(pool: seq<Entry>, s: Sched, domain: string, now: Time)
    ensures var r := Pick(pool, s, domain, now);
      r.choice.Some? ==> pool[r.choice.value].p.ip !in ExcludedIps(Given(s, domain), Unix(now))
  {
    hide RecentOnly, ExcludedIps, OpenCircuits, URI;
  }

  /** Over a whole run of picks, failures and sweeps on any pools, no domain is given the same address
      at two picks whose seconds are less than three apart. */
  lemma PicksAreSpaced(s: Sched, events: seq<Event>, start: Time, i: nat, j: nat, domain: string, ip: string)
    requires OnClock(events, start) && i < j < |events|
    requires Gave(s, events, i, domain, ip) && Gave(s, events, j, domain, ip)
    ensures Unix(events[j].now) - Unix(events[i].now) >= WINDOW
    ensures events[j].now - events[i].now > 2_000_000_000
  {
    if Unix(events[j].now) < Unix(events[i].now) + WINDOW {
      UnixMonotone(events[j - 1].now, events[j].now);
      GivenStaysExcluded(s, events, start, i, j, domain, ip, Unix(events[j].now));
      ChosenIsNotExcluded(events[j].op.pool, After(s, events[..j]), domain, events[j].now);
      assert false;
    }
  }

  // ---- and no longer than that ----

  /** At any second from the last event on, an address is withheld from a domain exactly if it was withheld by what the
      run began with, or was given to the domain less than three seconds ago. */
  lemma {:induction false} WithheldExactly(s: Sched, events: seq<Event>, start: Time, domain: string, ip: string, unix: nat)
    requires OnClock(events, start) && Unix(if events == [] then start else events[|events| - 1].now) <= unix
    ensures ip in ExcludedIps(Given(After(s, events), domain), unix) <==>
      || ip in ExcludedIps(Given(s, domain), unix)
      || exists i :: 0 <= i < |events| && Gave(s, events, i, domain, ip) && unix < Unix(events[i].now) + 3
  {
    hide ExcludedIps, Sweep, MarkTargetFailure, Pick, Given;
    if events != [] {
      var prefix, e := events[..|events| - 1], events[|events| - 1];
      var before := After(s, prefix);
      UnixMonotone(if prefix == [] then start else prefix[|prefix| - 1].now, e.now);
      WithheldExactly(s, prefix, start, domain, ip, unix);
      forall i | 0 <= i < |prefix| ensures Gave(s, prefix, i, domain, ip) <==> Gave(s, events, i, domain, ip) {
        assert prefix[..i] == events[..i];
      }
      match e.op
      case PickFor(d, pool) => PickedExcludes(pool, before, d, e.now, domain, unix);
      case TargetFailed(uri, target, ttl) => MarkKeepsGiven(before, uri, target, e.now, ttl, domain);
      case SweepAll => SweepIsAlike(before, e.now);
    }
  }

  /** Until when an endpoint is skipped for a target: the time its last failure set, or the one the run began with. */
  function SkippedUntil(s: Sched, events: seq<Event>, uri: string, target: string): (t: Time) {
    if events == [] then (if uri in Circuits(s, target) then Circuits(s, target)[uri] else 0)
    else
      var e := events[|events| - 1];
      if e.op.TargetFailed? && e.op.uri == uri && e.op.target == target && uri != "" && target != "" then e.now + e.op.ttl
      else SkippedUntil(s, events[..|events| - 1], uri, target)
  }

  /** A circuit is open exactly until the time of its last failure is over, whatever else happens. */
  lemma {:induction false} SkippedExactly(s: Sched, events: seq<Event>, start: Time, uri: string, target: string, t: Time)
    requires OnClock(events, start) && (if events == [] then start else events[|events| - 1].now) <= t
    ensures uri in OpenCircuits(Circuits(After(s, events), target), t) <==> t < SkippedUntil(s, events, uri, target)
  {
    if events == [] {
      hide Given;
    } else {
      var prefix, e := events[..|events| - 1], events[|events| - 1];
      SkippedExactly(s, prefix, start, uri, target, t);
      hide OpenCircuits, Sweep, MarkTargetFailure, Pick, Given, Circuits;
      match e.op
      case PickFor(d, pool) => PickedOpen(pool, After(s, prefix), d, e.now, target, t);
      case TargetFailed(u, d, ttl) => MarkedOpen(After(s, prefix), u, d, e.now, ttl, target, t);
      case SweepAll => SweepIsAlike(After(s, prefix), e.now);
    }
  }

  /** In real time: an address is withheld within two seconds of being given, and free after three. */
  lemma WithheldInTime(s: Sched, events: seq<Event>, start: Time, domain: string, ip: string, t: Time)
    requires OnClock(events, start) && (if events == [] then start else events[|events| - 1].now) <= t
    requires ip !in ExcludedIps(Given(s, domain), Unix(t))
    ensures (exists i :: 0 <= i < |events| && Gave(s, events, i, domain, ip) && t <= events[i].now + 2_000_000_000) ==>
      ip in ExcludedIps(Given(After(s, events), domain), Unix(t))
    ensures ip in ExcludedIps(Given(After(s, events), domain), Unix(t)) ==>
      exists i :: 0 <= i < |events| && Gave(s, events, i, domain, ip) && t < events[i].now + 3_000_000_000
  {
    UnixMonotone(if events == [] then start else events[|events| - 1].now, t);
    WithheldExactly(s, events, start, domain, ip, Unix(t));
    hide ExcludedIps, Given, After, Gave;
    forall i | 0 <= i < |events|
      ensures t <= events[i].now + 2_000_000_000 ==> Unix(t) < Unix(events[i].now) + 3
      ensures Unix(t) < Unix(events[i].now) + 3 ==> t < events[i].now + 3_000_000_000
    {}
  }

  /** A sweep reaches every list and every circuit: of lists it leaves what SweepList says, of circuits exactly the open
      ones with their times, and nothing that is empty. */
  lemma SweepForgets(s: Sched, now: Time)
    ensures var t := Sweep(s, now);
      && (forall d :: d in t.dl ==> d in s.dl && t.dl[d] == SweepList(s.dl[d], Unix(now)) && t.dl[d] != [])
      && (forall d :: d in s.dl && d !in t.dl ==> SweepList(s.dl[d], Unix(now)) == [])
      && (forall d, uri :: d in t.circuits && uri in t.circuits[d] <==> d in s.circuits && uri in s.circuits[d] && now < s.circuits[d][uri])
      && (forall d, uri :: d in t.circuits && uri in t.circuits[d] ==> t.circuits[d][uri] == s.circuits[d][uri])
      && (forall d :: d in t.circuits ==> t.circuits[d] != map[])
  {
    hide SweepList;
    var t := Sweep(s, now);
    forall d, uri | d in s.circuits && uri in s.circuits[d] && now < s.circuits[d][uri]
      ensures d in t.circuits && uri in t.circuits[d]
    {
      assert uri in OpenCircuits(s.circuits[d], now);
    }
  }

  /** A pick on a pool with entries forgets what is over for its domain, and touches no other: of the circuits exactly the
      open ones stay, and of what the domain was given exactly what is still in the window, followed by what it is given now. */
  lemma PickForgets(pool: seq<Entry>, s: Sched, domain: string, now: Time)
    requires pool != []
    ensures var r := Pick(pool, s, domain, now);
      && (forall d :: d != domain ==> Given(r.sched, d) == Given(s, d) && Circuits(r.sched, d) == Circuits(s, d))
      && (forall uri :: uri in Circuits(r.sched, domain) <==> uri in Circuits(s, domain) && now < Circuits(s, domain)[uri])
      && (forall uri :: uri in Circuits(r.sched, domain) ==> Circuits(r.sched, domain)[uri] == Circuits(s, domain)[uri])
      && (forall e :: e in Given(r.sched, domain) <==>
            || (e in Given(s, domain) && Unix(now) - e.n < 3)
            || (r.choice.Some? && e == Entry(pool[r.choice.value].p, Unix(now))))
  {
    hide URI, ExcludedIps, LeastUsed, Unix;
    var r, recent := Pick(pool, s, domain, now), RecentOnly(Given(s, domain), Unix(now));
    assert Circuits(PruneTarget(s, domain, now), domain) == OpenCircuits(Circuits(s, domain), now);
    if r.choice.Some? {
      var e := Entry(pool[r.choice.value].p, Unix(now));
      assert forall x :: x in recent + [e] <==> x in recent || x == e;
    }
  }
}
