/** Choosing an upstream for a request: use counts, the per-domain window, per-target circuits, the
    round robin, and the background sweeper. */
module Scheduler {
  import opened Proxies
  import opened PoolStore

  const WINDOW: nat := 3

  /** `dl` lists what each domain was given, stamped with the second; `circuits` holds, for each target,
      the endpoints that failed it and until when they are skipped. */
  datatype Sched = Sched(dl: map<string, seq<Entry>>, circuits: map<string, map<string, Time>>)

  function Unix(now: Time): (r: nat) {
    now / SECOND
  }

  function Given(s: Sched, domain: string): (r: seq<Entry>) {
    if domain in s.dl then s.dl[domain] else []
  }

  function Circuits(s: Sched, target: string): (r: map<string, Time>) {
    if target in s.circuits then s.circuits[target] else map[]
  }

  // ---- the window ----

  function RecentOnly(v: seq<Entry>, unix: nat): (r: seq<Entry>)
    ensures forall e :: e in r <==> e in v && unix - e.n < WINDOW
  {
    if v == [] then []
    else (if unix - v[0].n < WINDOW then [v[0]] else []) + RecentOnly(v[1..], unix)
  }

  /** The addresses a domain may not be given at `unix`. */
  function ExcludedIps(v: seq<Entry>, unix: nat): (r: set<string>) {
    set e | e in v && unix - e.n < WINDOW :: e.p.ip
  }

  function OpenCircuits(failures: map<string, Time>, now: Time): (r: map<string, Time>) {
    map uri | uri in failures && now < failures[uri] :: failures[uri]
  }

  function Pruned(circuits: map<string, map<string, Time>>, target: string, now: Time): (r: map<string, map<string, Time>>) {
    var open := OpenCircuits(if target in circuits then circuits[target] else map[], now);
    if open == map[] then circuits - {target} else circuits[target := open]
  }

  function PruneTarget(s: Sched, target: string, now: Time): (r: Sched) {
    s.(circuits := Pruned(s.circuits, target, now))
  }

  // ---- the choice ----

  predicate Eligible(e: Entry, open: set<string>, excluded: set<string>) {
    URI(e.p) !in open && e.p.ip !in excluded
  }

  /** The leftmost least-used eligible entry among the first k. */
  function LeastUsed(pool: seq<Entry>, k: nat, open: set<string>, excluded: set<string>): (r: Option<nat>)
    requires k <= |pool|
    ensures r.None? <==> forall i :: 0 <= i < k ==> !Eligible(pool[i], open, excluded)
    ensures r.Some? ==> r.value < k && Eligible(pool[r.value], open, excluded)
    ensures r.Some? ==> forall i :: 0 <= i < k && Eligible(pool[i], open, excluded) ==>
      pool[r.value].n <= pool[i].n && (i < r.value ==> pool[r.value].n < pool[i].n)
  {
    if k == 0 then None
    else
      var best := LeastUsed(pool, k - 1, open, excluded);
      if !Eligible(pool[k - 1], open, excluded) then best
      else if best.None? || pool[k - 1].n < pool[best.value].n then Some(k - 1)
      else best
  }

  datatype Picked = Picked(choice: Option<nat>, pool: seq<Entry>, sched: Sched)

  /** One call of the scheduler. An empty pool is refused before anything is touched. */
  function Pick(pool: seq<Entry>, s: Sched, domain: string, now: Time): (r: Picked) {
    if pool == [] then Picked(None, pool, s)
    else
      var recent := RecentOnly(Given(s, domain), Unix(now));
      var pruned := PruneTarget(s, domain, now);
      var open := OpenCircuits(Circuits(s, domain), now).Keys;
      var choice := LeastUsed(pool, |pool|, open, ExcludedIps(Given(s, domain), Unix(now)));
      if choice.None? then Picked(None, pool, pruned.(dl := s.dl[domain := recent]))
      else
        var e := pool[choice.value];
        Picked(choice, pool[choice.value := e.(n := e.n + 1)],
               pruned.(dl := s.dl[domain := recent + [Entry(e.p, Unix(now))]]))
  }

  function MarkTargetFailure(s: Sched, uri: string, target: string, now: Time, ttl: nat): (r: Sched) {
    if uri == "" || target == "" then s
    else s.(circuits := s.circuits[target := Circuits(s, target)[uri := now + ttl]])
  }

  // ---- the sweeper ----

  function NotExpired(v: seq<Entry>, unix: nat): (r: seq<Entry>)
    ensures |r| <= |v|
    ensures forall e :: e in r <==> e in v && unix - e.n <= WINDOW
  {
    if v == [] then []
    else (if unix - v[0].n <= WINDOW then [v[0]] else []) + NotExpired(v[1..], unix)
  }

  function Copies(e: Entry, n: nat): (r: seq<Entry>) {
    seq(n, i => e)
  }

  /** What the sweeper leaves of one list. It deletes through the slice header it started with, so of m
      expired entries only one makes the list shorter: the others leave a copy of the last entry each. */
  function SweepList(v: seq<Entry>, unix: nat): (r: seq<Entry>) {
    var kept := NotExpired(v, unix);
    if |kept| == |v| then v
    else kept + Copies(v[|v| - 1], |v| - |kept| - 1)
  }

  function Sweep(s: Sched, now: Time): (r: Sched) {
    Sched(map d | d in s.dl && SweepList(s.dl[d], Unix(now)) != [] :: SweepList(s.dl[d], Unix(now)),
          map t | t in s.circuits && OpenCircuits(s.circuits[t], now) != map[] :: OpenCircuits(s.circuits[t], now))
  }

  // ---- use counts ----

  function TotalUses(pool: seq<Entry>): (r: nat) {
    if pool == [] then 0 else pool[0].n + TotalUses(pool[1..])
  }

  ghost predicate SpreadAtMost(pool: seq<Entry>, d: nat) {
    forall i, j :: 0 <= i < |pool| && 0 <= j < |pool| ==> pool[i].n <= pool[j].n + d
  }

  predicate NothingExcluded(s: Sched, domain: string, now: Time) {
    OpenCircuits(Circuits(s, domain), now).Keys == {} && ExcludedIps(Given(s, domain), Unix(now)) == {}
  }

  lemma {:induction false} OneMoreUse(pool: seq<Entry>, i: nat)
    requires i < |pool|
    ensures TotalUses(pool[i := pool[i].(n := pool[i].n + 1)]) == TotalUses(pool) + 1
  {
    var r := pool[i := pool[i].(n := pool[i].n + 1)];
    if i > 0 {
      assert r[1..] == pool[1..][i - 1 := r[i]];
      OneMoreUse(pool[1..], i - 1);
    } else {
      assert r[1..] == pool[1..];
    }
  }

  /** A pick fails exactly when no entry is eligible, takes the leftmost least-used eligible entry
      otherwise, uses it once more, and changes nothing else in the pool. */
  lemma PickChooses(pool: seq<Entry>, s: Sched, domain: string, now: Time)
    ensures var r := Pick(pool, s, domain, now);
      var open := OpenCircuits(Circuits(s, domain), now).Keys;
      var excluded := ExcludedIps(Given(s, domain), Unix(now));
      && (r.choice.None? <==> forall e :: e in pool ==> !Eligible(e, open, excluded))
      && (r.choice.None? ==> r.pool == pool)
      && (r.choice.Some? ==>
            && r.choice.value < |pool| && Eligible(pool[r.choice.value], open, excluded)
            && r.pool == pool[r.choice.value := pool[r.choice.value].(n := pool[r.choice.value].n + 1)]
            && (forall i :: 0 <= i < |pool| && Eligible(pool[i], open, excluded) && i != r.choice.value ==>
                  (pool[r.choice.value].n, r.choice.value) != (pool[i].n, i) &&
                  (pool[r.choice.value].n < pool[i].n || (pool[r.choice.value].n == pool[i].n && r.choice.value < i))))
  {
    hide URI, Eligible, RecentOnly, ExcludedIps, OpenCircuits;
    var r := Pick(pool, s, domain, now);
    if r.choice.Some? {
      assert pool[r.choice.value] in pool;
    }
  }

  /** Every successful pick adds exactly one use. With nothing excluded, picks never make use counts
      differ by more than they did, or than one. */
  lemma PickBalances(pool: seq<Entry>, s: Sched, domain: string, now: Time, d: nat)
    requires d >= 1
    ensures var r := Pick(pool, s, domain, now);
      && TotalUses(r.pool) == TotalUses(pool) + (if r.choice.Some? then 1 else 0)
      && |r.pool| == |pool| && (forall i :: 0 <= i < |pool| ==> r.pool[i].p == pool[i].p)
      && (NothingExcluded(s, domain, now) && SpreadAtMost(pool, d) ==> SpreadAtMost(r.pool, d))
  {
    PickChooses(pool, s, domain, now);
    hide URI, Pick, ExcludedIps, OpenCircuits;
    var r := Pick(pool, s, domain, now);
    if r.choice.Some? {
      OneMoreUse(pool, r.choice.value);
    }
  }

  // ---- the round robin ----

  /** Position served by a call, and the cursor after it. */
  function NextTurn(cursor: nat, len: nat): (r: (nat, nat))
    requires len > 0
  {
    var at := if cursor >= len then 0 else cursor;
    (at, at + 1)
  }

  function CursorAfter(cursor: nat, len: nat, calls: nat): (r: nat)
    requires len > 0
  {
    if calls == 0 then cursor else NextTurn(CursorAfter(cursor, len, calls - 1), len).1
  }

  /** The position the k-th of consecutive calls is served, counting from 0. */
  function Turn(cursor: nat, len: nat, k: nat): (r: nat)
    requires len > 0
  {
    NextTurn(CursorAfter(cursor, len, k), len).0
  }

  /** Within one round the positions go up from the first and continue from 0. */
  lemma {:induction false} TurnInRound(cursor: nat, len: nat, k: nat)
    requires k < len
    ensures var first := Turn(cursor, len, 0);
      && first < len && Turn(cursor, len, k) == (if first + k < len then first + k else first + k - len)
      && CursorAfter(cursor, len, k + 1) == Turn(cursor, len, k) + 1
  {
    if k > 0 {
      TurnInRound(cursor, len, k - 1);
    }
  }

  /** Any `len` consecutive calls on a list of `len` entries serve every position exactly once, from any
      cursor. Picks in between do not matter: they change neither the order nor the cursor. */
  lemma RoundRobinServesEach(cursor: nat, len: nat, at: nat)
    requires at < len
    ensures exists k :: 0 <= k < len && Turn(cursor, len, k) == at
    ensures forall i, j :: 0 <= i < j < len ==> Turn(cursor, len, i) != Turn(cursor, len, j)
  {
    TurnInRound(cursor, len, 0);
    var first := Turn(cursor, len, 0);
    hide Turn, CursorAfter;
    var k := if at >= first then at - first else at + len - first;
    TurnInRound(cursor, len, k);
    assert Turn(cursor, len, k) == at;
    forall i, j | 0 <= i < j < len ensures Turn(cursor, len, i) != Turn(cursor, len, j) {
      TurnInRound(cursor, len, i);
      TurnInRound(cursor, len, j);
    }
  }

  /** After a round the same position comes again: the turns rotate for ever. */
  lemma {:induction false} TurnsRotate(cursor: nat, len: nat, k: nat)
    requires len > 0
    ensures Turn(cursor, len, k + len) == Turn(cursor, len, k)
  {
    if k == 0 {
      TurnInRound(cursor, len, len - 1);
      TurnInRound(cursor, len, 0);
    } else {
      TurnsRotate(cursor, len, k - 1);
    }
  }

  lemma MultiplesInOrder(a: int, b: int, len: nat)
    requires a <= b
    ensures a * len <= b * len
  {
    assert (b - a) * len >= 0;
  }

  lemma OneMoreMultiple(a: int, len: nat)
    ensures (a + 1) * len == a * len + len
  {}

  lemma RemainderIsUnique(a: int, r: nat, b: int, t: nat, len: nat)
    requires r < len && t < len && a * len + r == b * len + t
    ensures r == t
  {
    OneMoreMultiple(a, len);
    OneMoreMultiple(b, len);
    if a < b { MultiplesInOrder(a + 1, b, len); }
    if b < a { MultiplesInOrder(b + 1, a, len); }
  }

  lemma DivisionOf(x: int, len: nat)
    requires len > 0
    ensures x == (x / len) * len + x % len && 0 <= x % len < len
  {}

  lemma RemainderOfLess(x: int, len: nat)
    requires len > 0
    ensures (x - len) % len == x % len
    ensures 0 <= x < len ==> x % len == x
  {
    DivisionOf(x, len);
    DivisionOf(x - len, len);
    OneMoreMultiple((x - len) / len, len);
    RemainderIsUnique(x / len, x % len, (x - len) / len + 1, (x - len) % len, len);
    if 0 <= x < len { RemainderIsUnique(x / len, x % len, 0, x, len); }
  }

  /** The k-th call serves the k-th position after the first, modulo the length. */
  lemma {:induction false} TurnIsRotation(cursor: nat, len: nat, k: nat)
    requires len > 0
    ensures Turn(cursor, len, k) == (Turn(cursor, len, 0) + k) % len
    ensures Turn(cursor, len, 0) == if cursor < len then cursor else 0
    decreases k
  {
    TurnInRound(cursor, len, 0);
    var x := Turn(cursor, len, 0) + k;
    RemainderOfLess(x, len);
    if k < len {
      TurnInRound(cursor, len, k);
      RemainderOfLess(x - len, len);
    } else {
      TurnIsRotation(cursor, len, k - len);
      TurnsRotate(cursor, len, k - len);
    }
  }
}
