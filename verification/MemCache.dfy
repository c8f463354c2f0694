/** The cache object itself, updating its fields and the database in place. Each method is proved to do
    what the functions of PoolStore and Scheduler say. */
module Caching {
  import opened Proxies
  import opened PoolStore
  import opened PoolView
  import opened PoolRuns
  import opened Scheduler
  import opened SchedulerRuns

  /** The two tables. */
  class Database {
    var rows: map<nat, Proxy>
    var nextId: nat
    var blocked: map<string, Blocked>

    constructor (rows: map<nat, Proxy>, nextId: nat, blocked: map<string, Blocked>)
      ensures this.rows == rows && this.nextId == nextId && this.blocked == blocked
    {
      this.rows, this.nextId, this.blocked := rows, nextId, blocked;
    }

    method FindEndpoint(p: Proxy) returns (found: bool, id: nat)
      requires UniqueIndex(rows)
      ensures found <==> HasEndpoint(rows, p)
      ensures found ==> id == EndpointId(rows, p)
    {
      if k :| k in rows && SameEndpoint(rows[k], p) {
        return true, k;
      }
      return false, 0;
    }

    /** Insert when the record has no id, update or insert under its id otherwise. */
    method Save(p: Proxy, works: bool) returns (ok: bool, row: Proxy)
      modifies this`rows, this`nextId
      ensures ok <==> works && !Conflicts(old(rows), p)
      ensures ok ==> row == p.(id := SavedId(old(nextId), p)) && rows == old(rows)[row.id := row]
                     && nextId == if row.id < old(nextId) then old(nextId) else row.id + 1
      ensures !ok ==> unchanged(this)
    {
      row := p;
      if !works {
        return false, row;
      }
      if k :| k in rows && k != p.id && SameEndpoint(rows[k], p) {
        return false, row;
      }
      if p.id == 0 {
        row := p.(id := nextId);
      }
      rows := rows[row.id := row];
      if row.id >= nextId {
        nextId := row.id + 1;
      }
      return true, row;
    }
  }

  class MemCache {
    const db: Database
    var pl: seq<Entry>
    var getProxyIndex: nat
    var index: set<string>
    var lockedIPs: map<string, Time>
    var proxyRetryAfter: map<string, Time>
    var dl: map<string, seq<Entry>>
    var targetFailures: map<string, map<string, Time>>
    var failureTTL: int

    ghost function View(): (r: Store)
      reads this`pl, this`index, this`lockedIPs, this`proxyRetryAfter, db
    {
      Store(db.rows, db.nextId, db.blocked, pl, index, lockedIPs, proxyRetryAfter)
    }

    ghost function Scheduling(): (r: Sched)
      reads this`dl, this`targetFailures
    {
      Sched(dl, targetFailures)
    }

    /** Builds the cache from the available rows outside unexpired locks, and the delays from the
        quarantined rows. Rows come in whatever order the database returns them. */
    constructor (db: Database, now: Time, failureTTL: int)
      requires RowsOK(Store(db.rows, db.nextId, db.blocked, [], {}, map[], map[]))
      ensures this.db == db && unchanged(db)
      ensures FreshOver(View().(locked := UnexpiredLocks(db.blocked, now)), db.rows, db.nextId, db.blocked, now)
      ensures lockedIPs == map[] && getProxyIndex == 0 && Scheduling() == Sched(map[], map[])
    {
      this.db := db;
      this.failureTTL := failureTTL;
      pl, getProxyIndex, index := [], 0, {};
      lockedIPs, proxyRetryAfter, dl, targetFailures := map[], map[], map[], map[];
      new;
      LoadPool(now);
      LoadDelays(now);
    }

    method LoadPool(now: Time)
      requires RowsOK(Store(db.rows, db.nextId, db.blocked, [], {}, map[], map[])) && pl == [] && index == {}
      modifies this`pl, this`index
      ensures forall e :: e in pl ==> e.p.id in db.rows && e == Entry(db.rows[e.p.id], 0)
      ensures PoolIds(pl) == Loadable(db.rows, db.blocked, now)
      ensures Distinct(pl) && index == PoolUris(pl)
    {
      hide URI, WellFormed, Distinct, PoolIds, PoolUris;
      var all := Loadable(db.rows, db.blocked, now);
      assert forall id :: id in all ==> id in db.rows && db.rows[id].id == id;
      hide RowsOK, Loadable;
      var found := all;
      NothingDistinct();
      while found != {}
        invariant found <= all
        invariant forall e :: e in pl ==> e.p.id in db.rows && e == Entry(db.rows[e.p.id], 0)
        invariant PoolIds(pl) == all - found
        invariant Distinct(pl)
        invariant index == PoolUris(pl)
        decreases |found|
      {
        var id :| id in found;
        found := found - {id};
        AppendEntry(pl, Entry(db.rows[id], 0));
        pl := pl + [Entry(db.rows[id], 0)];
        index := index + {URI(db.rows[id])};
      }
    }

    method LoadDelays(now: Time)
      requires proxyRetryAfter == map[]
      modifies this`proxyRetryAfter
      ensures proxyRetryAfter.Keys == set id | id in db.rows && Delayed(db.rows[id], now) :: URI(db.rows[id])
      ensures forall u :: u in proxyRetryAfter ==> DelayedAs(db.rows, u, proxyRetryAfter[u], now)
    {
      hide URI;
      var all := set id | id in db.rows && Delayed(db.rows[id], now);
      var delayed := all;
      assert all - delayed == {};
      while delayed != {}
        invariant delayed <= all
        invariant proxyRetryAfter.Keys == set id | id in all - delayed :: URI(db.rows[id])
        invariant forall u :: u in proxyRetryAfter ==> DelayedAs(db.rows, u, proxyRetryAfter[u], now)
        decreases |delayed|
      {
        var id :| id in delayed;
        ghost var before := delayed;
        delayed := delayed - {id};
        assert all - delayed == (all - before) + {id};
        proxyRetryAfter := proxyRetryAfter[URI(db.rows[id]) := RetryAt(db.rows[id])];
      }
      assert all - delayed == all;
    }

    method LoadLockedIPs(now: Time)
      modifies this`lockedIPs
      ensures lockedIPs == old(lockedIPs) + UnexpiredLocks(db.blocked, now)
      ensures KnowsLocks(lockedIPs, old(lockedIPs), db.blocked, now)
    {
      hide Loaded, UnexpiredLocks, KnowsLocks;
      var all := UnexpiredLocks(db.blocked, now).Keys;
      var left := all;
      AllLocks(lockedIPs, db.blocked, now);
      assert all - left == {};
      while left != {}
        invariant left <= all
        invariant lockedIPs == Loaded(old(lockedIPs), db.blocked, all - left)
        decreases |left|
      {
        var ip :| ip in left;
        OneMoreLock(old(lockedIPs), db.blocked, all - left, ip);
        assert all - (left - {ip}) == (all - left) + {ip};
        left := left - {ip};
        lockedIPs := lockedIPs[ip := db.blocked[ip].until];
      }
      assert all - left == all;
      LocksAreKnown(lockedIPs, old(lockedIPs), db.blocked, now);
    }

    // ---- reading the pool ----

    method GetProxy() returns (uri: Option<string>)
      modifies this`getProxyIndex
      ensures pl == [] ==> uri == None && getProxyIndex == old(getProxyIndex)
      ensures pl != [] ==>
        var (at, next) := NextTurn(old(getProxyIndex), |pl|);
        uri == Some(URI(pl[at].p)) && getProxyIndex == next
    {
      if |pl| == 0 {
        return None;
      }
      if getProxyIndex >= |pl| {
        getProxyIndex := 0;
      }
      uri := Some(URI(pl[getProxyIndex].p));
      getProxyIndex := getProxyIndex + 1;
    }

    /** Whether a pool entry prints so; where the pool is exact, whether an available row does. */
    method HasProxy(uri: string) returns (has: bool)
      ensures has <==> uri in View().index
      ensures Included(View()) ==> (has <==> exists e :: e in pl && URI(e.p) == uri)
      ensures forall clock :: PoolExact(View(), clock) ==>
        (has <==> exists id :: id in db.rows && db.rows[id].available && URI(db.rows[id]) == uri)
    {
      hide URI, PoolExact, Included;
      has := uri in index;
      if Included(View()) { IndexIsPool(View(), uri); }
      forall clock | PoolExact(View(), clock)
        ensures has <==> exists id :: id in db.rows && db.rows[id].available && URI(db.rows[id]) == uri
      {
        IndexIsAvailable(View(), clock);
      }
    }

    method IsProxyValidationDue(uri: string, now: Time) returns (due: bool)
      modifies this`proxyRetryAfter
      ensures due == ValidationDue(old(View()), uri, now)
      ensures View() == ForgetDue(old(View()), uri, now)
    {
      if uri !in proxyRetryAfter {
        return true;
      }
      if now < proxyRetryAfter[uri] {
        return false;
      }
      proxyRetryAfter := proxyRetryAfter - {uri};
      return true;
    }

    // ---- locks ----

    method IsIPLocked(ip: string, now: Time) returns (locked: bool)
      modifies this`lockedIPs
      ensures locked == IPLocked(old(View()), ip, now)
      ensures View() == ForgetExpired(old(View()), ip, now)
    {
      if ip in lockedIPs {
        if now < lockedIPs[ip] {
          return true;
        }
        lockedIPs := lockedIPs - {ip};
      }
      return false;
    }

    method ClearFailureLocked(ip: string, works: bool)
      modifies this`lockedIPs, db`blocked
      ensures View() == ClearFailure(old(View()), ip, works)
    {
      lockedIPs := lockedIPs - {ip};
      if works {
        db.blocked := db.blocked - {ip};
      }
    }

    // ---- removing entries, last to first ----

    method RemoveByURI(uri: string)
      modifies this`pl, this`index
      ensures pl == DropUris(old(pl), {uri})
      ensures index == if HasUri(old(pl), uri) then old(index) - {uri} else old(index)
    {
      hide URI, DropUris, HasUri;
      var i := |pl|;
      ghost var was := pl;
      NothingLeft(was);
      while i > 0
        invariant 0 <= i <= |was|
        invariant pl == was[..i] + DropUris(was[i..], {uri})
        invariant index == if HasUri(was[i..], uri) then old(index) - {uri} else old(index)
      {
        i := i - 1;
        OneMoreUri(was, i, uri);
        assert pl[i] == was[i] && pl[..i] == was[..i] && pl[i + 1..] == DropUris(was[i + 1..], {uri});
        if URI(pl[i].p) == uri {
          index := index - {uri};
          pl := pl[..i] + pl[i + 1..];
        }
      }
      assert was[0..] == was;
    }

    method RemoveByIP(ip: string)
      modifies this`pl, this`index
      ensures pl == DropIP(old(pl), ip)
      ensures index == old(index) - UrisOfIP(old(pl), ip)
    {
      hide URI, DropIP, UrisOfIP;
      var i := |pl|;
      ghost var was := pl;
      NothingLeft(was);
      UrisOfNone(ip);
      while i > 0
        invariant 0 <= i <= |was|
        invariant pl == was[..i] + DropIP(was[i..], ip)
        invariant index == old(index) - UrisOfIP(was[i..], ip)
      {
        i := i - 1;
        OneMoreIP(was, i, ip);
        assert pl[i] == was[i] && pl[..i] == was[..i] && pl[i + 1..] == DropIP(was[i + 1..], ip);
        if pl[i].p.ip == ip {
          index := index - {URI(pl[i].p)};
          pl := pl[..i] + pl[i + 1..];
        }
      }
      assert was[0..] == was;
    }

    // ---- lifecycle ----

    /** The record a candidate is saved as; a stored endpoint keeps its row. */
    method Prepare(p: Proxy, read: bool) returns (q: Proxy)
      requires UniqueIndex(db.rows)
      ensures q == Accepted(db.rows, p, read)
    {
      q := p;
      if q.protocol == "" {
        q := q.(protocol := "http");
      }
      q := q.(available := true, consecutiveFailures := 0, nextVerifyAt := Some(ZERO_TIME));
      if read {
        var found, id := db.FindEndpoint(q);
        if found {
          q := q.(id := id);
        }
      }
    }

    /** Caches a saved row in place of any entry printing the same. */
    method ReplaceEntry(row: Proxy)
      modifies this`pl, this`index, this`proxyRetryAfter
      ensures pl == DropUris(old(pl), {URI(row)}) + [Entry(row, 0)]
      ensures index == old(index) + {URI(row)}
      ensures proxyRetryAfter == old(proxyRetryAfter) - {URI(row)}
    {
      hide URI, DropUris, HasUri;
      var uri := URI(row);
      RemoveByURI(uri);
      pl := pl + [Entry(row, 0)];
      index := index + {uri};
      proxyRetryAfter := proxyRetryAfter - {uri};
    }

    method UpsertProxy(p: Proxy, now: Time, faults: Faults) returns (ok: bool)
      requires UniqueIndex(db.rows)
      modifies this`pl, this`index, this`lockedIPs, this`proxyRetryAfter, db
      ensures (View(), ok) == Upsert(old(View()), p, now, faults)
    {
      hide URI, UniqueIndex, DropUris, HasUri, Accepted, HasEndpoint, Conflicts;
      var locked := IsIPLocked(p.ip, now);
      if locked {
        return false;
      }
      var q := Prepare(p, faults.read);
      var saved, row := db.Save(q, faults.write);
      if !saved {
        return false;
      }
      ReplaceEntry(row);
      assert View() == Admit(ForgetExpired(old(View()), p.ip, now), row);
      ClearFailureLocked(p.ip, faults.side);
      return true;
    }

    method MarkVerifySuccess(p: Proxy, delay: int, verifyTime: Time, deepVerified: bool, now: Time, faults: Faults)
      modifies this`pl, this`index, this`lockedIPs, this`proxyRetryAfter, db`rows, db`blocked
      ensures View() == VerifySuccess(old(View()), p, delay, verifyTime, deepVerified, now, faults)
    {
      var locked := IsIPLocked(p.ip, now);
      if locked {
        return;
      }
      if !faults.write {
        return;
      }
      if p.id !in db.rows {
        return;
      }
      ghost var t := View();
      var stored := db.rows[p.id].(available := true, consecutiveFailures := 0, delay := delay,
                                   lastVerify := verifyTime, nextVerifyAt := Some(ZERO_TIME));
      if deepVerified {
        stored := stored.(lastDeepVerify := verifyTime);
      }
      db.rows := db.rows[p.id := stored];
      var uri := URI(p);
      proxyRetryAfter := proxyRetryAfter - {uri};
      var i := 0;
      while i < |pl|
        invariant 0 <= i <= |pl|
        invariant forall j :: 0 <= j < i ==> URI(pl[j].p) != uri
      {
        if URI(pl[i].p) == uri {
          FirstIs(pl, uri, i);
          ClearFailureLocked(p.ip, faults.side);
          var cached := pl[i].p.(available := true, consecutiveFailures := 0, delay := delay,
                                 lastVerify := verifyTime, nextVerifyAt := Some(ZERO_TIME));
          if deepVerified {
            cached := cached.(lastDeepVerify := verifyTime);
          }
          pl := pl[i := pl[i].(p := cached)];
          assert View() == Recheck(t, p, delay, verifyTime, deepVerified, faults);
          return;
        }
        i := i + 1;
      }
      assert !HasUri(pl, uri);
      if !faults.read {
        return;
      }
      ClearFailureLocked(p.ip, faults.side);
      pl := pl + [Entry(db.rows[p.id], 0)];
      index := index + {uri};
      assert View() == Recheck(t, p, delay, verifyTime, deepVerified, faults);
    }

    method MarkVerifyFailed(p: Proxy, now: Time, faults: Faults) returns (failures: nat)
      modifies this`pl, this`index, this`proxyRetryAfter, db`rows
      ensures (View(), failures) == VerifyFailed(old(View()), p, now, faults)
    {
      if !faults.read || p.id !in db.rows {
        return 0;
      }
      failures := db.rows[p.id].consecutiveFailures + 1;
      var retryAt := now + RetryBackoff(failures);
      if !faults.write {
        return 0;
      }
      db.rows := db.rows[p.id := db.rows[p.id].(available := false, consecutiveFailures := failures,
                                                lastVerify := now, nextVerifyAt := Some(retryAt))];
      proxyRetryAfter := proxyRetryAfter[URI(p) := retryAt];
      RemoveByURI(URI(p));
    }

    /** The id of the first cached record printing as `uri`, 0 when there is none. */
    method CachedId(uri: string) returns (id: nat)
      ensures id == if HasUri(pl, uri) then pl[FirstUri(pl, uri)].p.id else 0
    {
      hide URI;
      for i := 0 to |pl|
        invariant forall j :: 0 <= j < i ==> URI(pl[j].p) != uri
      {
        if URI(pl[i].p) == uri {
          FirstIs(pl, uri, i);
          return pl[i].p.id;
        }
      }
      return 0;
    }

    method MarkProxyUnavailable(uri: string, now: Time, faults: Faults)
      modifies this`pl, this`index, this`proxyRetryAfter, db`rows
      ensures View() == ProxyUnavailable(old(View()), uri, now, faults)
    {
      hide URI, DropUris, FirstUri;
      var id := CachedId(uri);
      if id == 0 {
        return;
      }
      if !faults.read || id !in db.rows {
        return;
      }
      var failures := db.rows[id].consecutiveFailures + 1;
      var retryAt := now + RetryBackoff(failures);
      if !faults.write {
        return;
      }
      db.rows := db.rows[id := db.rows[id].(available := false, consecutiveFailures := failures,
                                            lastVerify := now, nextVerifyAt := Some(retryAt))];
      proxyRetryAfter := proxyRetryAfter[uri := retryAt];
      RemoveByURI(uri);
    }

    method RecordFailure(ip: string, now: Time, faults: Faults) returns (locked: bool)
      modifies this`pl, this`index, this`lockedIPs, db`rows, db`blocked
      ensures (View(), locked) == Failure(old(View()), ip, now, faults)
    {
      var b := Blocked(0, ZERO_TIME);
      if faults.read && ip in db.blocked {
        b := db.blocked[ip];
      }
      b := b.(failures := b.failures + 1);
      locked := b.failures >= FAILURE_LOCK_THRESHOLD;
      if locked {
        b := b.(until := now + FAILURE_LOCK_DURATION);
        lockedIPs := lockedIPs[ip := b.until];
        if faults.write {
          db.rows := TakeDown(db.rows, ip);
        }
        RemoveByIP(ip);
      }
      if faults.side {
        db.blocked := db.blocked[ip := b];
      }
    }

    method CleanupStaleProxies(threshold: nat, now: Time, faults: Faults)
      modifies this`pl, this`index, db`rows
      ensures View() == Cleanup(old(View()), threshold, now, faults)
    {
      hide URI, DropUris, PoolUris;
      var stale := StaleIds(db.rows, threshold, now);
      if !faults.read || stale == {} || !faults.write {
        return;
      }
      var removed := map id | id in stale :: db.rows[id];
      db.rows := db.rows - stale;
      RemoveAll(removed);
      assert removed.Keys == stale;
      assert UrisOf(removed, stale) == set id | id in stale :: URI(old(db.rows)[id]);
    }

    /** Takes every entry printing like one of the given rows out of the pool. */
    method RemoveAll(rows: map<nat, Proxy>)
      modifies this`pl, this`index
      ensures pl == DropUris(old(pl), UrisOf(rows, rows.Keys))
      ensures index == old(index) - (UrisOf(rows, rows.Keys) * PoolUris(old(pl)))
    {
      hide URI, DropUris, PoolUris, UrisOf;
      ghost var was := pl;
      var left := rows.Keys;
      DropNone(pl);
      UrisGrow(rows, {}, 0);
      while left != {}
        invariant left <= rows.Keys
        invariant pl == DropUris(was, UrisOf(rows, rows.Keys - left))
        invariant index == old(index) - (UrisOf(rows, rows.Keys - left) * PoolUris(was))
        decreases |left|
      {
        var id :| id in left;
        ghost var gone := rows.Keys - left;
        left := left - {id};
        assert rows.Keys - left == gone + {id};
        UrisGrow(rows, gone, id);
        DropTwice(was, UrisOf(rows, gone), URI(rows[id]));
        DropUrisUris(was, UrisOf(rows, gone));
        HasUriMember(pl, URI(rows[id]));
        OneMoreRemoved(old(index), UrisOf(rows, gone), URI(rows[id]), PoolUris(was));
        RemoveByURI(URI(rows[id]));
      }
      assert rows.Keys - left == rows.Keys;
    }

    // ---- scheduling ----

    /** The pool's positions, stably sorted by use count: insertion into the sorted part, one swap at a time. */
    method SortedCopy() returns (order: seq<nat>)
      ensures forall k :: 0 <= k < |order| ==> order[k] < |pl|
      ensures forall i :: 0 <= i < |pl| ==> i in order
      ensures forall a, b :: 0 <= a < b < |order| ==> Before(pl, order[a], order[b])
    {
      order := [];
      var i := 0;
      while i < |pl|
        invariant 0 <= i <= |pl| && |order| == i
        invariant forall k :: 0 <= k < i ==> order[k] < i
        invariant forall k :: 0 <= k < i ==> k in order
        invariant forall a, b :: 0 <= a < b < i ==> Before(pl, order[a], order[b])
      {
        order := InsertLast(order, i);
        i := i + 1;
      }
    }

    method InsertLast(sorted: seq<nat>, i: nat) returns (order: seq<nat>)
      requires i < |pl| && |sorted| == i
      requires forall k :: 0 <= k < i ==> sorted[k] < i
      requires forall a, b :: 0 <= a < b < i ==> Before(pl, sorted[a], sorted[b])
      ensures |order| == i + 1
      ensures forall k :: 0 <= k <= i ==> order[k] <= i
      ensures i in order && forall k :: k in sorted ==> k in order
      ensures forall a, b :: 0 <= a < b <= i ==> Before(pl, order[a], order[b])
    {
      order := sorted + [i];
      var j := i;
      while j > 0 && pl[order[j]].n < pl[order[j - 1]].n
        invariant 0 <= j <= i
        invariant order == sorted[..j] + [i] + sorted[j..]
        invariant forall k :: j <= k < i ==> pl[i].n < pl[sorted[k]].n
      {
        order := order[j := order[j - 1]][j - 1 := order[j]];
        j := j - 1;
      }
      InsertedInOrder(pl, sorted, i, j);
    }

    /** Chooses an upstream for `domain`: a sorted copy of the pool, scanned for the first entry that is
        neither skipped for the target nor given to the domain within the window. */
    method PickProxy(domain: string, now: Time) returns (uri: Option<string>)
      modifies this`pl, this`dl, this`targetFailures
      ensures var r := Pick(old(pl), old(Scheduling()), domain, now);
        && pl == r.pool && Scheduling() == r.sched
        && uri == (if r.choice.Some? then Some(URI(old(pl)[r.choice.value].p)) else None)
    {
      if |pl| == 0 {
        return None;
      }
      hide OpenCircuits, ExcludedIps, RecentOnly, LeastUsed, URI, Eligible, Pruned, Unix;
      var choice := Choose(domain, now);
      if choice.None? {
        return None;
      }
      uri := Some(URI(pl[choice.value].p));
      ghost var e := Entry(pl[choice.value].p, Unix(now));
      Hand(choice.value, domain, now);
      assert dl == old(dl)[domain := RecentOnly(Given(old(Scheduling()), domain), Unix(now)) + [e]];
    }

    /** Forgets what is out of the window and what circuits have closed, then scans the sorted copy. */
    method Choose(domain: string, now: Time) returns (choice: Option<nat>)
      modifies this`dl, this`targetFailures
      ensures dl == old(dl)[domain := RecentOnly(Given(old(Scheduling()), domain), Unix(now))]
      ensures targetFailures == Pruned(old(targetFailures), domain, now)
      ensures choice == LeastUsed(pl, |pl|, OpenCircuits(Circuits(old(Scheduling()), domain), now).Keys,
                                  ExcludedIps(Given(old(Scheduling()), domain), Unix(now)))
    {
      hide OpenCircuits, ExcludedIps, RecentOnly, LeastUsed, URI, Before, Eligible, Pruned, Unix;
      var order := SortedCopy();
      var candidate, recent := CollectRecent(if domain in dl then dl[domain] else [], Unix(now));
      dl := dl[domain := recent];
      var failed := PruneFailures(domain, now);
      choice := Scan(order, failed.Keys, candidate);
    }

    /** Notes that the domain is given entry `i`, and counts the use. */
    method Hand(i: nat, domain: string, now: Time)
      requires i < |pl| && domain in dl
      modifies this`pl, this`dl
      ensures dl == old(dl)[domain := old(dl)[domain] + [Entry(old(pl)[i].p, Unix(now))]]
      ensures pl == old(pl)[i := old(pl)[i].(n := old(pl)[i].n + 1)]
    {
      dl := dl[domain := dl[domain] + [Entry(pl[i].p, Unix(now))]];
      pl := pl[i := pl[i].(n := pl[i].n + 1)];
    }

    /** Drops the target's circuits that have closed again. */
    method PruneFailures(domain: string, now: Time) returns (failed: map<string, Time>)
      modifies this`targetFailures
      ensures failed == OpenCircuits(Circuits(old(Scheduling()), domain), now)
      ensures targetFailures == Pruned(old(targetFailures), domain, now)
    {
      failed := if domain in targetFailures then targetFailures[domain] else map[];
      failed := map u | u in failed && now < failed[u] :: failed[u];
      assert failed == OpenCircuits(Circuits(Scheduling(), domain), now);
      if failed == map[] {
        targetFailures := targetFailures - {domain};
      } else {
        targetFailures := targetFailures[domain := failed];
      }
    }

    /** The first position of the sorted copy whose entry may be used. */
    method Scan(order: seq<nat>, failed: set<string>, candidate: set<string>) returns (choice: Option<nat>)
      requires forall k :: 0 <= k < |order| ==> order[k] < |pl|
      requires forall i :: 0 <= i < |pl| ==> i in order
      requires forall a, b :: 0 <= a < b < |order| ==> Before(pl, order[a], order[b])
      ensures choice == LeastUsed(pl, |pl|, failed, candidate)
    {
      hide URI;
      for k := 0 to |order|
        invariant forall j :: 0 <= j < k ==> !Eligible(pl[order[j]], failed, candidate)
      {
        var e := pl[order[k]];
        if URI(e.p) !in failed && e.p.ip !in candidate {
          FirstInOrder(pl, order, k, failed, candidate);
          return Some(order[k]);
        }
      }
      NoneInOrder(pl, order, failed, candidate);
      return None;
    }

    method CollectRecent(given: seq<Entry>, unix: nat) returns (candidate: set<string>, recent: seq<Entry>)
      ensures candidate == ExcludedIps(given, unix) && recent == RecentOnly(given, unix)
    {
      candidate, recent := {}, [];
      hide RecentOnly, ExcludedIps;
      var i := 0;
      NoneRecent(given, unix);
      while i < |given|
        invariant 0 <= i <= |given|
        invariant recent + RecentOnly(given[i..], unix) == RecentOnly(given, unix)
        invariant candidate == ExcludedIps(given[..i], unix)
      {
        OneMoreRecent(given, i, unix);
        if unix - given[i].n < WINDOW {
          candidate := candidate + {given[i].p.ip};
          recent := recent + [given[i]];
        }
        i := i + 1;
      }
      assert given[..|given|] == given;
    }

    method MarkProxyTargetFailure(uri: string, target: string, now: Time, configuredTTL: nat)
      modifies this`targetFailures, this`failureTTL
      ensures failureTTL == if uri != "" && target != "" && old(failureTTL) <= 0 then configuredTTL else old(failureTTL)
      ensures Scheduling() == MarkTargetFailure(old(Scheduling()), uri, target, now,
                                if old(failureTTL) <= 0 then configuredTTL else old(failureTTL))
    {
      if uri == "" || target == "" {
        return;
      }
      if failureTTL <= 0 {
        failureTTL := configuredTTL;
      }
      var failures: map<string, Time> := if target in targetFailures then targetFailures[target] else map[];
      targetFailures := targetFailures[target := failures[uri := now + failureTTL]];
    }

    // ---- the sweeper ----

    /** One tick of the background sweeper. */
    method GC(now: Time)
      modifies this`dl, this`targetFailures
      ensures Scheduling() == Sweep(old(Scheduling()), now)
    {
      hide SweepList, OpenCircuits, Unix;
      var left := dl.Keys;
      ghost var was := dl;
      while left != {}
        modifies this`dl
        invariant left <= was.Keys
        invariant forall d :: d in dl <==> d in was && (d in left || SweepList(was[d], Unix(now)) != [])
        invariant forall d :: d in dl ==> dl[d] == if d in left then was[d] else SweepList(was[d], Unix(now))
        decreases |left|
      {
        var d :| d in left;
        left := left - {d};
        var swept := SweepSlice(dl[d], Unix(now));
        if swept == [] {
          dl := dl - {d};
        } else {
          dl := dl[d := swept];
        }
      }
      assert dl == Sweep(Sched(was, targetFailures), now).dl;
      targetFailures := map t | t in targetFailures && OpenCircuits(targetFailures[t], now) != map[]
                          :: OpenCircuits(targetFailures[t], now);
      assert targetFailures == Sweep(old(Scheduling()), now).circuits;
    }

    /** Deletes the expired entries of one list, last to first, shifting the backing array in place while
        the header `v` keeps its full length. */
    method SweepSlice(list: seq<Entry>, unix: nat) returns (swept: seq<Entry>)
      ensures swept == SweepList(list, unix)
    {
      var n := |list|;
      if n == 0 {
        return list;
      }
      var v := new Entry[n](i requires 0 <= i < n => list[i]);
      assert v[..] == list;
      var i := n;
      swept := list;
      ghost var deleted := 0;
      SweepStart(list, unix);
      hide SweptTo, SweepList;
      while i > 0
        invariant 0 <= i <= n && v.Length == n
        invariant SweptTo(list, i, unix, deleted, v[..])
        invariant swept == if deleted == 0 then list else v[..n - 1]
      {
        i := i - 1;
        SweepStep(list, i, unix, deleted, v[..]);
        if unix - list[i].n > WINDOW {
          deleted := deleted + 1;
          swept := Delete(v, i);
        }
      }
      SweepEnd(list, unix, deleted, v[..]);
    }

    /** Appends what follows `at` to what precedes it, in the array itself, and returns the shorter slice. */
    static method Delete(v: array<Entry>, at: nat) returns (rest: seq<Entry>)
      requires at < v.Length
      modifies v
      ensures v[..] == old(v[..])[..at] + old(v[..])[at + 1..] + [old(v[..])[v.Length - 1]]
      ensures rest == v[..v.Length - 1]
    {
      ghost var was := v[..];
      ShiftLeft(v, at);
      assert v[..] == was[..at] + was[at + 1..] + [was[v.Length - 1]];
      rest := v[..v.Length - 1];
    }

    /** Moves every later element one place down; the last stays where it was as well. */
    static method ShiftLeft(v: array<Entry>, at: nat)
      requires at < v.Length
      modifies v
      ensures v[..] == old(v[..at] + v[at + 1..] + [v[v.Length - 1]])
    {
      var j := at;
      while j + 1 < v.Length
        invariant at <= j < v.Length
        invariant forall k :: 0 <= k < at ==> v[k] == old(v[k])
        invariant forall k :: at <= k < j ==> v[k] == old(v[k + 1])
        invariant forall k :: j <= k < v.Length ==> v[k] == old(v[k])
      {
        v[j] := v[j + 1];
        j := j + 1;
      }
    }
  }

  /** A process start: the cache is built, then told the locked addresses. */
  method Start(db: Database, now: Time, failureTTL: int) returns (cache: MemCache)
    requires RowsOK(Store(db.rows, db.nextId, db.blocked, [], {}, map[], map[]))
    ensures fresh(cache) && cache.db == db && unchanged(db)
    ensures FreshOver(cache.View(), db.rows, db.nextId, db.blocked, now)
    ensures cache.getProxyIndex == 0 && cache.Scheduling() == Sched(map[], map[])
  {
    cache := new MemCache(db, now, failureTTL);
    cache.LoadLockedIPs(now);
    assert cache.lockedIPs == UnexpiredLocks(db.blocked, now);
  }

  // ---- lemmas the loops use ----

  predicate Before(pool: seq<Entry>, i: nat, j: nat)
    requires i < |pool| && j < |pool|
  {
    pool[i].n < pool[j].n || (pool[i].n == pool[j].n && i < j)
  }

  /** Putting i behind the last entry used no more than it keeps the order strict. */
  lemma InsertedInOrder(pool: seq<Entry>, sorted: seq<nat>, i: nat, j: nat)
    requires i < |pool| && |sorted| == i && j <= i
    requires forall k :: 0 <= k < i ==> sorted[k] < i
    requires forall a, b :: 0 <= a < b < i ==> Before(pool, sorted[a], sorted[b])
    requires forall k :: j <= k < i ==> pool[i].n < pool[sorted[k]].n
    requires j > 0 ==> pool[sorted[j - 1]].n <= pool[i].n
    ensures var order := sorted[..j] + [i] + sorted[j..];
      && (forall k :: 0 <= k <= i ==> order[k] <= i)
      && i in order && (forall k :: k in sorted ==> k in order)
      && (forall a, b :: 0 <= a < b <= i ==> Before(pool, order[a], order[b]))
  {
    var order := sorted[..j] + [i] + sorted[j..];
    InsertedAt(sorted, i, j);
    forall k | 0 <= k < j ensures pool[sorted[k]].n <= pool[i].n {
      assert k == j - 1 || Before(pool, sorted[k], sorted[j - 1]);
    }
    forall a, b | 0 <= a < b <= i ensures Before(pool, order[a], order[b]) {
      if a == j {
        assert order[b] == sorted[b - 1];
      } else if b == j {
        assert order[a] == sorted[a];
      } else {
        assert Before(pool, sorted[if a < j then a else a - 1], sorted[if b < j then b else b - 1]);
      }
    }
  }

  lemma InsertedAt(sorted: seq<nat>, i: nat, j: nat)
    requires j <= |sorted|
    ensures var order := sorted[..j] + [i] + sorted[j..];
      && |order| == |sorted| + 1
      && (forall k :: 0 <= k <= |sorted| ==> order[k] == if k < j then sorted[k] else if k == j then i else sorted[k - 1])
      && i in order && (forall k :: k in sorted ==> k in order)
  {
    assert sorted == sorted[..j] + sorted[j..];
  }

  /** The first eligible entry of the stably sorted order is the leftmost least-used eligible entry. */
  lemma FirstInOrder(pool: seq<Entry>, order: seq<nat>, k: nat, open: set<string>, excluded: set<string>)
    requires k < |order| && forall j :: 0 <= j < |order| ==> order[j] < |pool|
    requires forall i :: 0 <= i < |pool| ==> i in order
    requires forall a, b :: 0 <= a < b < |order| ==> Before(pool, order[a], order[b])
    requires Eligible(pool[order[k]], open, excluded)
    requires forall j :: 0 <= j < k ==> !Eligible(pool[order[j]], open, excluded)
    ensures LeastUsed(pool, |pool|, open, excluded) == Some(order[k])
  {
    hide URI, Eligible;
    var best := LeastUsed(pool, |pool|, open, excluded);
    assert best.Some? && best.value in order;
    var j :| 0 <= j < |order| && order[j] == best.value;
  }

  lemma NoneInOrder(pool: seq<Entry>, order: seq<nat>, open: set<string>, excluded: set<string>)
    requires forall i :: 0 <= i < |pool| ==> i in order
    requires forall j :: 0 <= j < |order| ==> order[j] < |pool| && !Eligible(pool[order[j]], open, excluded)
    ensures LeastUsed(pool, |pool|, open, excluded) == None
  {
    hide URI, Eligible;
    forall i | 0 <= i < |pool| ensures !Eligible(pool[i], open, excluded) {
      assert i in order;
    }
  }

  /** Besides the locks known before, exactly the unexpired ones of the table are known, with its times. */
  ghost predicate KnowsLocks(after: map<string, Time>, before: map<string, Time>, blocked: map<string, Blocked>, now: Time) {
    && (forall ip :: ip in after <==> ip in before || (ip in blocked && now < blocked[ip].until))
    && (forall ip :: ip in after ==> after[ip] == if ip in blocked && now < blocked[ip].until then blocked[ip].until else before[ip])
  }

  lemma LocksAreKnown(after: map<string, Time>, before: map<string, Time>, blocked: map<string, Blocked>, now: Time)
    requires after == before + UnexpiredLocks(blocked, now)
    ensures KnowsLocks(after, before, blocked, now)
  {}

  /** The locks of some addresses on top of those in memory. */
  function Loaded(locked: map<string, Time>, blocked: map<string, Blocked>, ips: set<string>): (r: map<string, Time>) {
    locked + (map ip | ip in ips && ip in blocked :: blocked[ip].until)
  }

  lemma OneMoreLock(locked: map<string, Time>, blocked: map<string, Blocked>, ips: set<string>, ip: string)
    requires ip in blocked
    ensures Loaded(locked, blocked, ips + {ip}) == Loaded(locked, blocked, ips)[ip := blocked[ip].until]
  {}

  lemma AllLocks(locked: map<string, Time>, blocked: map<string, Blocked>, now: Time)
    ensures Loaded(locked, blocked, {}) == locked
    ensures Loaded(locked, blocked, UnexpiredLocks(blocked, now).Keys) == locked + UnexpiredLocks(blocked, now)
    ensures UnexpiredLocks(blocked, now).Keys <= blocked.Keys
  {}

  lemma IndexIsPool(s: Store, uri: string)
    requires Included(s)
    ensures uri in s.index <==> exists e :: e in s.pool && URI(e.p) == uri
  {
    hide URI, WellFormed, RowsOK;
  }

  lemma NothingDistinct()
    ensures Distinct([]) && PoolIds([]) == {} && PoolUris([]) == {}
  {}

  lemma NoneRecent(given: seq<Entry>, unix: nat)
    ensures RecentOnly(given[|given|..], unix) == [] && ExcludedIps(given[..0], unix) == {} && given[0..] == given
    ensures given[..|given|] == given
  {}

  lemma OneMoreRecent(given: seq<Entry>, i: nat, unix: nat)
    requires i < |given|
    ensures RecentOnly(given[i..], unix) ==
      (if unix - given[i].n < WINDOW then [given[i]] else []) + RecentOnly(given[i + 1..], unix)
    ensures ExcludedIps(given[..i + 1], unix) ==
      ExcludedIps(given[..i], unix) + (if unix - given[i].n < WINDOW then {given[i].p.ip} else {})
  {
    assert given[i..][1..] == given[i + 1..];
    assert forall x :: x in given[..i + 1] <==> x in given[..i] || x == given[i];
  }

  lemma AppendEntry(pool: seq<Entry>, e: Entry)
    requires Distinct(pool) && e.p.id !in PoolIds(pool)
    ensures Distinct(pool + [e]) && PoolIds(pool + [e]) == PoolIds(pool) + {e.p.id}
    ensures PoolUris(pool + [e]) == PoolUris(pool) + {URI(e.p)}
  {
    hide URI;
    assert forall x :: x in pool + [e] <==> x in pool || x == e;
    assert forall i :: 0 <= i < |pool| ==> pool[i] in pool;
  }

  lemma FirstIs(pool: seq<Entry>, uri: string, i: nat)
    requires i < |pool| && URI(pool[i].p) == uri
    requires forall j :: 0 <= j < i ==> URI(pool[j].p) != uri
    ensures HasUri(pool, uri) && FirstUri(pool, uri) == i
  {
    hide URI;
  }

  lemma NothingLeft(was: seq<Entry>)
    ensures was[|was|..] == [] && was[..|was|] == was
    ensures forall uri :: DropUris([], {uri}) == [] && !HasUri([], uri)
    ensures forall ip :: DropIP([], ip) == []
    ensures was + [] == was
  {}

  lemma OneMoreUri(was: seq<Entry>, i: nat, uri: string)
    requires i < |was|
    ensures was[..i + 1] == was[..i] + [was[i]]
    ensures DropUris(was[i..], {uri}) ==
      (if URI(was[i].p) == uri then [] else [was[i]]) + DropUris(was[i + 1..], {uri})
    ensures HasUri(was[i..], uri) <==> URI(was[i].p) == uri || HasUri(was[i + 1..], uri)
  {
    hide URI;
    var v, rest := was[i..], was[i + 1..];
    assert v[0] == was[i] && v[1..] == rest;
    if HasUri(rest, uri) {
      var k :| 0 <= k < |rest| && URI(rest[k].p) == uri;
      assert v[k + 1] == rest[k];
    }
    if HasUri(v, uri) && URI(v[0].p) != uri {
      var k :| 0 <= k < |v| && URI(v[k].p) == uri;
      assert rest[k - 1] == v[k];
    }
  }

  function UrisOfIP(pool: seq<Entry>, ip: string): (r: set<string>) {
    set e | e in pool && e.p.ip == ip :: URI(e.p)
  }

  lemma UrisOfNone(ip: string)
    ensures UrisOfIP([], ip) == {}
  {}

  lemma OneMoreIP(was: seq<Entry>, i: nat, ip: string)
    requires i < |was|
    ensures was[..i + 1] == was[..i] + [was[i]]
    ensures DropIP(was[i..], ip) == (if was[i].p.ip == ip then [] else [was[i]]) + DropIP(was[i + 1..], ip)
    ensures UrisOfIP(was[i..], ip) == UrisOfIP(was[i + 1..], ip) + (if was[i].p.ip == ip then {URI(was[i].p)} else {})
  {
    hide URI;
    var v, rest := was[i..], was[i + 1..];
    assert v[0] == was[i] && v[1..] == rest;
    assert forall x :: x in v <==> x == was[i] || x in rest;
  }

  function UrisOf(rows: map<nat, Proxy>, ids: set<nat>): (r: set<string>)
    requires ids <= rows.Keys
  {
    set id | id in ids :: URI(rows[id])
  }

  lemma UrisGrow(rows: map<nat, Proxy>, ids: set<nat>, id: nat)
    requires ids <= rows.Keys
    ensures id in rows ==> UrisOf(rows, ids + {id}) == UrisOf(rows, ids) + {URI(rows[id])}
    ensures UrisOf(rows, {}) == {} && rows.Keys - rows.Keys == {}
  {
    hide URI;
  }

  lemma {:induction false} DropTwice(pool: seq<Entry>, uris: set<string>, uri: string)
    ensures DropUris(DropUris(pool, uris), {uri}) == DropUris(pool, uris + {uri})
  {
    hide URI;
    if pool != [] {
      var head, tail := pool[0], pool[1..];
      DropTwice(tail, uris, uri);
      assert pool == [head] + tail;
      DropCons(head, tail, uris);
      DropCons(head, tail, uris + {uri});
      DropCons(head, DropUris(tail, uris), {uri});
    }
  }

  lemma DropCons(head: Entry, tail: seq<Entry>, uris: set<string>)
    ensures DropUris([head] + tail, uris) == if URI(head.p) in uris then DropUris(tail, uris) else [head] + DropUris(tail, uris)
  {
    hide URI;
    assert ([head] + tail)[1..] == tail;
  }

  lemma OneMoreRemoved(index: set<string>, gone: set<string>, uri: string, cached: set<string>)
    ensures index - ((gone + {uri}) * cached) == index - (gone * cached) - (if uri in cached - gone then {uri} else {})
  {}

  lemma DropUrisUris(pool: seq<Entry>, uris: set<string>)
    ensures PoolUris(DropUris(pool, uris)) == PoolUris(pool) - uris
  {
    hide URI;
  }

  lemma {:induction false} DropNone(pool: seq<Entry>)
    ensures DropUris(pool, {}) == pool
  {
    hide URI;
    if pool != [] {
      DropNone(pool[1..]);
    }
  }

  /** The backing array once the sweeper has gone through the entries from i on. */
  ghost predicate SweptTo(list: seq<Entry>, i: nat, unix: nat, deleted: nat, v: seq<Entry>) {
    && list != [] && i <= |list|
    && deleted == |list| - i - |NotExpired(list[i..], unix)|
    && v == list[..i] + NotExpired(list[i..], unix) + Copies(list[|list| - 1], deleted)
  }

  lemma SweepStart(list: seq<Entry>, unix: nat)
    requires list != []
    ensures SweptTo(list, |list|, unix, 0, list)
  {
    assert list[|list|..] == [] && list[..|list|] == list;
  }

  /** One entry further to the left. */
  lemma SweepStep(list: seq<Entry>, i: nat, unix: nat, deleted: nat, v: seq<Entry>)
    requires i < |list| && |v| == |list| && SweptTo(list, i + 1, unix, deleted, v)
    ensures unix - list[i].n <= WINDOW ==> SweptTo(list, i, unix, deleted, v)
    ensures unix - list[i].n > WINDOW ==> SweptTo(list, i, unix, deleted + 1, v[..i] + v[i + 1..] + [v[|list| - 1]])
  {
    var last, kept := list[|list| - 1], NotExpired(list[i + 1..], unix);
    LastStays(list, i, kept, deleted, unix, v);
    CopiesGrow(last, deleted);
    NotExpiredFrom(list, i, unix);
    assert list[..i + 1] == list[..i] + [list[i]];
    Shifted(list[..i], list[i], kept, Copies(last, deleted), v);
    hide NotExpired, Copies;
    assert |list[..i]| == i;
  }

  lemma NotExpiredFrom(list: seq<Entry>, i: nat, unix: nat)
    requires i < |list|
    ensures NotExpired(list[i..], unix) == (if unix - list[i].n <= WINDOW then [list[i]] else []) + NotExpired(list[i + 1..], unix)
  {
    assert list[i..][1..] == list[i + 1..];
  }

  lemma Shifted(before: seq<Entry>, gone: Entry, kept: seq<Entry>, copies: seq<Entry>, v: seq<Entry>)
    requires v == before + [gone] + kept + copies
    ensures v[..|before|] + v[|before| + 1..] + [v[|v| - 1]] == before + kept + (copies + [v[|v| - 1]])
    ensures v == before + ([gone] + kept) + copies
    ensures before + ([] + kept) + (copies + [v[|v| - 1]]) == before + kept + (copies + [v[|v| - 1]])
  {
    assert [] + kept == kept;
    assert v[..|before|] == before && v[|before| + 1..] == kept + copies;
  }

  /** The last slot always holds the last entry: that one is kept, or it is the source of the copies. */
  lemma LastStays(list: seq<Entry>, i: nat, kept: seq<Entry>, deleted: nat, unix: nat, v: seq<Entry>)
    requires i < |list| && kept == NotExpired(list[i + 1..], unix)
    requires deleted == |list| - (i + 1) - |kept|
    requires v == list[..i + 1] + kept + Copies(list[|list| - 1], deleted)
    ensures v[|list| - 1] == list[|list| - 1]
  {
    if deleted == 0 {
      AllKept(list[i + 1..], unix);
    }
  }

  lemma CopiesGrow(e: Entry, n: nat)
    ensures |Copies(e, n)| == n && Copies(e, n + 1) == Copies(e, n) + [e]
  {}

  lemma SweepEnd(list: seq<Entry>, unix: nat, deleted: nat, v: seq<Entry>)
    requires |v| == |list| && SweptTo(list, 0, unix, deleted, v)
    ensures (if deleted == 0 then list else v[..|list| - 1]) == SweepList(list, unix)
  {
    assert list[0..] == list;
    if deleted > 0 {
      CopiesGrow(list[|list| - 1], deleted - 1);
      assert v == NotExpired(list, unix) + Copies(list[|list| - 1], deleted - 1) + [list[|list| - 1]];
    }
  }
}
