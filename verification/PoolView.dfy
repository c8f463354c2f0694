/** What memory and the database agree on: pool, index and locks at all times, retry times but for those whose row a
    cleanup removed. */
module PoolView {
  import opened Proxies
  import opened PoolStore

  // ---- the invariant ----

  ghost predicate RowsOK(s: Store) {
    && s.nextId >= 1
    && (forall id :: id in s.rows ==>
          1 <= id < s.nextId && s.rows[id].id == id && s.rows[id].protocol != "" && WellFormed(s.rows[id]))
    && (forall i, j :: i in s.rows && j in s.rows && URI(s.rows[i]) == URI(s.rows[j]) ==> i == j)
  }

  /** Every cached record is its row, the row is available, and the index lists exactly the cached
      endpoints, each once. Holds even when database calls fail. */
  ghost predicate Included(s: Store) {
    && RowsOK(s)
    && (forall e :: e in s.pool ==> e.p.id in s.rows && s.rows[e.p.id] == e.p && e.p.available)
    && Distinct(s.pool)
    && s.index == PoolUris(s.pool)
  }

  ghost predicate Complete(s: Store) {
    forall id :: id in s.rows && s.rows[id].available ==> id in PoolIds(s.pool)
  }

  /** From `clock` on, the lock table in memory and the stored one say the same. */
  ghost predicate LocksAgree(s: Store, clock: Time) {
    && (forall ip :: ip in s.locked ==> ip in s.blocked && s.blocked[ip].until == s.locked[ip])
    && (forall ip :: BlockedAt(s.blocked, ip, clock) ==> ip in s.locked)
    && (forall id :: id in s.rows && s.rows[id].available ==> !BlockedAt(s.blocked, s.rows[id].ip, clock))
  }

  /** From `clock` on, the retry table in memory and the stored delays say the same, but for times up to
      `grace` that memory may still hold for endpoints no longer delayed. */
  ghost predicate RetriesAgree(s: Store, clock: Time, grace: Time) {
    && (forall u :: u in s.retryAfter && clock < s.retryAfter[u] && grace < s.retryAfter[u] ==>
          DelayedAs(s.rows, u, s.retryAfter[u], clock))
    && (forall id :: id in s.rows && Delayed(s.rows[id], clock) ==>
          URI(s.rows[id]) in s.retryAfter && s.retryAfter[URI(s.rows[id])] == RetryAt(s.rows[id]))
  }

  /** No available row is waiting for a retry. */
  ghost predicate NothingAvailableWaits(s: Store, clock: Time) {
    forall id :: id in s.rows && s.rows[id].available ==> RetryAt(s.rows[id]) <= clock
  }

  /** A delay ends at most a day after the row's last check, or by `grace`. */
  ghost predicate DelaysBounded(s: Store, grace: Time) {
    forall id :: id in s.rows ==>
      RetryAt(s.rows[id]) <= s.rows[id].lastVerify + DAY || RetryAt(s.rows[id]) <= grace
  }

  /** Everything but the retry times: pool, index and locks are an exact view of the tables. */
  ghost predicate PoolExact(s: Store, clock: Time) {
    Included(s) && Complete(s) && LocksAgree(s, clock) && NothingAvailableWaits(s, clock)
  }

  /** An exact view, but for retry times up to `grace`. */
  ghost predicate ExactBeyond(s: Store, clock: Time, grace: Time) {
    PoolExact(s, clock) && RetriesAgree(s, clock, grace)
  }

  ghost predicate ExactView(s: Store, clock: Time) {
    ExactBeyond(s, clock, ZERO_TIME)
  }

  lemma LooserRetries(s: Store, clock: Time, grace: Time, looser: Time)
    requires RetriesAgree(s, clock, grace) && grace <= looser
    ensures RetriesAgree(s, clock, looser)
  {
    hide DelayedAs, URI;
  }

  /** Once the clock has passed them, times up to `grace` make no difference. */
  lemma GraceIsOver(s: Store, clock: Time, grace: Time)
    requires grace <= clock
    ensures RetriesAgree(s, clock, grace) <==> RetriesAgree(s, clock, ZERO_TIME)
  {
    hide DelayedAs, URI;
  }

  // ---- what callers pass ----

  /** A source candidate: parsed from a feed, it has no id yet. */
  predicate IsCandidate(p: Proxy) {
    p.id == 0 && WellFormed(p)
  }

  /** A record read from the table earlier: its row, if still there, is the same endpoint. */
  predicate IsSnapshot(s: Store, p: Proxy) {
    p.id >= 1 && p.protocol != "" && (p.id in s.rows ==> SameEndpoint(p, s.rows[p.id]))
  }

  // ---- lists ----

  lemma {:induction false} DropUrisDistinct(pool: seq<Entry>, uris: set<string>)
    requires Distinct(pool)
    ensures Distinct(DropUris(pool, uris))
  {
    if pool != [] {
      var rest := DropUris(pool[1..], uris);
      DropUrisDistinct(pool[1..], uris);
      HeadDiffers(pool, rest);
    }
  }

  lemma {:induction false} DropIPDistinct(pool: seq<Entry>, ip: string)
    requires Distinct(pool)
    ensures Distinct(DropIP(pool, ip))
  {
    if pool != [] {
      var rest := DropIP(pool[1..], ip);
      DropIPDistinct(pool[1..], ip);
      HeadDiffers(pool, rest);
    }
  }

  lemma HeadDiffers(pool: seq<Entry>, rest: seq<Entry>)
    requires pool != [] && Distinct(pool)
    requires forall e :: e in rest ==> e in pool[1..]
    ensures forall i :: 0 <= i < |rest| ==> rest[i].p.id != pool[0].p.id
  {
    forall i | 0 <= i < |rest| ensures rest[i].p.id != pool[0].p.id {
      assert rest[i] in pool[1..];
      var k :| 0 <= k < |pool[1..]| && pool[1..][k] == rest[i];
      assert pool[k + 1] == rest[i];
    }
  }

  lemma UriOfEndpoint(p: Proxy, q: Proxy)
    requires Scheme(p) == Scheme(q) && p.ip == q.ip && p.port == q.port
    ensures URI(p) == URI(q)
  {}

  lemma HasUriMember(pool: seq<Entry>, uri: string)
    ensures HasUri(pool, uri) <==> uri in PoolUris(pool)
    ensures HasUri(pool, uri) <==> exists e :: e in pool && URI(e.p) == uri
  {
    if HasUri(pool, uri) {
      assert pool[FirstUri(pool, uri)] in pool;
    }
  }

  // ---- forgetting expired entries changes nothing that matters later ----

  lemma SameRetries(s: Store, t: Store, clock: Time, grace: Time)
    requires s.rows == t.rows && s.retryAfter == t.retryAfter
    ensures RetriesAgree(s, clock, grace) <==> RetriesAgree(t, clock, grace)
  {
    hide DelayedAs, URI;
  }

  lemma ForgetExpiredKeeps(s: Store, ip: string, clock: Time, now: Time)
    requires clock <= now
    ensures Included(s) ==> Included(ForgetExpired(s, ip, now))
    ensures PoolExact(s, clock) ==> PoolExact(ForgetExpired(s, ip, now), now)
  {
    hide URI, WellFormed;
  }

  lemma ForgetDueKeeps(s: Store, uri: string, clock: Time, now: Time)
    requires clock <= now
    ensures Included(s) ==> Included(ForgetDue(s, uri, now))
    ensures PoolExact(s, clock) ==> PoolExact(ForgetDue(s, uri, now), now)
  {
    hide URI, WellFormed;
  }

  lemma ForgetDueKeepsRetries(s: Store, uri: string, now: Time, grace: Time)
    requires RetriesAgree(s, now, grace)
    ensures RetriesAgree(ForgetDue(s, uri, now), now, grace)
  {
    hide URI;
  }

  lemma LaterPool(s: Store, clock: Time, now: Time)
    requires clock <= now && PoolExact(s, clock)
    ensures PoolExact(s, now)
  {
    hide URI, WellFormed;
  }

  lemma LaterRetries(s: Store, clock: Time, now: Time, grace: Time)
    requires clock <= now && RetriesAgree(s, clock, grace)
    ensures RetriesAgree(s, now, grace)
  {
    hide URI;
    forall u | u in s.retryAfter && now < s.retryAfter[u] && grace < s.retryAfter[u]
      ensures DelayedAs(s.rows, u, s.retryAfter[u], now)
    {
      assert DelayedAs(s.rows, u, s.retryAfter[u], clock);
      var id :| id in s.rows && Delayed(s.rows[id], clock) && URI(s.rows[id]) == u && RetryAt(s.rows[id]) == s.retryAfter[u];
      assert Delayed(s.rows[id], now);
    }
  }
}
