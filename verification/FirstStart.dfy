/** The first start after a migration: the tables it leaves are good ones, what its own 30-minute delays do to the
    cleanup that runs at start-up, and which of its rows the periodic check loses. */
module FirstStart {
  import opened Proxies
  import opened PoolStore
  import opened PoolView
  import opened PoolPreserved
  import opened PoolRuns
  import opened PoolSafety
  import opened Maintenance
  import Migration

  const MIGRATION_DELAY: nat := 30 * MINUTE
  const STALE_THRESHOLD: nat := 6 * 30 * DAY

  /** A NULL time is read as the zero time. */
  function TimeOf(t: Option<Time>): (r: Time) {
    if t.None? then ZERO_TIME else t.value
  }

  /** The record a table row is read as; columns the migration does not know are free. */
  predicate Reads(p: Proxy, id: nat, r: Migration.Row) {
    && p.id == id && p.ip == r.ip && p.port == r.port && Some(p.protocol) == r.protocol && p.available == r.available
    && p.lastVerify == TimeOf(r.lastVerify) && p.nextVerifyAt == r.nextVerifyAt
  }

  /** The pool store over a table: its rows are those not deleted. */
  ghost predicate Opens(s: Store, table: Migration.Rows) {
    && s.nextId >= 1
    && (forall id :: id in s.rows <==> id in table && !table[id].deleted)
    && (forall id :: id in s.rows ==> 1 <= id < s.nextId && Reads(s.rows[id], id, table[id]))
  }

  /** What legacy rows are assumed to be: colons only in addresses, no available endpoint under an unexpired lock,
      and, where retry times were already kept, none of them ahead of an available row. */
  ghost predicate LegacyOK(rows: Migration.Rows, had: set<Migration.Column>, blocked: map<string, Blocked>, now: Time) {
    forall id :: id in rows ==>
      && ':' !in Migration.NormalProtocol(rows[id]) && ':' !in rows[id].port
      && (Migration.Available !in had || rows[id].available ==> !BlockedAt(blocked, rows[id].ip, now))
      && (Migration.NextVerifyAt in had && (Migration.Available !in had || rows[id].available) ==> TimeOf(rows[id].nextVerifyAt) <= now)
  }

  lemma MigratedRow(rows: Migration.Rows, had: set<Migration.Column>, migratedAt: Time, id: nat)
    requires id in Migration.Migrated(rows, had, migratedAt)
    ensures id in rows && Migration.Migrated(rows, had, migratedAt)[id] == Migration.Upgraded(rows[id], had, migratedAt)
  {
    hide Migration.Survives, Migration.Upgraded;
  }

  lemma MigratedRowsOK(s: Store, rows: Migration.Rows, had: set<Migration.Column>, migratedAt: Time, now: Time)
    requires Opens(s, Migration.Migrated(rows, had, migratedAt)) && LegacyOK(rows, had, s.blocked, now)
    ensures RowsOK(s)
  {
    var table := Migration.Migrated(rows, had, migratedAt);
    Migration.IndexCanBeBuilt(rows, had, migratedAt);
    hide URI, Migration.Migrated;
    forall id | id in s.rows ensures s.rows[id].protocol != "" && WellFormed(s.rows[id]) {
      MigratedRow(rows, had, migratedAt, id);
    }
    forall i, j | i in s.rows && j in s.rows && URI(s.rows[i]) == URI(s.rows[j]) ensures i == j {
      UriInjective(s.rows[i], s.rows[j]);
      assert Migration.Clash(table[i], table[j]);
    }
  }

  /** The tables a migration leaves are good ones, with delays bounded but for those it has just set. */
  lemma MigratedTablesOK(s: Store, rows: Migration.Rows, had: set<Migration.Column>, migratedAt: Time, now: Time)
    requires Opens(s, Migration.Migrated(rows, had, migratedAt)) && LegacyOK(rows, had, s.blocked, now)
    ensures TablesOK(s, now)
    ensures Migration.NextVerifyAt !in had ==> DelaysBounded(s, migratedAt + MIGRATION_DELAY)
  {
    MigratedRowsOK(s, rows, had, migratedAt, now);
    hide RowsOK, Migration.Migrated, Migration.NormalProtocol;
    forall id | id in s.rows
      ensures s.rows[id].available ==> RetryAt(s.rows[id]) <= now && !BlockedAt(s.blocked, s.rows[id].ip, now)
      ensures Migration.NextVerifyAt !in had ==> RetryAt(s.rows[id]) <= migratedAt + MIGRATION_DELAY
    {
      MigratedRow(rows, had, migratedAt, id);
    }
  }

  /** So the process that migrated them starts with an exact view. */
  lemma MigratedStartExact(s: Store, rows: Migration.Rows, had: set<Migration.Column>, migratedAt: Time, now: Time, renewed: Store)
    requires Opens(s, Migration.Migrated(rows, had, migratedAt)) && LegacyOK(rows, had, s.blocked, now)
    requires Restarts(s, now, renewed)
    ensures ExactView(renewed, now)
    ensures Migration.NextVerifyAt !in had ==> DelaysBounded(renewed, migratedAt + MIGRATION_DELAY)
  {
    MigratedTablesOK(s, rows, had, migratedAt, now);
    hide Opens, LegacyOK, TablesOK, Migration.Migrated;
    StartExact(s, now, renewed);
  }

  // ---- the cleanup at start-up ----

  lemma MigratedDelays(s: Store, rows: Migration.Rows, had: set<Migration.Column>, migratedAt: Time)
    requires Opens(s, Migration.Migrated(rows, had, migratedAt)) && Migration.NextVerifyAt !in had
    ensures DelaysBounded(s, migratedAt + MIGRATION_DELAY)
    ensures forall id :: id in s.rows ==>
      s.rows[id].nextVerifyAt == if s.rows[id].available then None else Some(migratedAt + MIGRATION_DELAY)
  {
    forall id | id in s.rows
      ensures s.rows[id].nextVerifyAt == if s.rows[id].available then None else Some(migratedAt + MIGRATION_DELAY)
    {
      MigratedRow(rows, had, migratedAt, id);
    }
    hide Migration.Migrated, Migration.Upgraded;
  }

  /** A live quarantined row last checked longer ago than the stale threshold: the migration delays it, and the
      cleanup of the same start removes it. Its retry time stays behind in memory, so until 30 minutes after the
      migration this process refuses the endpoint as a candidate while one started now would accept it; from then on
      the two agree again. */
  lemma StartupCleanupDisagrees(s: Store, rows: Migration.Rows, had: set<Migration.Column>, migratedAt: Time, clock: Time, now: Time,
                                id: nat, renewed: Store)
    requires Opens(s, Migration.Migrated(rows, had, migratedAt)) && ExactView(s, clock) && clock <= now
    requires Migration.NextVerifyAt !in had && now < migratedAt + MIGRATION_DELAY
    requires id in s.rows && !s.rows[id].available && Stale(s.rows[id], STALE_THRESHOLD, now)
    requires Restarts(Cleanup(s, STALE_THRESHOLD, now, RELIABLE), now, renewed)
    ensures var r := Cleanup(s, STALE_THRESHOLD, now, RELIABLE);
      && LatestForgotten(s, STALE_THRESHOLD, now) == migratedAt + MIGRATION_DELAY
      && ExactBeyond(r, now, migratedAt + MIGRATION_DELAY) && !ExactView(r, now)
      && forall t :: now <= t ==>
           && ValidationDue(renewed, URI(s.rows[id]), t)
           && (ValidationDue(r, URI(s.rows[id]), t) <==> t >= migratedAt + MIGRATION_DELAY)
  {
    MigratedDelays(s, rows, had, migratedAt);
    assert id in StaleIds(s.rows, STALE_THRESHOLD, now) && Delayed(s.rows[id], now);
    hide Opens, Migration.Migrated, Migration.Upgraded, DelaysBounded, ExactView, ExactBeyond, Cleanup, Restarts, ValidationDue, LatestForgotten, URI;
    CleanupForgets(s, clock, now, id, migratedAt + MIGRATION_DELAY);
    GoneRowIsDue(s, clock, now, id, renewed);
  }

  lemma CleanupForgets(s: Store, clock: Time, now: Time, id: nat, latest: Time)
    requires ExactView(s, clock) && clock <= now && DelaysBounded(s, latest)
    requires id in StaleIds(s.rows, STALE_THRESHOLD, now) && Delayed(s.rows[id], now) && RetryAt(s.rows[id]) == latest
    ensures LatestForgotten(s, STALE_THRESHOLD, now) == latest
    ensures var r := Cleanup(s, STALE_THRESHOLD, now, RELIABLE); ExactBeyond(r, now, latest) && !ExactView(r, now)
  {
    LongCleanupForgetsUntil(s, STALE_THRESHOLD, now, latest);
    ForgottenIsLatest(s, STALE_THRESHOLD, now, id, latest);
    LooserView(s, clock, latest);
    hide ForgetsUntil, LatestForgotten, DelaysBounded, PoolExact, RetriesAgree, Cleanup, URI;
    CleanupExact(s, STALE_THRESHOLD, clock, now, latest);
    CleanupExact(s, STALE_THRESHOLD, clock, now, ZERO_TIME);
  }

  lemma LooserView(s: Store, clock: Time, grace: Time)
    requires ExactView(s, clock)
    ensures ExactBeyond(s, clock, grace)
  {
    hide PoolExact, RetriesAgree;
    LooserRetries(s, clock, ZERO_TIME, grace);
  }

  lemma ForgottenIsLatest(s: Store, threshold: nat, now: Time, id: nat, latest: Time)
    requires id in StaleIds(s.rows, threshold, now) && Delayed(s.rows[id], now) && RetryAt(s.rows[id]) == latest
    requires ForgetsUntil(s, threshold, now, latest)
    ensures LatestForgotten(s, threshold, now) == latest
    ensures latest > ZERO_TIME ==> !ForgetsUntil(s, threshold, now, ZERO_TIME)
  {
    var t := LatestForgotten(s, threshold, now);
    assert ForgetsUntil(s, threshold, now, t);
  }

  lemma GoneRowIsDue(s: Store, clock: Time, now: Time, id: nat, renewed: Store)
    requires ExactView(s, clock) && clock <= now
    requires id in StaleIds(s.rows, STALE_THRESHOLD, now) && Delayed(s.rows[id], now)
    requires Restarts(Cleanup(s, STALE_THRESHOLD, now, RELIABLE), now, renewed)
    ensures forall t :: now <= t ==>
      && ValidationDue(renewed, URI(s.rows[id]), t)
      && (ValidationDue(Cleanup(s, STALE_THRESHOLD, now, RELIABLE), URI(s.rows[id]), t) <==> t >= RetryAt(s.rows[id]))
  {
    hide URI, WellFormed, DropUris, PoolUris;
    LaterRetries(s, clock, now, ZERO_TIME);
    var u := URI(s.rows[id]);
    assert u in s.retryAfter && s.retryAfter[u] == RetryAt(s.rows[id]);
    assert u !in renewed.retryAfter;
  }

  const LEGACY_COLUMNS := {Migration.Available, Migration.LastDeepVerify}

  /** A table without retry times, with one quarantined http row not checked for a year. */
  function LegacyTable(now: Time): (rows: Migration.Rows)
    requires now >= 400 * DAY
  {
    map[1 := Migration.Row("192.0.2.1", "80", None, false, false, Some(now - 365 * DAY), None, None)]
  }

  /** The row a migration at `now` makes of it, and the process that opens it. */
  function DelayedRow(now: Time): (row: Proxy)
    requires now >= 400 * DAY
  {
    Proxy(1, "192.0.2.1", "80", "http", "", "", 0, false, now - 365 * DAY, ZERO_TIME, 0, Some(now + MIGRATION_DELAY))
  }

  function FirstProcess(now: Time): (s: Store)
    requires now >= 400 * DAY
  {
    Store(map[1 := DelayedRow(now)], 2, map[], [], {}, map[], map[URI(DelayedRow(now)) := now + MIGRATION_DELAY])
  }

  lemma FirstProcessOpens(now: Time)
    requires now >= 400 * DAY
    ensures Opens(FirstProcess(now), Migration.Migrated(LegacyTable(now), LEGACY_COLUMNS, now))
  {
    Migration.SurvivesMeansFirst(LegacyTable(now), 1);
    hide Migration.Survives, URI;
    assert 1 in Migration.Migrated(LegacyTable(now), LEGACY_COLUMNS, now);
  }

  lemma FirstProcessIsFresh(now: Time)
    requires now >= 400 * DAY
    ensures Restarts(FirstProcess(now), now, FirstProcess(now)) && ExactView(FirstProcess(now), now)
  {
    var s, u := FirstProcess(now), URI(DelayedRow(now));
    assert WellFormed(DelayedRow(now));
    hide URI, WellFormed;
    assert 1 in s.rows && Delayed(s.rows[1], now) && RetryAt(s.rows[1]) == now + MIGRATION_DELAY;
    assert DelayedAs(s.rows, u, now + MIGRATION_DELAY, now);
    assert s.retryAfter.Keys == {u} == (set id | id in s.rows && Delayed(s.rows[id], now) :: URI(s.rows[id]));
    StartExact(s, now, s);
  }

  lemma FirstProcessCleansUp(now: Time, renewed: Store)
    requires now >= 400 * DAY && renewed == Store(map[], 2, map[], [], {}, map[], map[])
    ensures Restarts(Cleanup(FirstProcess(now), STALE_THRESHOLD, now, RELIABLE), now, renewed)
  {
    hide URI;
    assert StaleIds(FirstProcess(now).rows, STALE_THRESHOLD, now) == {1};
  }

  /** One table on which that happens: the cleanup of the first process leaves it refusing an endpoint that the
      process started after it accepts. */
  lemma StartupCleanupExample(now: Time) returns (s: Store, renewed: Store)
    requires now >= 400 * DAY
    ensures Opens(s, Migration.Migrated(LegacyTable(now), LEGACY_COLUMNS, now))
    ensures Restarts(s, now, s) && ExactView(s, now)
    ensures var cleaned := Cleanup(s, STALE_THRESHOLD, now, RELIABLE);
      && Restarts(cleaned, now, renewed)
      && !ValidationDue(cleaned, URI(DelayedRow(now)), now) && ValidationDue(renewed, URI(DelayedRow(now)), now)
  {
    s, renewed := FirstProcess(now), Store(map[], 2, map[], [], {}, map[], map[]);
    FirstProcessOpens(now);
    FirstProcessIsFresh(now);
    FirstProcessCleansUp(now, renewed);
    hide Opens, Migration.Migrated, ExactView, Restarts, URI, ValidationDue, Cleanup;
    StartupCleanupDisagrees(s, LegacyTable(now), LEGACY_COLUMNS, now, now, now, 1, renewed);
  }

  /** A process started on migrated tables whose cleanups spare a day or more keeps pool, index and locks exact from
      the start, and its whole view from 30 minutes after the migration on, through any run. */
  lemma FirstStartSettles(s: Store, rows: Migration.Rows, had: set<Migration.Column>, migratedAt: Time,
                          states: seq<Store>, events: seq<Event>, start: Time, k: nat)
    requires Opens(s, Migration.Migrated(rows, had, migratedAt)) && LegacyOK(rows, had, s.blocked, start)
    requires Migration.NextVerifyAt !in had
    requires IsRun(states, events, start) && Restarts(s, start, states[0]) && LongCleanups(events) && k <= |events|
    ensures PoolExact(states[k], ClockAt(events, start, k))
    ensures migratedAt + MIGRATION_DELAY <= ClockAt(events, start, k) ==> ExactView(states[k], ClockAt(events, start, k))
  {
    MigratedStartExact(s, rows, had, migratedAt, start, states[0]);
    hide Opens, LegacyOK, Migration.Migrated, PoolExact, RetriesAgree, DelaysBounded, Step, LongCleanups;
    LooserRetries(states[0], start, ZERO_TIME, migratedAt + MIGRATION_DELAY);
    LongCleanupsStayExact(states, events, start, k, migratedAt + MIGRATION_DELAY);
  }

  // ---- rows without a retry time ----

  /** A migrated available row has no retry time. If its address is locked before its next check, the lock takes it
      down without one, and the periodic query never returns it again, the lock over or not. */
  lemma LockedBeforeItsCheck(s: Store, rows: Migration.Rows, had: set<Migration.Column>, migratedAt: Time, id: nat,
                             first: Time, second: Time, third: Time)
    requires Opens(s, Migration.Migrated(rows, had, migratedAt)) && Migration.NextVerifyAt !in had
    requires id in s.rows && s.rows[id].available
    ensures
      var ip := s.rows[id].ip;
      var r := Failure(Failure(Failure(s, ip, first, RELIABLE).0, ip, second, RELIABLE).0, ip, third, RELIABLE).0;
      && id in r.rows && !r.rows[id].available
      && forall t, interval :: id !in UnVerifiedIds(r.rows, r.blocked, t, interval)
  {
    MigratedDelays(s, rows, had, migratedAt);
    var ip := s.rows[id].ip;
    var a := Failure(s, ip, first, RELIABLE).0;
    var b := Failure(a, ip, second, RELIABLE).0;
    var r := Failure(b, ip, third, RELIABLE).0;
    FailureLeaves(s, ip, first, id);
    FailureLeaves(a, ip, second, id);
    FailureLeaves(b, ip, third, id);
    hide Failure, Opens, Migration.Migrated;
    forall t: Time, interval ensures id !in UnVerifiedIds(r.rows, r.blocked, t, interval) {
      DueExactlyFrom(r.rows, r.blocked, id, t, interval);
    }
  }

  /** A failure of its address leaves a row its time and address, and its third takes it down. */
  lemma FailureLeaves(s: Store, ip: string, now: Time, id: nat)
    requires id in s.rows && s.rows[id].ip == ip
    ensures var r := Failure(s, ip, now, RELIABLE).0;
      && id in r.rows && r.rows[id].ip == ip && r.rows[id].nextVerifyAt == s.rows[id].nextVerifyAt
      && StoredCount(r, ip) == StoredCount(s, ip) + 1
      && (StoredCount(r, ip) >= 3 || !s.rows[id].available ==> !r.rows[id].available)
  {
    hide URI, DropIP;
  }
}
