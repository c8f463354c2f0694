/** The periodic-check queries over the two tables. */
module Maintenance {
  import opened Proxies
  import opened PoolStore

  predicate HealthyAndDue(row: Proxy, now: Time, interval: nat) {
    row.available && row.lastVerify as int < now - interval
  }

  /** A comparison with a missing retry time is never true. */
  predicate QuarantinedAndDue(row: Proxy, now: Time) {
    !row.available && row.nextVerifyAt.Some? && row.nextVerifyAt.value <= now
  }

  /** The columns the query selects: everything but country, source and delay. */
  function Selected(row: Proxy): (r: Proxy) {
    row.(country := "", source := "", delay := 0)
  }

  function UnVerifiedIds(rows: map<nat, Proxy>, blocked: map<string, Blocked>, now: Time, interval: nat): (r: set<nat>) {
    set id | id in rows && (HealthyAndDue(rows[id], now, interval) || QuarantinedAndDue(rows[id], now))
             && !BlockedAt(blocked, rows[id].ip, now)
  }

  function GetUnVerified(rows: map<nat, Proxy>, blocked: map<string, Blocked>, now: Time, interval: nat): (r: set<Proxy>) {
    set id | id in UnVerifiedIds(rows, blocked, now, interval) :: Selected(rows[id])
  }

  /** Counts the rows with the record's id that the query would return. */
  predicate IsUnVerified(rows: map<nat, Proxy>, blocked: map<string, Blocked>, p: Proxy, now: Time, interval: nat) {
    |set id | id in rows && id == p.id && (HealthyAndDue(rows[id], now, interval) || QuarantinedAndDue(rows[id], now))
              && !BlockedAt(blocked, rows[id].ip, now)| > 0
  }

  datatype MaintenanceStats = MaintenanceStats(healthyDue: nat, quarantinedReady: nat, quarantinedWaiting: int)

  function GetMaintenanceStats(rows: map<nat, Proxy>, blocked: map<string, Blocked>, now: Time, interval: nat): (r: MaintenanceStats) {
    var healthy := set id | id in rows && HealthyAndDue(rows[id], now, interval) && !BlockedAt(blocked, rows[id].ip, now);
    var ready := set id | id in rows && QuarantinedAndDue(rows[id], now) && !BlockedAt(blocked, rows[id].ip, now);
    var quarantined := set id | id in rows && !rows[id].available;
    MaintenanceStats(|healthy|, |ready|, |quarantined| - |ready|)
  }

  /** The second query agrees with membership in the first. */
  lemma RefreshAgrees(rows: map<nat, Proxy>, blocked: map<string, Blocked>, p: Proxy, now: Time, interval: nat)
    ensures IsUnVerified(rows, blocked, p, now, interval) <==> p.id in UnVerifiedIds(rows, blocked, now, interval)
  {
    var found := set id | id in rows && id == p.id && (HealthyAndDue(rows[id], now, interval) || QuarantinedAndDue(rows[id], now))
                          && !BlockedAt(blocked, rows[id].ip, now);
    if p.id in UnVerifiedIds(rows, blocked, now, interval) {
      assert p.id in found;
    }
    if |found| > 0 {
      var id :| id in found;
    }
  }

  /** The dashboard's two due counts add up to the list a verification pass gets. */
  lemma DueCountsAddUp(rows: map<nat, Proxy>, blocked: map<string, Blocked>, now: Time, interval: nat)
    requires forall id :: id in rows ==> rows[id].id == id
    ensures var stats := GetMaintenanceStats(rows, blocked, now, interval);
      stats.healthyDue + stats.quarantinedReady == |GetUnVerified(rows, blocked, now, interval)|
  {
    var healthy := set id | id in rows && HealthyAndDue(rows[id], now, interval) && !BlockedAt(blocked, rows[id].ip, now);
    var ready := set id | id in rows && QuarantinedAndDue(rows[id], now) && !BlockedAt(blocked, rows[id].ip, now);
    var due := UnVerifiedIds(rows, blocked, now, interval);
    assert due == healthy + ready && healthy !! ready;
    hide Selected, QuarantinedAndDue, HealthyAndDue, BlockedAt;
    SelectedKeepsCount(rows, due);
  }

  /** The waiting count is the quarantined rows whose delay or lock is not over, or that have no retry time. */
  lemma WaitingCount(rows: map<nat, Proxy>, blocked: map<string, Blocked>, now: Time, interval: nat)
    ensures GetMaintenanceStats(rows, blocked, now, interval).quarantinedWaiting ==
      |set id | id in rows && !rows[id].available && (rows[id].nextVerifyAt.None? || now < RecoversAt(rows[id], blocked))|
  {
    var ready := set id | id in rows && QuarantinedAndDue(rows[id], now) && !BlockedAt(blocked, rows[id].ip, now);
    var waiting := set id | id in rows && !rows[id].available && (rows[id].nextVerifyAt.None? || now < RecoversAt(rows[id], blocked));
    var quarantined := set id | id in rows && !rows[id].available;
    assert quarantined == ready + waiting && ready !! waiting;
  }

  lemma {:induction false} SelectedKeepsCount(rows: map<nat, Proxy>, ids: set<nat>)
    requires ids <= rows.Keys && forall id :: id in rows ==> rows[id].id == id
    ensures |set id | id in ids :: Selected(rows[id])| == |ids|
    decreases |ids|
  {
    var image := set id | id in ids :: Selected(rows[id]);
    if ids != {} {
      var id :| id in ids;
      var rest := set k | k in ids - {id} :: Selected(rows[k]);
      SelectedKeepsCount(rows, ids - {id});
      assert Selected(rows[id]) !in rest;
      assert image == rest + {Selected(rows[id])};
    } else {
      assert image == {};
    }
  }

  /** The earliest time the row can be checked again: its own delay and its address's lock. */
  function RecoversAt(row: Proxy, blocked: map<string, Blocked>): (r: Time) {
    if row.ip in blocked && blocked[row.ip].until > RetryAt(row) then blocked[row.ip].until else RetryAt(row)
  }

  /** A quarantined row is returned exactly from that time on, if it has a retry time at all. */
  lemma DueExactlyFrom(rows: map<nat, Proxy>, blocked: map<string, Blocked>, id: nat, t: Time, interval: nat)
    requires id in rows && !rows[id].available
    ensures id in UnVerifiedIds(rows, blocked, t, interval) <==> rows[id].nextVerifyAt.Some? && t >= RecoversAt(rows[id], blocked)
  {}

  /** An available row is returned exactly while its last check is longer ago than the interval and its address is not
      under an unexpired lock. */
  lemma HealthyDueExactly(rows: map<nat, Proxy>, blocked: map<string, Blocked>, id: nat, t: Time, interval: nat)
    requires id in rows && rows[id].available
    ensures id in UnVerifiedIds(rows, blocked, t, interval) <==>
      t > rows[id].lastVerify + interval && !(rows[id].ip in blocked && t < blocked[rows[id].ip].until)
  {}

  /** The healthy due count is the number of available rows among those returned. */
  lemma HealthyDueCount(rows: map<nat, Proxy>, blocked: map<string, Blocked>, now: Time, interval: nat)
    ensures GetMaintenanceStats(rows, blocked, now, interval).healthyDue ==
      |set id | id in UnVerifiedIds(rows, blocked, now, interval) && rows[id].available|
  {
    var healthy := set id | id in rows && HealthyAndDue(rows[id], now, interval) && !BlockedAt(blocked, rows[id].ip, now);
    assert healthy == set id | id in UnVerifiedIds(rows, blocked, now, interval) && rows[id].available;
  }

  /** A record returned is its row without country, source and delay, which the query does not select. */
  lemma RecordsReturned(rows: map<nat, Proxy>, blocked: map<string, Blocked>, now: Time, interval: nat, p: Proxy)
    ensures p in GetUnVerified(rows, blocked, now, interval) <==>
      exists id :: id in UnVerifiedIds(rows, blocked, now, interval) &&
        p == Proxy(rows[id].id, rows[id].ip, rows[id].port, rows[id].protocol, "", "", 0, rows[id].available,
                   rows[id].lastVerify, rows[id].lastDeepVerify, rows[id].consecutiveFailures, rows[id].nextVerifyAt)
  {
    hide QuarantinedAndDue, HealthyAndDue, BlockedAt;
  }
}
