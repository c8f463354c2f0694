/** What each lifecycle operation of the pool does to the two tables and the four in-memory
    structures, as functions on one value. `Faults` says which database calls of the operation succeed. */
module PoolStore {
  import opened Proxies

  const FAILURE_LOCK_THRESHOLD: nat := 3
  const FAILURE_LOCK_DURATION: nat := 6 * HOUR
  const RETRY_BACKOFF: seq<nat> := [30 * MINUTE, 2 * HOUR, 6 * HOUR, 24 * HOUR]

  /** How long a quarantined endpoint waits after its n-th consecutive failure. */
  function RetryBackoff(failures: int): (d: nat)
    ensures 30 * MINUTE <= d <= DAY
    ensures failures >= 4 ==> d == DAY
  {
    var atLeastOne := if failures <= 0 then 1 else failures;
    var step := if atLeastOne > |RETRY_BACKOFF| then |RETRY_BACKOFF| else atLeastOne;
    RETRY_BACKOFF[step - 1]
  }

  /** A row of the `blocked_ips` table. */
  datatype Blocked = Blocked(failures: nat, until: Time)

  /** A cached record and how often it was picked since it entered the pool. */
  datatype Entry = Entry(p: Proxy, n: nat)

  datatype Store = Store(
    rows: map<nat, Proxy>, nextId: nat, blocked: map<string, Blocked>,
    pool: seq<Entry>, index: set<string>,
    locked: map<string, Time>, retryAfter: map<string, Time>)

  /** Whether the lookup, the main write and the last write or reload of one operation succeed. */
  datatype Faults = Faults(read: bool, write: bool, side: bool)

  const RELIABLE := Faults(true, true, true)

  // ---- the list in memory ----

  function DropUris(pool: seq<Entry>, uris: set<string>): (r: seq<Entry>)
    ensures forall e :: e in r <==> e in pool && URI(e.p) !in uris
  {
    if pool == [] then []
    else (if URI(pool[0].p) in uris then [] else [pool[0]]) + DropUris(pool[1..], uris)
  }

  function DropIP(pool: seq<Entry>, ip: string): (r: seq<Entry>)
    ensures forall e :: e in r <==> e in pool && e.p.ip != ip
  {
    if pool == [] then []
    else (if pool[0].p.ip == ip then [] else [pool[0]]) + DropIP(pool[1..], ip)
  }

  function PoolUris(pool: seq<Entry>): (r: set<string>) {
    set e | e in pool :: URI(e.p)
  }

  function PoolIds(pool: seq<Entry>): (r: set<nat>) {
    set e | e in pool :: e.p.id
  }

  ghost predicate Distinct(pool: seq<Entry>) {
    forall i, j :: 0 <= i < j < |pool| ==> pool[i].p.id != pool[j].p.id
  }

  predicate HasUri(pool: seq<Entry>, uri: string) {
    exists i :: 0 <= i < |pool| && URI(pool[i].p) == uri
  }

  /** The position the scans over the list stop at. */
  function FirstUri(pool: seq<Entry>, uri: string): (i: nat)
    requires HasUri(pool, uri)
    ensures i < |pool| && URI(pool[i].p) == uri
    ensures forall j :: 0 <= j < i ==> URI(pool[j].p) != uri
  {
    if URI(pool[0].p) == uri then 0
    else
      assert HasUri(pool[1..], uri) by {
        var k :| 0 <= k < |pool| && URI(pool[k].p) == uri;
        assert pool[1..][k - 1] == pool[k];
      }
      1 + FirstUri(pool[1..], uri)
  }

  // ---- the tables ----

  /** The unique index over (ip, port, protocol). */
  ghost predicate UniqueIndex(rows: map<nat, Proxy>) {
    forall i, j :: i in rows && j in rows && SameEndpoint(rows[i], rows[j]) ==> i == j
  }

  ghost predicate HasEndpoint(rows: map<nat, Proxy>, p: Proxy) {
    exists id :: id in rows && SameEndpoint(rows[id], p)
  }

  ghost function EndpointId(rows: map<nat, Proxy>, p: Proxy): (id: nat)
    requires HasEndpoint(rows, p)
    ensures id in rows && SameEndpoint(rows[id], p)
  {
    var id :| id in rows && SameEndpoint(rows[id], p);
    id
  }

  /** Another row already holds the endpoint, so the unique index refuses the write. */
  ghost predicate Conflicts(rows: map<nat, Proxy>, p: Proxy) {
    exists id :: id in rows && id != p.id && SameEndpoint(rows[id], p)
  }

  /** An insert under the next id when the record has none, otherwise an update or insert under its id. */
  function SavedId(nextId: nat, p: Proxy): (r: nat) {
    if p.id == 0 then nextId else p.id
  }

  function SaveRow(s: Store, row: Proxy): (r: Store) {
    s.(rows := s.rows[row.id := row], nextId := if row.id < s.nextId then s.nextId else row.id + 1)
  }

  // ---- locks ----

  predicate IPLocked(s: Store, ip: string, now: Time) {
    ip in s.locked && now < s.locked[ip]
  }

  /** Looking at an expired lock removes it. */
  function ForgetExpired(s: Store, ip: string, now: Time): (r: Store) {
    if ip in s.locked && now >= s.locked[ip] then s.(locked := s.locked - {ip}) else s
  }

  predicate ValidationDue(s: Store, uri: string, now: Time) {
    uri !in s.retryAfter || now >= s.retryAfter[uri]
  }

  function ForgetDue(s: Store, uri: string, now: Time): (r: Store) {
    if uri in s.retryAfter && now >= s.retryAfter[uri] then s.(retryAfter := s.retryAfter - {uri}) else s
  }

  function ClearFailure(s: Store, ip: string, persisted: bool): (r: Store) {
    s.(locked := s.locked - {ip}, blocked := if persisted then s.blocked - {ip} else s.blocked)
  }

  // ---- lifecycle operations ----

  /** The record a validated candidate is saved as, before it has an id of its own. */
  ghost function Accepted(rows: map<nat, Proxy>, p: Proxy, read: bool): (r: Proxy) {
    var q := p.(protocol := Scheme(p), available := true, consecutiveFailures := 0, nextVerifyAt := Some(ZERO_TIME));
    if read && HasEndpoint(rows, q) then q.(id := EndpointId(rows, q)) else q
  }

  /** `row` is saved, and cached as a new last entry in place of any entry printing the same. */
  function Admit(t: Store, row: Proxy): (r: Store) {
    var u := URI(row);
    SaveRow(t, row).(
      pool := DropUris(t.pool, {u}) + [Entry(row, 0)],
      index := t.index + {u},
      retryAfter := t.retryAfter - {u})
  }

  ghost function Upsert(s: Store, p: Proxy, now: Time, db: Faults): (r: (Store, bool)) {
    if IPLocked(s, p.ip, now) then (s, false)
    else
      var t := ForgetExpired(s, p.ip, now);
      var q := Accepted(t.rows, p, db.read);
      if !db.write || Conflicts(t.rows, q) then (t, false)
      else
        (ClearFailure(Admit(t, q.(id := SavedId(t.nextId, q))), p.ip, db.side), true)
  }

  function Verified(row: Proxy, delay: int, at: Time, deep: bool): (r: Proxy) {
    row.(available := true, consecutiveFailures := 0, delay := delay, lastVerify := at,
         nextVerifyAt := Some(ZERO_TIME), lastDeepVerify := if deep then at else row.lastDeepVerify)
  }

  /** The checked row is stored; its cached record follows in place, or enters the pool anew. */
  function Recheck(t: Store, p: Proxy, delay: int, at: Time, deep: bool, db: Faults): (r: Store)
    requires p.id in t.rows
  {
    var u := URI(p);
    var row := Verified(t.rows[p.id], delay, at, deep);
    var saved := t.(rows := t.rows[p.id := row], retryAfter := t.retryAfter - {u});
    if HasUri(t.pool, u) then
      var i := FirstUri(t.pool, u);
      var e := t.pool[i];
      ClearFailure(saved.(pool := t.pool[i := e.(p := Verified(e.p, delay, at, deep))]), p.ip, db.side)
    else if !db.read then saved
    else
      ClearFailure(saved.(pool := t.pool + [Entry(row, 0)], index := t.index + {u}), p.ip, db.side)
  }

  function VerifySuccess(s: Store, p: Proxy, delay: int, at: Time, deep: bool, now: Time, db: Faults): (r: Store) {
    if IPLocked(s, p.ip, now) then s
    else
      var t := ForgetExpired(s, p.ip, now);
      if !db.write || p.id !in t.rows then t else Recheck(t, p, delay, at, deep, db)
  }

  /** Marks row `id` unavailable until its next retry and takes `uri` out of the pool. */
  function Quarantine(s: Store, id: nat, uri: string, now: Time): (r: Store)
    requires id in s.rows
  {
    var failures := s.rows[id].consecutiveFailures + 1;
    var retryAt := now + RetryBackoff(failures);
    var row := s.rows[id].(available := false, consecutiveFailures := failures, lastVerify := now, nextVerifyAt := Some(retryAt));
    s.(rows := s.rows[id := row],
       retryAfter := s.retryAfter[uri := retryAt],
       pool := DropUris(s.pool, {uri}),
       index := if HasUri(s.pool, uri) then s.index - {uri} else s.index)
  }

  function VerifyFailed(s: Store, p: Proxy, now: Time, db: Faults): (r: (Store, nat)) {
    if !db.read || p.id !in s.rows || !db.write then (s, 0)
    else (Quarantine(s, p.id, URI(p), now), s.rows[p.id].consecutiveFailures + 1)
  }

  function ProxyUnavailable(s: Store, uri: string, now: Time, db: Faults): (r: Store) {
    if !HasUri(s.pool, uri) then s
    else
      var id := s.pool[FirstUri(s.pool, uri)].p.id;
      if id == 0 || !db.read || id !in s.rows || !db.write then s
      else Quarantine(s, id, uri, now)
  }

  function BlockedBefore(s: Store, ip: string, read: bool): (r: Blocked) {
    if read && ip in s.blocked then s.blocked[ip] else Blocked(0, ZERO_TIME)
  }

  function TakeDown(rows: map<nat, Proxy>, ip: string): (r: map<nat, Proxy>)
    ensures r.Keys == rows.Keys
    ensures forall id :: id in rows ==>
      r[id] == if rows[id].ip == ip then rows[id].(available := false) else rows[id]
  {
    map id | id in rows :: if rows[id].ip == ip then rows[id].(available := false) else rows[id]
  }

  /** One more failure of `ip`; from the third on the address is locked and all its endpoints go. */
  function Failure(s: Store, ip: string, now: Time, db: Faults): (r: (Store, bool)) {
    var before := BlockedBefore(s, ip, db.read);
    var failures := before.failures + 1;
    if failures < FAILURE_LOCK_THRESHOLD then
      (s.(blocked := if db.side then s.blocked[ip := before.(failures := failures)] else s.blocked), false)
    else
      var until := now + FAILURE_LOCK_DURATION;
      (s.(locked := s.locked[ip := until],
          rows := if db.write then TakeDown(s.rows, ip) else s.rows,
          pool := DropIP(s.pool, ip),
          index := s.index - (set e | e in s.pool && e.p.ip == ip :: URI(e.p)),
          blocked := if db.side then s.blocked[ip := Blocked(failures, until)] else s.blocked), true)
  }

  /** A pick counts one more use of the entry it hands out, if it does. */
  function UseEntry(s: Store, at: Option<nat>): (r: Store) {
    if at.None? || at.value >= |s.pool| then s
    else
      var e := s.pool[at.value];
      s.(pool := s.pool[at.value := e.(n := e.n + 1)])
  }

  predicate Stale(row: Proxy, threshold: nat, now: Time) {
    ZERO_TIME < row.lastVerify && row.lastVerify as int < now - threshold
  }

  function StaleIds(rows: map<nat, Proxy>, threshold: nat, now: Time): (r: set<nat>) {
    set id | id in rows && Stale(rows[id], threshold, now)
  }

  function Cleanup(s: Store, threshold: nat, now: Time, db: Faults): (r: Store) {
    var stale := StaleIds(s.rows, threshold, now);
    var uris := set id | id in stale :: URI(s.rows[id]);
    if !db.read || stale == {} || !db.write then s
    else s.(rows := s.rows - stale, pool := DropUris(s.pool, uris), index := s.index - (uris * PoolUris(s.pool)))
  }

  // ---- restart ----

  predicate BlockedAt(blocked: map<string, Blocked>, ip: string, now: Time) {
    ip in blocked && now < blocked[ip].until
  }

  /** The rows a new process puts in its pool. */
  function Loadable(rows: map<nat, Proxy>, blocked: map<string, Blocked>, now: Time): (r: set<nat>) {
    set id | id in rows && rows[id].available && !BlockedAt(blocked, rows[id].ip, now)
  }

  function UnexpiredLocks(blocked: map<string, Blocked>, now: Time): (r: map<string, Time>) {
    map ip | ip in blocked && now < blocked[ip].until :: blocked[ip].until
  }

  predicate Delayed(row: Proxy, now: Time) {
    !row.available && now < RetryAt(row)
  }

  /** `s` is a fresh cache over the given tables: built, then told the locked addresses. The order of
      the list is the database's. When two delayed rows print alike, either time may be kept. */
  ghost predicate FreshOver(s: Store, rows: map<nat, Proxy>, nextId: nat, blocked: map<string, Blocked>, now: Time) {
    && s.rows == rows && s.nextId == nextId && s.blocked == blocked
    && (forall e :: e in s.pool ==> e.p.id in rows && e == Entry(rows[e.p.id], 0))
    && PoolIds(s.pool) == Loadable(rows, blocked, now)
    && Distinct(s.pool)
    && s.index == PoolUris(s.pool)
    && s.locked == UnexpiredLocks(blocked, now)
    && s.retryAfter.Keys == (set id | id in rows && Delayed(rows[id], now) :: URI(rows[id]))
    && (forall u :: u in s.retryAfter ==> DelayedAs(rows, u, s.retryAfter[u], now))
  }

  /** Some row printing as `u` is quarantined until `t`, later than `now`. */
  ghost predicate DelayedAs(rows: map<nat, Proxy>, u: string, t: Time, now: Time) {
    exists id :: id in rows && Delayed(rows[id], now) && URI(rows[id]) == u && RetryAt(rows[id]) == t
  }
}
