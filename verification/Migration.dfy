/** The start-up migration of a legacy `proxies` table: duplicate endpoints removed, protocols filled in,
    retry and deep-check times seeded. */
module Migration {
  import opened Proxies

  /** A legacy row. `protocol`, `lastVerify` and the columns a release added later may be NULL. */
  datatype Row = Row(ip: string, port: string, protocol: Option<string>, deleted: bool, available: bool,
                     lastVerify: Option<Time>, lastDeepVerify: Option<Time>, nextVerifyAt: Option<Time>)

  datatype Column = Available | NextVerifyAt | LastDeepVerify

  type Rows = map<nat, Row>

  // ---- duplicates ----

  function NormalProtocol(r: Row): (result: string) {
    if r.protocol.None? || r.protocol.value == "" then "http" else r.protocol.value
  }

  /** Rows of the same endpoint, an empty or missing protocol standing for http. */
  predicate SameClass(a: Row, b: Row) {
    a.ip == b.ip && a.port == b.port && NormalProtocol(a) == NormalProtocol(b)
  }

  /** The order within a class: rows not deleted first, then the higher id. */
  predicate Precedes(rows: Rows, a: nat, b: nat)
    requires a in rows && b in rows
  {
    if rows[a].deleted != rows[b].deleted then !rows[a].deleted else a > b
  }

  function Preceding(rows: Rows, id: nat): (r: set<nat>)
    requires id in rows
  {
    set o | o in rows && SameClass(rows[o], rows[id]) && Precedes(rows, o, id)
  }

  /** Row number within the class. */
  function RowNumber(rows: Rows, id: nat): (r: nat)
    requires id in rows
  {
    |Preceding(rows, id)| + 1
  }

  predicate Survives(rows: Rows, id: nat) {
    id in rows && RowNumber(rows, id) == 1
  }

  // ---- the transformation ----

  /** What becomes of a surviving row, given which columns were there before. */
  function Upgraded(r: Row, had: set<Column>, now: Time): (result: Row) {
    var available := Available !in had || r.available;
    r.(protocol := Some(NormalProtocol(r)),
       available := available,
       nextVerifyAt := if NextVerifyAt in had then r.nextVerifyAt
                       else if !r.deleted && !available then Some(now + 30 * MINUTE) else None,
       lastDeepVerify := if LastDeepVerify in had then r.lastDeepVerify
                         else if !r.deleted && r.lastVerify.Some? && r.lastVerify.value > ZERO_TIME then r.lastVerify else None)
  }

  function Migrated(rows: Rows, had: set<Column>, now: Time): (r: Rows) {
    map id | id in rows && Survives(rows, id) :: Upgraded(rows[id], had, now)
  }

  // ---- what survives ----

  lemma SurvivesMeansFirst(rows: Rows, id: nat)
    requires id in rows
    ensures Survives(rows, id) <==>
      forall o :: o in rows && o != id && SameClass(rows[o], rows[id]) ==> Precedes(rows, id, o)
  {
    hide SameClass;
    var p := Preceding(rows, id);
    if Survives(rows, id) {
      forall o | o in rows && o != id && SameClass(rows[o], rows[id]) ensures Precedes(rows, id, o) {
        assert o !in p;
      }
    } else {
      assert p != {};
      var o :| o in p;
    }
  }

  /** The first row of a nonempty set of rows. */
  lemma {:induction false} FirstOf(rows: Rows, ids: set<nat>) returns (first: nat)
    requires ids != {} && ids <= rows.Keys
    ensures first in ids && forall o :: o in ids && o != first ==> Precedes(rows, first, o)
  {
    var id :| id in ids;
    var rest := ids - {id};
    if rest == {} {
      first := id;
      assert forall o :: o in ids ==> o == id || o in rest;
    } else {
      var f := FirstOf(rows, rest);
      first := if Precedes(rows, f, id) then f else id;
      forall o | o in ids && o != first ensures Precedes(rows, first, o) {
        assert o == id || o in rest;
      }
    }
  }

  function Class(rows: Rows, r: Row): (result: set<nat>) {
    set o | o in rows && SameClass(rows[o], r)
  }

  lemma ClassHasSurvivor(rows: Rows, id: nat) returns (first: nat)
    requires id in rows
    ensures first in rows && Survives(rows, first) && SameClass(rows[first], rows[id])
  {
    hide Survives, Precedes;
    assert id in Class(rows, rows[id]);
    first := FirstOf(rows, Class(rows, rows[id]));
    forall o | o in rows && o != first && SameClass(rows[o], rows[first]) ensures Precedes(rows, first, o) {
      assert o in Class(rows, rows[id]);
    }
    SurvivesMeansFirst(rows, first);
  }

  lemma SurvivorsDiffer(rows: Rows, a: nat, b: nat)
    requires Survives(rows, a) && Survives(rows, b) && SameClass(rows[a], rows[b])
    ensures a == b
  {
    assert a in rows && b in rows;
    hide Survives, SameClass, NormalProtocol;
    SurvivesMeansFirst(rows, a);
    SurvivesMeansFirst(rows, b);
    SameClassIsSymmetric(rows[a], rows[b]);
  }

  lemma SameClassIsSymmetric(a: Row, b: Row)
    ensures SameClass(a, b) == SameClass(b, a)
  {}

  /** Exactly one row is left of every endpoint there was, and none of any other. */
  lemma OneRowPerEndpoint(rows: Rows, had: set<Column>, now: Time, id: nat)
    requires id in rows
    ensures var m := Migrated(rows, had, now);
      && (exists kept :: kept in m && SameClass(m[kept], rows[id]))
      && (forall a, b :: a in m && b in m && SameClass(m[a], rows[id]) && SameClass(m[b], rows[id]) ==> a == b)
      && m.Keys <= rows.Keys && (forall o :: o in m ==> SameClass(m[o], rows[o]))
      && exists kept :: kept in m && m[kept].ip == rows[id].ip && m[kept].port == rows[id].port
           && m[kept].protocol == if rows[id].protocol.None? || rows[id].protocol == Some("") then Some("http") else rows[id].protocol
  {
    hide Survives;
    var m := Migrated(rows, had, now);
    var first := ClassHasSurvivor(rows, id);
    assert first in m && SameClass(m[first], rows[id]);
    forall a, b | a in m && b in m && SameClass(m[a], rows[id]) && SameClass(m[b], rows[id]) ensures a == b {
      SurvivorsDiffer(rows, a, b);
    }
  }

  /** The row left is live exactly when some row of its endpoint was, and has the highest id of that status. */
  lemma SurvivorIsNewestLive(rows: Rows, had: set<Column>, now: Time, kept: nat)
    requires kept in Migrated(rows, had, now)
    ensures var m := Migrated(rows, had, now);
      && (!m[kept].deleted <==> exists o :: o in rows && SameClass(rows[o], rows[kept]) && !rows[o].deleted)
      && (forall o :: o in rows && SameClass(rows[o], rows[kept]) && rows[o].deleted == m[kept].deleted ==> o <= kept)
  {
    hide Survives, SameClass, NormalProtocol;
    SurvivesMeansFirst(rows, kept);
    SameClassItself(rows[kept]);
  }

  lemma SameClassItself(a: Row)
    ensures SameClass(a, a)
  {}

  // ---- the unique index ----

  /** The unique index on address, port and protocol refuses two such rows. */
  predicate Clash(a: Row, b: Row) {
    a.ip == b.ip && a.port == b.port && a.protocol == b.protocol && a.protocol.Some?
  }

  ghost predicate IndexHolds(rows: Rows) {
    forall a, b :: a in rows && b in rows && a != b ==> !Clash(rows[a], rows[b])
  }

  ghost predicate Normalized(rows: Rows) {
    forall id :: id in rows ==> rows[id].protocol.Some? && rows[id].protocol.value != ""
  }

  /** After the migration every protocol is present and the endpoint index can be built. */
  lemma IndexCanBeBuilt(rows: Rows, had: set<Column>, now: Time)
    ensures Normalized(Migrated(rows, had, now)) && IndexHolds(Migrated(rows, had, now))
  {
    hide Survives;
    var m := Migrated(rows, had, now);
    forall a, b | a in m && b in m && a != b ensures !Clash(m[a], m[b]) {
      if Clash(m[a], m[b]) { SurvivorsDiffer(rows, a, b); }
    }
  }

  /** Where the index holds on present protocols, nothing is a duplicate. */
  lemma NothingToRemove(rows: Rows, id: nat)
    requires Normalized(rows) && IndexHolds(rows) && id in rows
    ensures Survives(rows, id)
  {
    hide Survives;
    SurvivesMeansFirst(rows, id);
  }

  const ALL_COLUMNS: set<Column> := {Available, NextVerifyAt, LastDeepVerify}

  /** A second migration, on the columns the first one left, changes no row. */
  lemma SecondRunChangesNothing(rows: Rows, had: set<Column>, now: Time, later: Time)
    ensures Migrated(Migrated(rows, had, now), ALL_COLUMNS, later) == Migrated(rows, had, now)
  {
    var m := Migrated(rows, had, now);
    IndexCanBeBuilt(rows, had, now);
    hide Migrated, Survives, IndexHolds;
    forall id | id in m ensures Survives(m, id) && Upgraded(m[id], ALL_COLUMNS, later) == m[id] {
      NothingToRemove(m, id);
      assert m[id].protocol.value != "";
    }
    MigratedIs(m, later);
  }

  lemma MigratedIs(m: Rows, later: Time)
    requires forall id :: id in m ==> Survives(m, id) && Upgraded(m[id], ALL_COLUMNS, later) == m[id]
    ensures Migrated(m, ALL_COLUMNS, later) == m
  {
    hide Survives, Upgraded;
  }

  // ---- the object ----

  /** A table with the endpoint columns, in one transaction. */
  class Database {
    var rows: Rows
    var columns: set<Column>

    constructor (rows: Rows, columns: set<Column>)
      ensures this.rows == rows && this.columns == columns
    {
      this.rows, this.columns := rows, columns;
    }

    /** Runs all steps. Building the index never fails. */
    method MigrateDB(now: Time)
      modifies this
      ensures rows == Migrated(old(rows), old(columns), now)
      ensures columns == ALL_COLUMNS
    {
      hide Survives, WithAvailable, Deduplicated, WithProtocols, WithColumns, WithSchedule, WithDeepVerify, Migrated;
      var hadNextVerifyAt := NextVerifyAt in columns;
      var hadLastDeepVerify := LastDeepVerify in columns;
      if Available !in columns {
        AddAvailable();
      }
      assert columns == old(columns) + {Available};
      DeleteDuplicates();
      NormalizeProtocols();
      AutoMigrate();
      if !hadNextVerifyAt {
        ScheduleQuarantined(now);
      }
      if !hadLastDeepVerify {
        SeedDeepVerify();
      }
      StepsAreMigrated(old(rows), old(columns), now);
    }

    method AddAvailable()
      modifies this
      ensures rows == WithAvailable(old(rows)) && columns == old(columns) + {Available}
    {
      rows := map id | id in rows :: rows[id].(available := true);
      columns := columns + {Available};
    }

    method DeleteDuplicates()
      modifies this`rows
      ensures rows == Deduplicated(old(rows))
    {
      rows := map id | id in rows && RowNumber(rows, id) <= 1 :: rows[id];
    }

    method NormalizeProtocols()
      modifies this`rows
      ensures rows == WithProtocols(old(rows))
    {
      rows := map id | id in rows ::
        if rows[id].protocol == Some("") || rows[id].protocol.None? then rows[id].(protocol := Some("http")) else rows[id];
    }

    /** Adds the missing columns, NULL in existing rows. */
    method AutoMigrate()
      modifies this
      ensures rows == WithColumns(old(rows), old(columns)) && columns == ALL_COLUMNS
    {
      rows := map id | id in rows ::
        rows[id].(nextVerifyAt := if NextVerifyAt in columns then rows[id].nextVerifyAt else None,
                  lastDeepVerify := if LastDeepVerify in columns then rows[id].lastDeepVerify else None);
      columns := ALL_COLUMNS;
    }

    method ScheduleQuarantined(now: Time)
      modifies this`rows
      ensures rows == WithSchedule(old(rows), now)
    {
      rows := map id | id in rows ::
        if !rows[id].deleted && !rows[id].available then rows[id].(nextVerifyAt := Some(now + 30 * MINUTE)) else rows[id];
    }

    method SeedDeepVerify()
      modifies this`rows
      ensures rows == WithDeepVerify(old(rows))
    {
      rows := map id | id in rows ::
        if !rows[id].deleted && rows[id].lastVerify.Some? && rows[id].lastVerify.value > ZERO_TIME
        then rows[id].(lastDeepVerify := rows[id].lastVerify) else rows[id];
    }
  }

  function WithAvailable(rows: Rows): (r: Rows) {
    map id | id in rows :: rows[id].(available := true)
  }

  function Deduplicated(rows: Rows): (r: Rows) {
    map id | id in rows && Survives(rows, id) :: rows[id]
  }

  function WithProtocols(rows: Rows): (r: Rows) {
    map id | id in rows :: rows[id].(protocol := Some(NormalProtocol(rows[id])))
  }

  function WithColumns(rows: Rows, had: set<Column>): (r: Rows) {
    map id | id in rows ::
      rows[id].(nextVerifyAt := if NextVerifyAt in had then rows[id].nextVerifyAt else None,
                lastDeepVerify := if LastDeepVerify in had then rows[id].lastDeepVerify else None)
  }

  function WithSchedule(rows: Rows, now: Time): (r: Rows) {
    map id | id in rows ::
      if !rows[id].deleted && !rows[id].available then rows[id].(nextVerifyAt := Some(now + 30 * MINUTE)) else rows[id]
  }

  function WithDeepVerify(rows: Rows): (r: Rows) {
    map id | id in rows ::
      if !rows[id].deleted && rows[id].lastVerify.Some? && rows[id].lastVerify.value > ZERO_TIME
      then rows[id].(lastDeepVerify := rows[id].lastVerify) else rows[id]
  }

  /** Availability plays no part in which row survives. */
  lemma AvailabilityIsIrrelevant(rows: Rows, id: nat)
    ensures Survives(WithAvailable(rows), id) == Survives(rows, id)
  {
    if id in rows {
      assert Preceding(WithAvailable(rows), id) == Preceding(rows, id);
    }
  }

  function Prepared(rows: Rows, had: set<Column>): (r: Rows) {
    WithColumns(WithProtocols(Deduplicated(if Available in had then rows else WithAvailable(rows))), had + {Available})
  }

  function Seeded(rows: Rows, had: set<Column>, now: Time): (r: Rows) {
    var scheduled := if NextVerifyAt in had then rows else WithSchedule(rows, now);
    if LastDeepVerify in had then scheduled else WithDeepVerify(scheduled)
  }

  function PreparedRow(r: Row, had: set<Column>): (result: Row) {
    r.(protocol := Some(NormalProtocol(r)), available := Available !in had || r.available,
       nextVerifyAt := if NextVerifyAt in had then r.nextVerifyAt else None,
       lastDeepVerify := if LastDeepVerify in had then r.lastDeepVerify else None)
  }

  lemma ColumnsIs(rows: Rows, had: set<Column>)
    ensures WithColumns(WithProtocols(rows), had + {Available}) ==
      map id | id in rows :: PreparedRow(rows[id], had + {Available})
  {
    hide NormalProtocol;
  }

  lemma DeduplicatedIs(rows: Rows, had: set<Column>)
    ensures Deduplicated(if Available in had then rows else WithAvailable(rows)) ==
      map id | id in rows && Survives(rows, id) :: rows[id].(available := Available !in had || rows[id].available)
  {
    forall id ensures Survives(WithAvailable(rows), id) == Survives(rows, id) {
      AvailabilityIsIrrelevant(rows, id);
    }
    hide Survives;
  }

  lemma PreparedIs(rows: Rows, had: set<Column>)
    ensures Prepared(rows, had) == map id | id in rows && Survives(rows, id) :: PreparedRow(rows[id], had)
  {
    hide Survives, Deduplicated, WithProtocols, WithColumns, NormalProtocol, WithAvailable;
    DeduplicatedIs(rows, had);
    ColumnsIs(Deduplicated(if Available in had then rows else WithAvailable(rows)), had);
    forall id | id in rows
      ensures PreparedRow(rows[id].(available := Available !in had || rows[id].available), had + {Available})
        == PreparedRow(rows[id], had)
    {
      SameProtocol(rows[id], Available !in had || rows[id].available);
    }
  }

  lemma SameProtocol(r: Row, available: bool)
    ensures NormalProtocol(r.(available := available)) == NormalProtocol(r)
  {}

  function SeededRow(r: Row, had: set<Column>, now: Time): (result: Row) {
    r.(nextVerifyAt := if NextVerifyAt !in had && !r.deleted && !r.available then Some(now + 30 * MINUTE) else r.nextVerifyAt,
       lastDeepVerify := if LastDeepVerify !in had && !r.deleted && r.lastVerify.Some? && r.lastVerify.value > ZERO_TIME
                         then r.lastVerify else r.lastDeepVerify)
  }

  lemma SeededIs(rows: Rows, had: set<Column>, now: Time)
    ensures Seeded(rows, had, now) == map id | id in rows :: SeededRow(rows[id], had, now)
  {}

  lemma RowIsUpgraded(r: Row, had: set<Column>, now: Time)
    ensures SeededRow(PreparedRow(r, had), had, now) == Upgraded(r, had, now)
  {}

  /** The steps one after the other come to the row-by-row transformation. */
  lemma StepsAreMigrated(rows: Rows, had: set<Column>, now: Time)
    ensures Seeded(Prepared(rows, had), had, now) == Migrated(rows, had, now)
  {
    hide Survives, SeededRow, PreparedRow, Upgraded, Seeded, Prepared;
    PreparedIs(rows, had);
    SeededIs(Prepared(rows, had), had, now);
    forall id | id in rows ensures SeededRow(PreparedRow(rows[id], had), had, now) == Upgraded(rows[id], had, now) {
      RowIsUpgraded(rows[id], had, now);
    }
  }

  // ---- what the rows left say ----

  /** A row that is left keeps its address, port, check time and whether it was deleted; an empty or missing protocol is
      now http. A column that was there keeps its values. Of new ones: every row starts available; a live unavailable row
      is to be retried 30 minutes later; and a live row that was ever checked was checked deeply then. */
  lemma MigratedRowsSay(rows: Rows, had: set<Column>, now: Time, id: nat)
    requires id in Migrated(rows, had, now)
    ensures id in rows
    ensures var r, m := rows[id], Migrated(rows, had, now)[id];
      && m.ip == r.ip && m.port == r.port && m.lastVerify == r.lastVerify && m.deleted == r.deleted
      && m.protocol == (if r.protocol.None? || r.protocol == Some("") then Some("http") else r.protocol)
      && m.available == (Available in had ==> r.available)
      && (NextVerifyAt in had ==> m.nextVerifyAt == r.nextVerifyAt)
      && (NextVerifyAt !in had ==>
            m.nextVerifyAt == if r.deleted || m.available then None else Some(now + 1_800_000_000_000))
      && (LastDeepVerify in had ==> m.lastDeepVerify == r.lastDeepVerify)
      && (LastDeepVerify !in had ==>
            m.lastDeepVerify == if r.deleted || r.lastVerify in {None, Some(0)} then None else r.lastVerify)
  {
    hide Survives;
  }
}
