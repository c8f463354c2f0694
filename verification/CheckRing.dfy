/** Checks of the last sixty minutes: a ring of minute buckets that a late record may wipe, and exactly when
    it still tells the log. */
module CheckRing {
  import opened EventSums

  const MINUTES: nat := 60

  datatype Kind = RoutineSuccess | RoutineFailure | CandidateSuccess | CandidateFailure

  datatype Check = Check(minute: nat, kind: Kind)

  datatype Stats = Stats(routineSuccess: nat, routineFailure: nat, candidateSuccess: nat, candidateFailure: nat)

  datatype CheckMinute = CheckMinute(minute: nat, counts: Stats)

  const NONE := Stats(0, 0, 0, 0)

  function Of(s: Stats, kind: Kind): (r: nat) {
    match kind
    case RoutineSuccess => s.routineSuccess
    case RoutineFailure => s.routineFailure
    case CandidateSuccess => s.candidateSuccess
    case CandidateFailure => s.candidateFailure
  }

  function Counted(s: Stats, kind: Kind): (r: Stats)
    ensures forall k :: Of(r, k) == Of(s, k) + (if k == kind then 1 else 0)
  {
    match kind
    case RoutineSuccess => s.(routineSuccess := s.routineSuccess + 1)
    case RoutineFailure => s.(routineFailure := s.routineFailure + 1)
    case CandidateSuccess => s.(candidateSuccess := s.candidateSuccess + 1)
    case CandidateFailure => s.(candidateFailure := s.candidateFailure + 1)
  }

  function Plus(s: Stats, t: Stats): (r: Stats)
    ensures forall k :: Of(r, k) == Of(s, k) + Of(t, k)
  {
    Stats(s.routineSuccess + t.routineSuccess, s.routineFailure + t.routineFailure,
          s.candidateSuccess + t.candidateSuccess, s.candidateFailure + t.candidateFailure)
  }

  /** A record restarts its slot's bucket whenever the bucket is of another minute, even of a later one. */
  function Recorded(ring: seq<CheckMinute>, c: Check): (r: seq<CheckMinute>)
    requires |ring| == MINUTES
  {
    var b := ring[c.minute % MINUTES];
    var kept := if b.minute != c.minute then CheckMinute(c.minute, NONE) else b;
    ring[c.minute % MINUTES := kept.(counts := Counted(kept.counts, c.kind))]
  }

  function Ring(log: seq<Check>): (ring: seq<CheckMinute>)
    ensures |ring| == MINUTES
  {
    if log == [] then seq(MINUTES, i => CheckMinute(0, NONE)) else Recorded(Ring(log[..|log| - 1]), log[|log| - 1])
  }

  /** The latest minute recorded. */
  function Latest(log: seq<Check>): (m: nat)
    ensures forall c :: c in log ==> c.minute <= m
    ensures m == 0 || exists c :: c in log && c.minute == m
  {
    if log == [] then 0
    else
      var before, last := Latest(log[..|log| - 1]), log[|log| - 1];
      assert forall c :: c in log <==> c in log[..|log| - 1] || c == last;
      if last.minute > before then last.minute else before
  }

  // ---- the log ----

  predicate InWindow(minute: nat, now: nat) {
    now < minute + MINUTES && minute <= now
  }

  function ChecksInWindow(log: seq<Check>, now: nat, kind: Kind): (r: nat) {
    SumOf(log, (c: Check) => if c.minute <= now < c.minute + 60 && c.kind == kind then 1 else 0)
  }

  /** All checks of a kind ever recorded. */
  function ChecksOf(log: seq<Check>, kind: Kind): (r: nat) {
    SumOf(log, (c: Check) => if c.kind == kind then 1 else 0)
  }

  function ChecksAt(log: seq<Check>, minute: nat, kind: Kind): (r: nat) {
    SumOf(log, (c: Check) => if c.minute == minute && c.kind == kind then 1 else 0)
  }

  function ChecksInSlots(log: seq<Check>, now: nat, kind: Kind, k: nat): (r: nat) {
    SumOf(log, (c: Check) => if InWindow(c.minute, now) && c.minute % MINUTES < k && c.kind == kind then 1 else 0)
  }

  // ---- exactness ----

  /** Within sixty minutes of `latest`, a bucket holds exactly what the log has in its slot. */
  ghost predicate SlotExact(b: CheckMinute, i: nat, log: seq<Check>, latest: nat) {
    && b.minute <= latest
    && (forall c :: c in log && c.minute % MINUTES == i && latest < c.minute + MINUTES ==> c.minute == b.minute)
    && (b.minute % MINUTES != i ==> b == CheckMinute(0, NONE))
    && (b.minute % MINUTES == i && latest < b.minute + MINUTES ==>
          forall k :: Of(b.counts, k) == ChecksAt(log, b.minute, k))
    && (b.minute > 0 ==> exists c :: c in log && c.minute == b.minute)
  }

  ghost predicate Exact(ring: seq<CheckMinute>, log: seq<Check>, latest: nat) {
    |ring| == MINUTES && forall i :: 0 <= i < MINUTES ==> SlotExact(ring[i], i, log, latest)
  }

  /** The record would wipe a bucket that is still within the hour: the one it finds is newer than it. */
  predicate Wipes(ring: seq<CheckMinute>, c: Check, latest: nat)
    requires |ring| == MINUTES
  {
    ring[c.minute % MINUTES].minute > c.minute && latest < ring[c.minute % MINUTES].minute + MINUTES
  }

  /** Record j came later to the slot of record i, which is of a newer minute and within the hour up to `latest`. */
  predicate Overtaken(log: seq<Check>, i: nat, j: nat, latest: nat) {
    && i < j < |log| && log[j].minute % MINUTES == log[i].minute % MINUTES
    && log[j].minute < log[i].minute && latest < log[i].minute + MINUTES
  }

  ghost predicate NoneOvertaken(log: seq<Check>, latest: nat) {
    forall i: nat, j: nat :: !Overtaken(log, i, j, latest)
  }

  lemma AddedAt(log: seq<Check>, c: Check, minute: nat, k: Kind)
    ensures ChecksAt(log + [c], minute, k) == ChecksAt(log, minute, k) + (if c.minute == minute && c.kind == k then 1 else 0)
  {
    hide SumOf;
    SumOfOneMore(log, c, (x: Check) => if x.minute == minute && x.kind == k then 1 else 0);
  }

  lemma NothingAt(log: seq<Check>, minute: nat, k: Kind)
    requires forall c :: c in log ==> c.minute != minute
    ensures ChecksAt(log, minute, k) == 0
  {
    hide SumOf;
    SumIsZero(log, (x: Check) => if x.minute == minute && x.kind == k then 1 else 0);
  }

  lemma LatestAfter(log: seq<Check>, c: Check)
    ensures Latest(log + [c]) == if c.minute > Latest(log) then c.minute else Latest(log)
  {
    assert (log + [c])[..|log|] == log;
  }

  lemma OtherSlot(b: CheckMinute, i: nat, log: seq<Check>, c: Check, latest: nat)
    requires SlotExact(b, i, log, latest) && i < MINUTES && c.minute % MINUTES != i
    ensures SlotExact(b, i, log + [c], latest)
  {
    hide SumOf, ChecksAt, Latest;
    forall k ensures ChecksAt(log + [c], b.minute, k)
      == ChecksAt(log, b.minute, k) + (if c.minute == b.minute && c.kind == k then 1 else 0)
    {
      AddedAt(log, c, b.minute, k);
    }
    assert b.minute > 0 ==> exists x :: x in log && x.minute == b.minute;
    assert forall x :: x in log ==> x in log + [c];
  }

  lemma OfNone(kind: Kind)
    ensures Of(NONE, kind) == 0
  {}

  lemma AnHourApart(a: nat, b: nat)
    requires a % MINUTES == b % MINUTES && a < b
    ensures a + MINUTES <= b
  {}

  lemma OwnSlot(ring: seq<CheckMinute>, log: seq<Check>, c: Check, latest: nat)
    requires |ring| == MINUTES && SlotExact(ring[c.minute % MINUTES], c.minute % MINUTES, log, latest)
    requires c.minute <= latest && !Wipes(ring, c, latest)
    ensures SlotExact(Recorded(ring, c)[c.minute % MINUTES], c.minute % MINUTES, log + [c], latest)
  {
    hide SumOf, ChecksAt, Of;
    var i := c.minute % MINUTES;
    var b, after := ring[i], Recorded(ring, c)[i];
    if b.minute % MINUTES == i && b.minute < c.minute { AnHourApart(b.minute, c.minute); }
    if b.minute % MINUTES == i && b.minute > c.minute { AnHourApart(c.minute, b.minute); }
    forall x | x in log + [c] && x.minute % MINUTES == i && latest < x.minute + MINUTES
      ensures x.minute == c.minute
    {
    }
    if latest < c.minute + MINUTES {
      forall k ensures Of(after.counts, k) == ChecksAt(log + [c], c.minute, k) {
        AddedAt(log, c, c.minute, k);
        OfNone(k);
        if b.minute != c.minute { NothingAt(log, c.minute, k); }
      }
    }
    assert c in log + [c];
  }

  /** A record that wipes nothing of the hour keeps the ring exact. */
  lemma RecordKeepsExact(ring: seq<CheckMinute>, log: seq<Check>, c: Check, latest: nat)
    requires Exact(ring, log, latest) && c.minute <= latest && !Wipes(ring, c, latest)
    ensures Exact(Recorded(ring, c), log + [c], latest)
  {
    hide SumOf, SlotExact, Wipes;
    forall i | 0 <= i < MINUTES ensures SlotExact(Recorded(ring, c)[i], i, log + [c], latest) {
      if i == c.minute % MINUTES { OwnSlot(ring, log, c, latest); } else { OtherSlot(ring[i], i, log, c, latest); }
    }
  }

  lemma EmptyIsExact(latest: nat)
    ensures Exact(Ring([]), [], latest)
  {
    hide SumOf;
    forall k ensures ChecksAt([], 0, k) == 0 {
      NothingAt([], 0, k);
    }
  }

  /** What a record wipes is a record it overtakes. */
  lemma WipesOvertakes(ring: seq<CheckMinute>, log: seq<Check>, c: Check, latest: nat) returns (i: nat)
    requires Exact(ring, log, latest) && |ring| == MINUTES && Wipes(ring, c, latest)
    ensures i < |log| && Overtaken(log + [c], i, |log|, latest)
  {
    hide Of, ChecksAt;
    var b := ring[c.minute % MINUTES];
    assert SlotExact(b, c.minute % MINUTES, log, latest);
    var x :| x in log && x.minute == b.minute;
    i :| 0 <= i < |log| && log[i] == x;
  }

  lemma OvertakenBefore(log: seq<Check>, c: Check, latest: nat)
    requires NoneOvertaken(log + [c], latest)
    ensures NoneOvertaken(log, latest)
  {
    forall i: nat, j: nat ensures !Overtaken(log, i, j, latest) {
      assert !Overtaken(log + [c], i, j, latest);
    }
  }

  /** With no record of the hour overtaken, the ring is exact. */
  lemma {:induction false} UnovertakenIsExact(log: seq<Check>, latest: nat)
    requires NoneOvertaken(log, latest) && forall c :: c in log ==> c.minute <= latest
    ensures Exact(Ring(log), log, latest)
  {
    hide SumOf, NoneOvertaken, Exact, Wipes, Recorded, Overtaken;
    if log == [] {
      EmptyIsExact(latest);
    } else {
      var before, c := log[..|log| - 1], log[|log| - 1];
      assert log == before + [c];
      OvertakenBefore(before, c, latest);
      UnovertakenIsExact(before, latest);
      if Wipes(Ring(before), c, latest) {
        var i := WipesOvertakes(Ring(before), before, c, latest);
        NotOvertaken(log, i, |before|, latest);
      }
      RecordKeepsExact(Ring(before), before, c, latest);
    }
  }

  lemma NotOvertaken(log: seq<Check>, i: nat, j: nat, latest: nat)
    requires NoneOvertaken(log, latest)
    ensures !Overtaken(log, i, j, latest)
  {}

  // ---- the snapshot ----

  function SnapshotOf(ring: seq<CheckMinute>, now: nat, k: nat): (r: Stats)
    requires k <= |ring|
  {
    if k == 0 then NONE
    else
      var s, b := SnapshotOf(ring, now, k - 1), ring[k - 1];
      if InWindow(b.minute, now) then Plus(s, b.counts) else s
  }

  lemma SlotInWindow(b: CheckMinute, k: nat, log: seq<Check>, now: nat, kind: Kind)
    requires k < MINUTES && SlotExact(b, k, log, now)
    ensures ChecksInSlots(log, now, kind, k + 1)
      == ChecksInSlots(log, now, kind, k) + (if InWindow(b.minute, now) then Of(b.counts, kind) else 0)
  {
    hide SumOf, Of, ChecksAt;
    var here := b.minute % MINUTES == k && InWindow(b.minute, now);
    forall c | c in log && c.minute % MINUTES == k && InWindow(c.minute, now) ensures here && c.minute == b.minute {
    }
    SplitSlot(b.minute, k, log, now, kind, here);
    Gathered(log, b.minute, kind, here);
    if !here && InWindow(b.minute, now) {
      OfNone(kind);
    }
  }

  lemma SlotsApart(log: seq<Check>, now: nat, kind: Kind, k: nat)
    ensures ChecksInSlots(log, now, kind, k + 1) == ChecksInSlots(log, now, kind, k)
      + SumOf(log, (c: Check) => if InWindow(c.minute, now) && c.minute % MINUTES == k && c.kind == kind then 1 else 0)
  {
    hide SumOf;
    SumsAdd(log, (c: Check) => if InWindow(c.minute, now) && c.minute % MINUTES < k + 1 && c.kind == kind then 1 else 0,
            (c: Check) => if InWindow(c.minute, now) && c.minute % MINUTES < k && c.kind == kind then 1 else 0,
            (c: Check) => if InWindow(c.minute, now) && c.minute % MINUTES == k && c.kind == kind then 1 else 0);
  }

  lemma SplitSlot(minute: nat, k: nat, log: seq<Check>, now: nat, kind: Kind, here: bool)
    requires here ==> minute % MINUTES == k && InWindow(minute, now)
    requires forall c :: c in log && c.minute % MINUTES == k && InWindow(c.minute, now) ==> here && c.minute == minute
    ensures ChecksInSlots(log, now, kind, k + 1) == ChecksInSlots(log, now, kind, k)
      + SumOf(log, (c: Check) => if here && c.minute == minute && c.kind == kind then 1 else 0)
  {
    hide SumOf;
    SlotsApart(log, now, kind, k);
    SumsAgree(log, (c: Check) => if InWindow(c.minute, now) && c.minute % MINUTES == k && c.kind == kind then 1 else 0,
              (c: Check) => if here && c.minute == minute && c.kind == kind then 1 else 0);
  }

  lemma Gathered(log: seq<Check>, minute: nat, kind: Kind, here: bool)
    ensures SumOf(log, (c: Check) => if here && c.minute == minute && c.kind == kind then 1 else 0)
      == if here then ChecksAt(log, minute, kind) else 0
  {
    hide SumOf;
    if here {
      SumsAgree(log, (c: Check) => if here && c.minute == minute && c.kind == kind then 1 else 0,
                (c: Check) => if c.minute == minute && c.kind == kind then 1 else 0);
    } else {
      SumIsZero(log, (c: Check) => if here && c.minute == minute && c.kind == kind then 1 else 0);
    }
  }

  lemma NoSlots(log: seq<Check>, now: nat, kind: Kind)
    ensures ChecksInSlots(log, now, kind, 0) == 0
  {
    hide SumOf;
    SumIsZero(log, (c: Check) => if InWindow(c.minute, now) && c.minute % MINUTES < 0 && c.kind == kind then 1 else 0);
  }

  lemma AllSlots(log: seq<Check>, now: nat, kind: Kind)
    ensures ChecksInSlots(log, now, kind, MINUTES) == ChecksInWindow(log, now, kind)
  {
    hide SumOf;
    SumsAgree(log, (c: Check) => if InWindow(c.minute, now) && c.minute % MINUTES < MINUTES && c.kind == kind then 1 else 0,
              (c: Check) => if c.minute <= now < c.minute + 60 && c.kind == kind then 1 else 0);
  }

  lemma {:induction false} SnapshotSums(ring: seq<CheckMinute>, log: seq<Check>, now: nat, kind: Kind, k: nat)
    requires Exact(ring, log, now) && k <= MINUTES
    ensures Of(SnapshotOf(ring, now, k), kind) == ChecksInSlots(log, now, kind, k)
  {
    hide SumOf, SlotExact, ChecksInSlots, Of, Plus;
    if k == 0 {
      NoSlots(log, now, kind);
      OfNone(kind);
    } else {
      SnapshotSums(ring, log, now, kind, k - 1);
      SlotInWindow(ring[k - 1], k - 1, log, now, kind);
    }
  }

  /** The snapshot taken at `now` gives the log's counts of the last sixty minutes. */
  ghost predicate TellsAt(ring: seq<CheckMinute>, log: seq<Check>, now: nat)
    requires |ring| == MINUTES
  {
    forall kind :: Of(SnapshotOf(ring, now, MINUTES), kind) == ChecksInWindow(log, now, kind)
  }

  /** Every snapshot from the latest record on does. */
  ghost predicate TellsLog(ring: seq<CheckMinute>, log: seq<Check>)
    requires |ring| == MINUTES
  {
    forall now: nat :: Latest(log) <= now ==> TellsAt(ring, log, now)
  }

  lemma ExactTells(ring: seq<CheckMinute>, log: seq<Check>, now: nat)
    requires Exact(ring, log, now)
    ensures |ring| == MINUTES && TellsAt(ring, log, now)
  {
    assert |ring| == MINUTES;
    hide SumOf, Exact, SnapshotOf, ChecksInWindow, ChecksInSlots, Of;
    forall kind ensures Of(SnapshotOf(ring, now, MINUTES), kind) == ChecksInWindow(log, now, kind) {
      SnapshotSums(ring, log, now, kind, MINUTES);
      AllSlots(log, now, kind);
    }
  }

  // ---- the record that is overtaken ----

  /** No bucket ever shows more of a kind than the log has of its minute. */
  ghost predicate AtMost(b: CheckMinute, i: nat, log: seq<Check>, kind: Kind) {
    if b.minute % MINUTES == i then Of(b.counts, kind) <= ChecksAt(log, b.minute, kind) else b == CheckMinute(0, NONE)
  }

  lemma {:induction false} RingIsAtMost(log: seq<Check>, i: nat, kind: Kind)
    requires i < MINUTES
    ensures AtMost(Ring(log)[i], i, log, kind)
  {
    hide SumOf, ChecksAt, Of;
    OfNone(kind);
    if log != [] {
      var before, c := log[..|log| - 1], log[|log| - 1];
      assert log == before + [c];
      RingIsAtMost(before, i, kind);
      AddedAt(before, c, Ring(log)[i].minute, kind);
    }
  }

  /** The bucket of an overtaken record's slot is of another minute, or short of the record's kind. */
  ghost predicate FallsShort(b: CheckMinute, log: seq<Check>, c: Check) {
    b.minute == c.minute ==> Of(b.counts, c.kind) < ChecksAt(log, c.minute, c.kind)
  }

  lemma {:induction false} OvertakenFallsShort(log: seq<Check>, i: nat, j: nat, latest: nat)
    requires Overtaken(log, i, j, latest)
    ensures FallsShort(Ring(log)[log[i].minute % MINUTES], log, log[i])
  {
    hide SumOf, ChecksAt, Of;
    var before, c, lost := log[..|log| - 1], log[|log| - 1], log[i];
    assert log == before + [c];
    if j < |before| {
      OvertakenFallsShort(before, i, j, latest);
      AddedAt(before, c, lost.minute, lost.kind);
      OfNone(lost.kind);
      RecordedBefore(before, before[i]);
    }
  }

  lemma RecordedBefore(log: seq<Check>, c: Check)
    requires c in log
    ensures ChecksAt(log, c.minute, c.kind) > 0
  {
    hide SumOf;
    SumIsPositive(log, c, (x: Check) => if x.minute == c.minute && x.kind == c.kind then 1 else 0);
  }

  /** A slot's bucket adds at most what the log has in the slot. */
  lemma SlotAtMost(b: CheckMinute, k: nat, log: seq<Check>, now: nat, kind: Kind)
    requires k < MINUTES && AtMost(b, k, log, kind)
    ensures ChecksInSlots(log, now, kind, k + 1)
      >= ChecksInSlots(log, now, kind, k) + (if InWindow(b.minute, now) then Of(b.counts, kind) else 0)
    ensures b.minute % MINUTES == k && InWindow(b.minute, now) ==>
      ChecksInSlots(log, now, kind, k + 1) >= ChecksInSlots(log, now, kind, k) + ChecksAt(log, b.minute, kind)
  {
    hide SumOf, Of;
    OfNone(kind);
    SlotsApart(log, now, kind, k);
    if b.minute % MINUTES == k && InWindow(b.minute, now) {
      SumsOrdered(log, (c: Check) => if c.minute == b.minute && c.kind == kind then 1 else 0,
                  (c: Check) => if InWindow(c.minute, now) && c.minute % MINUTES == k && c.kind == kind then 1 else 0);
    }
  }

  /** The slot of an overtaken record adds less of its kind than the log has there. */
  lemma SlotMisses(b: CheckMinute, log: seq<Check>, now: nat, lost: Check)
    requires lost in log && InWindow(lost.minute, now)
    requires AtMost(b, lost.minute % MINUTES, log, lost.kind) && FallsShort(b, log, lost)
    ensures var k := lost.minute % MINUTES;
      ChecksInSlots(log, now, lost.kind, k + 1)
        > ChecksInSlots(log, now, lost.kind, k) + (if InWindow(b.minute, now) then Of(b.counts, lost.kind) else 0)
  {
    hide SumOf, ChecksInSlots, ChecksAt, Of;
    SlotHolds(log, now, lost);
    SlotAtMost(b, lost.minute % MINUTES, log, now, lost.kind);
    OfNone(lost.kind);
    if b.minute % MINUTES == lost.minute % MINUTES && InWindow(b.minute, now) { SameMinute(b.minute, lost.minute, now); }
  }

  lemma SameMinute(a: nat, b: nat, now: nat)
    requires a % MINUTES == b % MINUTES && InWindow(a, now) && InWindow(b, now)
    ensures a == b
  {}

  lemma SlotHolds(log: seq<Check>, now: nat, lost: Check)
    requires lost in log && InWindow(lost.minute, now)
    ensures ChecksInSlots(log, now, lost.kind, lost.minute % MINUTES + 1)
      > ChecksInSlots(log, now, lost.kind, lost.minute % MINUTES)
  {
    hide SumOf;
    var i, kind := lost.minute % MINUTES, lost.kind;
    SlotsApart(log, now, kind, i);
    SumIsPositive(log, lost, (x: Check) => if InWindow(x.minute, now) && x.minute % MINUTES == i && x.kind == kind then 1 else 0);
  }

  /** Adding up the slots falls short from an overtaken record's slot on. */
  lemma {:induction false} SnapshotMisses(log: seq<Check>, i: nat, j: nat, now: nat, k: nat)
    requires Overtaken(log, i, j, now) && Latest(log) <= now && k <= MINUTES
    ensures var counted, logged := Of(SnapshotOf(Ring(log), now, k), log[i].kind), ChecksInSlots(log, now, log[i].kind, k);
      counted <= logged && (k > log[i].minute % MINUTES ==> counted < logged)
  {
    hide SumOf, AtMost, FallsShort, ChecksInSlots, Latest, Of, Plus, Ring;
    var lost := log[i];
    if k == 0 {
      NoSlots(log, now, lost.kind);
      OfNone(lost.kind);
    } else {
      SnapshotMisses(log, i, j, now, k - 1);
      var b := Ring(log)[k - 1];
      RingIsAtMost(log, k - 1, lost.kind);
      SlotAtMost(b, k - 1, log, now, lost.kind);
      if k - 1 == lost.minute % MINUTES {
        OvertakenFallsShort(log, i, j, now);
        SlotMisses(b, log, now, lost);
      }
    }
  }

  /** A snapshot tells the log if and only if no record of its hour was overtaken: followed, in its slot, by a record
      of an earlier minute. */
  lemma SnapshotTellsExactlyWhen(log: seq<Check>, now: nat)
    requires Latest(log) <= now
    ensures TellsAt(Ring(log), log, now) <==> NoneOvertaken(log, now)
  {
    hide SumOf, SnapshotOf, ChecksInWindow, ChecksInSlots, Of, Latest, Ring, Overtaken, Exact;
    if NoneOvertaken(log, now) {
      UnovertakenIsExact(log, now);
      ExactTells(Ring(log), log, now);
    } else {
      var i: nat, j: nat :| Overtaken(log, i, j, now);
      SnapshotMisses(log, i, j, now, MINUTES);
      SlotOf(log, i, j, now);
      AllSlots(log, now, log[i].kind);
    }
  }

  lemma SlotOf(log: seq<Check>, i: nat, j: nat, now: nat)
    requires Overtaken(log, i, j, now)
    ensures i < |log| && log[i].minute % MINUTES < MINUTES
  {}

  /** The ring tells the log in all snapshots to come if and only if no record of the last hour was overtaken. */
  lemma RingTellsLogExactlyWhen(log: seq<Check>)
    ensures TellsLog(Ring(log), log) <==> NoneOvertaken(log, Latest(log))
  {
    hide TellsAt, Latest, Ring, NoneOvertaken;
    SnapshotTellsExactlyWhen(log, Latest(log));
    forall now: nat | Latest(log) <= now && NoneOvertaken(log, Latest(log)) ensures TellsAt(Ring(log), log, now) {
      LaterOvertaken(log, Latest(log), now);
      SnapshotTellsExactlyWhen(log, now);
    }
  }

  lemma LaterOvertaken(log: seq<Check>, latest: nat, now: nat)
    requires latest <= now && NoneOvertaken(log, latest)
    ensures NoneOvertaken(log, now)
  {
    forall i: nat, j: nat ensures !Overtaken(log, i, j, now) {
      assert !Overtaken(log, i, j, latest);
    }
  }

  /** So one record keeps a ring telling its log if and only if it wipes nothing of the hour. */
  lemma RecordTellsLogExactlyWhen(log: seq<Check>, c: Check)
    requires TellsLog(Ring(log), log)
    ensures TellsLog(Ring(log + [c]), log + [c]) <==> !Wipes(Ring(log), c, Latest(log))
  {
    hide SumOf, TellsLog, Latest, Ring, Exact, Wipes, NoneOvertaken;
    RingTellsLogExactlyWhen(log);
    RingTellsLogExactlyWhen(log + [c]);
    UnovertakenIsExact(log, Latest(log));
    LatestAfter(log, c);
    if Wipes(Ring(log), c, Latest(log)) {
      var i := WipesOvertakes(Ring(log), log, c, Latest(log));
      StillOvertaken(log, c, i);
    } else {
      NothingNewOvertaken(log, c);
    }
  }

  lemma StillOvertaken(log: seq<Check>, c: Check, i: nat)
    requires i < |log| && Overtaken(log + [c], i, |log|, Latest(log))
    ensures !NoneOvertaken(log + [c], Latest(log + [c]))
  {
    hide Latest;
    LatestAfter(log, c);
    assert log[i] in log;
    assert Overtaken(log + [c], i, |log|, Latest(log + [c]));
  }

  lemma NothingNewOvertaken(log: seq<Check>, c: Check)
    requires NoneOvertaken(log, Latest(log)) && Exact(Ring(log), log, Latest(log)) && !Wipes(Ring(log), c, Latest(log))
    ensures NoneOvertaken(log + [c], Latest(log + [c]))
  {
    hide Latest, Ring, SumOf, Of, ChecksAt;
    LatestAfter(log, c);
    forall i: nat, j: nat ensures !Overtaken(log + [c], i, j, Latest(log + [c])) {
      assert !Overtaken(log, i, j, Latest(log));
      if i < |log| == j && log[i].minute % MINUTES == c.minute % MINUTES {
        assert log[i] in log;
        assert SlotExact(Ring(log)[c.minute % MINUTES], c.minute % MINUTES, log, Latest(log));
      }
    }
  }

  /** For example an hour-late check right after one of a newer minute of its slot: it takes that minute's place. */
  lemma LateRecordWipes(newer: Check, late: Check)
    requires newer.minute == late.minute + MINUTES
    ensures !TellsLog(Ring([newer, late]), [newer, late])
  {
    var log := [newer, late];
    LatestOfTwo(newer, late);
    hide TellsLog, Ring, Latest, NoneOvertaken;
    RingTellsLogExactlyWhen(log);
    if NoneOvertaken(log, newer.minute) { NotOvertaken(log, 0, 1, newer.minute); }
  }

  lemma LatestOfTwo(newer: Check, late: Check)
    requires late.minute <= newer.minute
    ensures Latest([newer, late]) == newer.minute
  {
    LatestAfter([], newer);
    LatestAfter([newer], late);
    assert [] + [newer] == [newer] && [newer] + [late] == [newer, late];
    hide Latest;
    EmptyLatest();
  }

  lemma EmptyLatest()
    ensures Latest([]) == 0
  {}

  /** No record comes sixty or more minutes after a later one. */
  ghost predicate OnTime(log: seq<Check>) {
    forall i :: 0 <= i < |log| ==> Latest(log[..i]) < log[i].minute + MINUTES
  }

  /** Hence every snapshot of a run without such a record is exact. */
  lemma OnTimeTellsLog(log: seq<Check>)
    requires OnTime(log)
    ensures TellsLog(Ring(log), log)
  {
    hide TellsLog, Latest, Ring, OnTime;
    forall i: nat, j: nat ensures !Overtaken(log, i, j, Latest(log)) {
      if i < j < |log| { OnTimeOvertakesNothing(log, i, j); }
    }
    RingTellsLogExactlyWhen(log);
  }

  lemma OnTimeOvertakesNothing(log: seq<Check>, i: nat, j: nat)
    requires OnTime(log) && i < j < |log|
    ensures log[j].minute % MINUTES == log[i].minute % MINUTES ==> log[i].minute <= log[j].minute
  {
    hide Latest;
    assert log[..j][i] in log[..j] && Latest(log[..j]) < log[j].minute + MINUTES;
    if log[j].minute % MINUTES == log[i].minute % MINUTES && log[j].minute < log[i].minute {
      AnHourApart(log[j].minute, log[i].minute);
    }
  }

  // ---- the object ----

  class VerificationCounters {
    const recent: array<CheckMinute>
    var total: Stats
    ghost var log: seq<Check>

    ghost predicate Valid()
      reads this, recent
    {
      && recent.Length == MINUTES && recent[..] == Ring(log)
      && total == Stats(ChecksOf(log, RoutineSuccess), ChecksOf(log, RoutineFailure),
                        ChecksOf(log, CandidateSuccess), ChecksOf(log, CandidateFailure))
    }

    constructor ()
      ensures Valid() && fresh(recent) && log == [] && total == NONE
    {
      recent := new CheckMinute[MINUTES](_ => CheckMinute(0, NONE));
      total := NONE;
      log := [];
    }

    method Record(minute: nat, routine: bool, success: bool)
      requires Valid()
      modifies this`log, this`total, recent
      ensures Valid()
      ensures log == old(log) + [Check(minute, if routine then (if success then RoutineSuccess else RoutineFailure)
                                               else if success then CandidateSuccess else CandidateFailure)]
    {
      hide Ring, ChecksOf;
      ghost var c := Check(minute, KindOf(routine, success));
      RingAfter(log, c);
      OneMoreCheck(log, c);
      log := log + [c];
      total := Counted(total, KindOf(routine, success));
      var i := minute % MINUTES;
      if recent[i].minute != minute {
        recent[i] := CheckMinute(minute, NONE);
      }
      recent[i] := recent[i].(counts := Counted(recent[i].counts, KindOf(routine, success)));
      assert recent[..] == Recorded(old(recent[..]), c);
    }

    method RecentSnapshot(now: nat) returns (s: Stats)
      requires Valid()
      ensures s == SnapshotOf(Ring(log), now, MINUTES)
      ensures Latest(log) <= now ==>
        (NoneOvertaken(log, now) <==>
           s == Stats(ChecksInWindow(log, now, RoutineSuccess), ChecksInWindow(log, now, RoutineFailure),
                      ChecksInWindow(log, now, CandidateSuccess), ChecksInWindow(log, now, CandidateFailure)))
    {
      hide Ring, Latest, ChecksInWindow, NoneOvertaken;
      s := NONE;
      for k := 0 to recent.Length
        invariant s == SnapshotOf(Ring(log), now, k)
      {
        var b := recent[k];
        assert b == Ring(log)[k];
        if b.minute + MINUTES < now + 1 || b.minute > now {
          continue;
        }
        s := Plus(s, b.counts);
      }
      if Latest(log) <= now { SnapshotTellsExactlyWhen(log, now); }
    }
  }

  function KindOf(routine: bool, success: bool): (r: Kind) {
    if routine then (if success then RoutineSuccess else RoutineFailure)
    else if success then CandidateSuccess
    else CandidateFailure
  }

  lemma OneMoreCheck(log: seq<Check>, c: Check)
    ensures forall kind :: ChecksOf(log + [c], kind) == ChecksOf(log, kind) + (if c.kind == kind then 1 else 0)
  {
    hide SumOf;
    forall kind ensures ChecksOf(log + [c], kind) == ChecksOf(log, kind) + (if c.kind == kind then 1 else 0) {
      SumOfOneMore(log, c, (x: Check) => if x.kind == kind then 1 else 0);
    }
  }

  lemma RingAfter(log: seq<Check>, c: Check)
    ensures Ring(log + [c]) == Recorded(Ring(log), c)
  {
    assert (log + [c])[..|log|] == log;
  }
}
