/** The sliding minute of network attempts: sixty buckets, one per second modulo sixty, against the full
    log of attempts recorded in any order. */
module RateWindow {
  import opened EventSums

  const SLOTS: nat := 60

  datatype Sample = Sample(second: nat, attempts: nat, bytes: nat)

  datatype Bucket = Bucket(second: nat, attempts: nat, bytes: nat)

  const EMPTY := Bucket(0, 0, 0)

  function Recorded(ring: seq<Bucket>, r: Sample): (result: seq<Bucket>)
    requires |ring| == SLOTS
  {
    var b := ring[r.second % SLOTS];
    if b.second > r.second then ring
    else
      var kept := if b.second != r.second then Bucket(r.second, 0, 0) else b;
      ring[r.second % SLOTS := Bucket(r.second, kept.attempts + r.attempts, kept.bytes + r.bytes)]
  }

  function Ring(log: seq<Sample>): (ring: seq<Bucket>)
    ensures |ring| == SLOTS
  {
    if log == [] then seq(SLOTS, i => EMPTY) else Recorded(Ring(log[..|log| - 1]), log[|log| - 1])
  }

  // ---- the log ----

  predicate InWindow(second: nat, now: nat) {
    now < second + SLOTS && second <= now
  }

  /** Everything attempted in the last sixty seconds. */
  function AttemptsInWindow(log: seq<Sample>, now: nat): (r: nat) {
    SumOf(log, (r: Sample) => if r.second <= now < r.second + 60 then r.attempts else 0)
  }

  function BytesInWindow(log: seq<Sample>, now: nat): (r: nat) {
    SumOf(log, (r: Sample) => if r.second <= now < r.second + 60 then r.bytes else 0)
  }

  function AttemptsAt(log: seq<Sample>, second: nat): (r: nat) {
    SumOf(log, (r: Sample) => if r.second == second then r.attempts else 0)
  }

  function BytesAt(log: seq<Sample>, second: nat): (r: nat) {
    SumOf(log, (r: Sample) => if r.second == second then r.bytes else 0)
  }

  /** The attempts in the window in the first k slots. */
  function AttemptsInSlots(log: seq<Sample>, now: nat, k: nat): (r: nat) {
    SumOf(log, (r: Sample) => if InWindow(r.second, now) && r.second % SLOTS < k then r.attempts else 0)
  }

  function BytesInSlots(log: seq<Sample>, now: nat, k: nat): (r: nat) {
    SumOf(log, (r: Sample) => if InWindow(r.second, now) && r.second % SLOTS < k then r.bytes else 0)
  }

  // ---- one bucket ----

  /** A bucket holds the totals of the newest second recorded in its slot. */
  ghost predicate SlotExact(b: Bucket, i: nat, log: seq<Sample>) {
    && (forall r :: r in log && r.second % SLOTS == i ==> r.second <= b.second)
    && (b.second == 0 || exists r :: r in log && r.second == b.second)
    && (if b.second % SLOTS == i then b.attempts == AttemptsAt(log, b.second) && b.bytes == BytesAt(log, b.second)
        else b == EMPTY)
  }

  lemma OtherSlot(b: Bucket, i: nat, log: seq<Sample>, r: Sample)
    requires SlotExact(b, i, log) && i < SLOTS && r.second % SLOTS != i
    ensures SlotExact(b, i, log + [r])
  {
    hide SumOf;
    AddedAt(log, r, b.second);
  }

  lemma AddedAt(log: seq<Sample>, r: Sample, second: nat)
    ensures AttemptsAt(log + [r], second) == AttemptsAt(log, second) + (if r.second == second then r.attempts else 0)
    ensures BytesAt(log + [r], second) == BytesAt(log, second) + (if r.second == second then r.bytes else 0)
  {
    hide SumOf;
    SumOfOneMore(log, r, (x: Sample) => if x.second == second then x.attempts else 0);
    SumOfOneMore(log, r, (x: Sample) => if x.second == second then x.bytes else 0);
  }

  lemma NothingAt(log: seq<Sample>, second: nat)
    requires forall r :: r in log ==> r.second != second
    ensures AttemptsAt(log, second) == 0 && BytesAt(log, second) == 0
  {
    hide SumOf;
    SumIsZero(log, (x: Sample) => if x.second == second then x.attempts else 0);
    SumIsZero(log, (x: Sample) => if x.second == second then x.bytes else 0);
  }

  lemma OwnSlot(ring: seq<Bucket>, log: seq<Sample>, r: Sample)
    requires |ring| == SLOTS && SlotExact(ring[r.second % SLOTS], r.second % SLOTS, log)
    ensures SlotExact(Recorded(ring, r)[r.second % SLOTS], r.second % SLOTS, log + [r])
  {
    hide SumOf, AttemptsAt, BytesAt;
    var i := r.second % SLOTS;
    var b := ring[i];
    if b.second > r.second {
      AddedAt(log, r, b.second);
    } else {
      AddedAt(log, r, r.second);
      if b.second != r.second { NothingAt(log, r.second); }
    }
  }

  lemma {:induction false} RingIsExact(log: seq<Sample>, i: nat)
    requires i < SLOTS
    ensures SlotExact(Ring(log)[i], i, log)
  {
    hide SumOf, AttemptsAt, BytesAt, SlotExact;
    if log == [] {
      EmptySlot(i);
    } else {
      var before, r := log[..|log| - 1], log[|log| - 1];
      assert log == before + [r];
      RingIsExact(before, i);
      if r.second % SLOTS == i { OwnSlot(Ring(before), before, r); } else { OtherSlot(Ring(before)[i], i, before, r); }
    }
  }

  lemma EmptySlot(i: nat)
    ensures SlotExact(EMPTY, i, [])
  {}

  // ---- the snapshot ----

  ghost predicate UpTo(log: seq<Sample>, now: nat) {
    forall r :: r in log ==> r.second <= now
  }

  datatype Snapshot = Snapshot(attempts: nat, bytes: nat, peak: nat, lastSecond: nat)

  function SnapshotOf(ring: seq<Bucket>, now: nat, k: nat): (r: Snapshot)
    requires k <= |ring|
  {
    if k == 0 then Snapshot(0, 0, 0, 0)
    else
      var s, b := SnapshotOf(ring, now, k - 1), ring[k - 1];
      if !InWindow(b.second, now) then s
      else Snapshot(s.attempts + b.attempts, s.bytes + b.bytes,
                    if b.attempts > s.peak then b.attempts else s.peak,
                    if b.second + 1 == now then b.attempts else s.lastSecond)
  }

  /** The bucket of a slot stands for everything of that slot in the window. */
  lemma SlotInWindow(b: Bucket, k: nat, log: seq<Sample>, now: nat)
    requires k < SLOTS && SlotExact(b, k, log) && UpTo(log, now)
    ensures AttemptsInSlots(log, now, k + 1)
      == AttemptsInSlots(log, now, k) + (if InWindow(b.second, now) then b.attempts else 0)
    ensures BytesInSlots(log, now, k + 1)
      == BytesInSlots(log, now, k) + (if InWindow(b.second, now) then b.bytes else 0)
  {
    hide SumOf;
    var here := b.second % SLOTS == k && InWindow(b.second, now);
    forall r | r in log && r.second % SLOTS == k && InWindow(r.second, now) ensures here && r.second == b.second {
      SameSlotSameSecond(r.second, b.second, now, k);
    }
    SumsAdd(log, (r: Sample) => if InWindow(r.second, now) && r.second % SLOTS < k + 1 then r.attempts else 0,
            (r: Sample) => if InWindow(r.second, now) && r.second % SLOTS < k then r.attempts else 0,
            (r: Sample) => if here && r.second == b.second then r.attempts else 0);
    SumsAdd(log, (r: Sample) => if InWindow(r.second, now) && r.second % SLOTS < k + 1 then r.bytes else 0,
            (r: Sample) => if InWindow(r.second, now) && r.second % SLOTS < k then r.bytes else 0,
            (r: Sample) => if here && r.second == b.second then r.bytes else 0);
    Gathered(log, b.second, here);
  }

  lemma Gathered(log: seq<Sample>, second: nat, here: bool)
    ensures SumOf(log, (r: Sample) => if here && r.second == second then r.attempts else 0)
      == if here then AttemptsAt(log, second) else 0
    ensures SumOf(log, (r: Sample) => if here && r.second == second then r.bytes else 0)
      == if here then BytesAt(log, second) else 0
  {
    hide SumOf;
    if here {
      SumsAgree(log, (r: Sample) => if here && r.second == second then r.attempts else 0,
                (r: Sample) => if r.second == second then r.attempts else 0);
      SumsAgree(log, (r: Sample) => if here && r.second == second then r.bytes else 0,
                (r: Sample) => if r.second == second then r.bytes else 0);
    } else {
      SumIsZero(log, (r: Sample) => if here && r.second == second then r.attempts else 0);
      SumIsZero(log, (r: Sample) => if here && r.second == second then r.bytes else 0);
    }
  }

  lemma SameSlotSameSecond(second: nat, newest: nat, now: nat, k: nat)
    requires second % SLOTS == k && InWindow(second, now) && second <= newest
    requires newest <= now
    requires newest % SLOTS == k
    ensures second == newest
  {}

  lemma {:induction false} SnapshotSums(log: seq<Sample>, now: nat, k: nat)
    requires k <= SLOTS && UpTo(log, now)
    ensures SnapshotOf(Ring(log), now, k).attempts == AttemptsInSlots(log, now, k)
    ensures SnapshotOf(Ring(log), now, k).bytes == BytesInSlots(log, now, k)
  {
    hide SumOf, SlotExact, Ring, AttemptsInSlots, BytesInSlots, UpTo;
    if k == 0 {
      NoSlots(log, now);
    } else {
      SnapshotSums(log, now, k - 1);
      RingIsExact(log, k - 1);
      SlotInWindow(Ring(log)[k - 1], k - 1, log, now);
    }
  }

  lemma NoSlots(log: seq<Sample>, now: nat)
    ensures AttemptsInSlots(log, now, 0) == 0 == BytesInSlots(log, now, 0)
  {
    hide SumOf;
    SumIsZero(log, (r: Sample) => if InWindow(r.second, now) && r.second % SLOTS < 0 then r.attempts else 0);
    SumIsZero(log, (r: Sample) => if InWindow(r.second, now) && r.second % SLOTS < 0 then r.bytes else 0);
  }

  lemma AllSlots(log: seq<Sample>, now: nat)
    ensures AttemptsInSlots(log, now, SLOTS) == AttemptsInWindow(log, now)
    ensures BytesInSlots(log, now, SLOTS) == BytesInWindow(log, now)
  {
    hide SumOf;
    SumsAgree(log, (r: Sample) => if InWindow(r.second, now) && r.second % SLOTS < SLOTS then r.attempts else 0,
              (r: Sample) => if r.second <= now < r.second + 60 then r.attempts else 0);
    SumsAgree(log, (r: Sample) => if InWindow(r.second, now) && r.second % SLOTS < SLOTS then r.bytes else 0,
              (r: Sample) => if r.second <= now < r.second + 60 then r.bytes else 0);
  }

  /** What any bucket in the window holds is what the log says of its second. */
  lemma BucketTellsLog(log: seq<Sample>, i: nat)
    requires i < SLOTS
    ensures Ring(log)[i].attempts <= AttemptsAt(log, Ring(log)[i].second)
    ensures Ring(log)[i].second % SLOTS == i ==> Ring(log)[i].attempts == AttemptsAt(log, Ring(log)[i].second)
    ensures Ring(log)[i].second % SLOTS != i ==> Ring(log)[i] == EMPTY
  {
    hide SumOf, Ring, AttemptsAt;
    RingIsExact(log, i);
  }

  /** Every second of the window is told by its own bucket. */
  lemma SecondToldByItsBucket(log: seq<Sample>, now: nat, second: nat)
    requires UpTo(log, now) && InWindow(second, now)
    ensures var b := Ring(log)[second % SLOTS];
      if b.second == second then b.attempts == AttemptsAt(log, second) else AttemptsAt(log, second) == 0
  {
    hide SumOf, Ring, AttemptsAt;
    var i := second % SLOTS;
    RingIsExact(log, i);
    if Ring(log)[i].second != second {
      forall r | r in log ensures r.second != second {
        if r.second == second { SameSlotSameSecond(second, Ring(log)[i].second, now, i); }
      }
      NothingAt(log, second);
    }
  }

  lemma {:induction false} PeakCovers(ring: seq<Bucket>, now: nat, k: nat, i: nat)
    requires i < k <= |ring| && InWindow(ring[i].second, now)
    ensures ring[i].attempts <= SnapshotOf(ring, now, k).peak
  {
    if i < k - 1 { PeakCovers(ring, now, k - 1, i); }
  }

  lemma {:induction false} PeakIsReached(ring: seq<Bucket>, now: nat, k: nat)
    requires k <= |ring| && SnapshotOf(ring, now, k).peak > 0
    ensures exists i :: 0 <= i < k && InWindow(ring[i].second, now) && ring[i].attempts == SnapshotOf(ring, now, k).peak
  {
    var b := ring[k - 1];
    if !(InWindow(b.second, now) && b.attempts == SnapshotOf(ring, now, k).peak) {
      PeakIsReached(ring, now, k - 1);
      var i :| 0 <= i < k - 1 && InWindow(ring[i].second, now) && ring[i].attempts == SnapshotOf(ring, now, k - 1).peak;
      assert ring[i].attempts == SnapshotOf(ring, now, k).peak;
    }
  }

  /** The last-second figure is the last slot in the ring whose second is the previous one. */
  lemma {:induction false} LastSecondIs(ring: seq<Bucket>, now: nat, k: nat, i: nat)
    requires i < k <= |ring| && now >= 1
    requires ring[i].second == now - 1
    requires forall j :: i < j < k ==> ring[j].second != now - 1
    ensures SnapshotOf(ring, now, k).lastSecond == ring[i].attempts
  {
    if i < k - 1 { LastSecondIs(ring, now, k - 1, i); }
  }

  lemma {:induction false} NoLastSecond(ring: seq<Bucket>, now: nat, k: nat)
    requires k <= |ring|
    requires forall j :: 0 <= j < k ==> ring[j].second + 1 != now
    ensures SnapshotOf(ring, now, k).lastSecond == 0
  {
    if k > 0 { NoLastSecond(ring, now, k - 1); }
  }

  /** Whatever order attempts are recorded in, a snapshot no older than any of them gives the sums over the
      last sixty seconds of the full log, and its peak is the busiest of those seconds. */
  lemma SnapshotIsTheLog(log: seq<Sample>, now: nat)
    requires UpTo(log, now)
    ensures var s := SnapshotOf(Ring(log), now, SLOTS);
      && s.attempts == AttemptsInWindow(log, now)
      && s.bytes == BytesInWindow(log, now)
      && (forall second: nat :: second <= now < second + 60 ==> AttemptsAt(log, second) <= s.peak)
      && (s.peak > 0 ==> exists second: nat :: second <= now < second + 60 && AttemptsAt(log, second) == s.peak)
  {
    hide SumOf, Ring, AttemptsAt, SnapshotOf;
    var ring := Ring(log);
    SnapshotSums(log, now, SLOTS);
    AllSlots(log, now);
    forall second: nat | InWindow(second, now) ensures AttemptsAt(log, second) <= SnapshotOf(ring, now, SLOTS).peak {
      SecondToldByItsBucket(log, now, second);
      if ring[second % SLOTS].second == second { PeakCovers(ring, now, SLOTS, second % SLOTS); }
    }
    if SnapshotOf(ring, now, SLOTS).peak > 0 {
      PeakIsReached(ring, now, SLOTS);
      var i :| 0 <= i < SLOTS && InWindow(ring[i].second, now) && ring[i].attempts == SnapshotOf(ring, now, SLOTS).peak;
      BucketTellsLog(log, i);
    }
  }

  /** The last-second figure is the log's, except at Unix second 1, where an untouched bucket passes for
      second 0 and hides it. */
  lemma LastSecondIsTheLog(log: seq<Sample>, now: nat)
    requires UpTo(log, now) && now >= 1
    ensures SnapshotOf(Ring(log), now, SLOTS).lastSecond == if now == 1 then 0 else AttemptsAt(log, now - 1)
  {
    hide SumOf, Ring, AttemptsAt, SnapshotOf;
    var ring := Ring(log);
    if now == 1 {
      LastSlotUntouched(log);
      LastSecondIs(ring, 1, SLOTS, SLOTS - 1);
    } else {
      var i := (now - 1) % SLOTS;
      SecondToldByItsBucket(log, now, now - 1);
      forall j | 0 <= j < SLOTS && j != i ensures ring[j].second != now - 1 {
        BucketTellsLog(log, j);
      }
      if ring[i].second == now - 1 { LastSecondIs(ring, now, SLOTS, i); } else { NoLastSecond(ring, now, SLOTS); }
    }
  }

  lemma LastSlotUntouched(log: seq<Sample>)
    requires UpTo(log, 1)
    ensures Ring(log)[SLOTS - 1] == EMPTY
  {
    hide SumOf, Ring, AttemptsAt;
    RingIsExact(log, SLOTS - 1);
  }

  // ---- the object ----

  class NetworkRateWindow {
    const buckets: array<Bucket>
    ghost var log: seq<Sample>

    ghost predicate Valid()
      reads this, buckets
    {
      buckets.Length == SLOTS && buckets[..] == Ring(log)
    }

    constructor ()
      ensures Valid() && fresh(buckets) && log == []
    {
      buckets := new Bucket[SLOTS](_ => EMPTY);
      log := [];
    }

    method Record(second: nat, attempts: nat, bytes: nat)
      requires Valid()
      modifies this`log, buckets
      ensures Valid() && log == old(log) + [Sample(second, attempts, bytes)]
    {
      hide Ring;
      RingAfter(log, Sample(second, attempts, bytes));
      log := log + [Sample(second, attempts, bytes)];
      var i := second % SLOTS;
      if buckets[i].second > second {
        return;
      }
      if buckets[i].second != second {
        buckets[i] := Bucket(second, 0, 0);
      }
      buckets[i] := buckets[i].(attempts := buckets[i].attempts + attempts);
      buckets[i] := buckets[i].(bytes := buckets[i].bytes + bytes);
      assert buckets[..] == Recorded(old(buckets[..]), Sample(second, attempts, bytes));
    }

    method TakeSnapshot(now: nat) returns (s: Snapshot)
      requires Valid()
      ensures s == SnapshotOf(Ring(log), now, SLOTS)
      ensures UpTo(log, now) ==> s.attempts == AttemptsInWindow(log, now) && s.bytes == BytesInWindow(log, now)
    {
      hide Ring, AttemptsInWindow, BytesInWindow;
      s := Snapshot(0, 0, 0, 0);
      for k := 0 to buckets.Length
        invariant s == SnapshotOf(Ring(log), now, k)
      {
        var b := buckets[k];
        assert b == Ring(log)[k];
        if b.second + 59 < now || b.second > now {
          continue;
        }
        s := s.(attempts := s.attempts + b.attempts, bytes := s.bytes + b.bytes);
        if b.attempts > s.peak {
          s := s.(peak := b.attempts);
        }
        if b.second + 1 == now {
          s := s.(lastSecond := b.attempts);
        }
      }
      if UpTo(log, now) { SnapshotIsTheLog(log, now); }
    }
  }

  lemma RingAfter(log: seq<Sample>, r: Sample)
    ensures Ring(log + [r]) == Recorded(Ring(log), r)
  {
    assert (log + [r])[..|log|] == log;
  }
}
