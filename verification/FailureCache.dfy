/** Backoff of candidates that failed before they were ever stored. */
module FailureCache {
  import opened Proxies
  import PoolStore

  const RETENTION: nat := 7 * DAY

  const CANDIDATE_RETRY_BACKOFF: seq<nat> := [30 * MINUTE, 2 * HOUR, 6 * HOUR, DAY]

  datatype CandidateFailure = CandidateFailure(failures: int, retryAt: Time, lastFailure: Time)

  /** The wait after a failure, by the index clamped into the ladder. */
  function Ladder(failures: int): (r: nat) {
    var index := if failures - 1 < 0 then 0 else failures - 1;
    CANDIDATE_RETRY_BACKOFF[if index >= |CANDIDATE_RETRY_BACKOFF| then |CANDIDATE_RETRY_BACKOFF| - 1 else index]
  }

  /** The pool's ladder and the candidates' ladder are written separately and agree on every count. */
  lemma LaddersAgree(failures: int)
    ensures Ladder(failures) == PoolStore.RetryBackoff(failures)
    ensures 30 * MINUTE <= Ladder(failures) <= DAY
    ensures failures >= 4 ==> Ladder(failures) == DAY
  {}

  predicate Due(entries: map<string, CandidateFailure>, uri: string, now: Time) {
    uri !in entries || entries[uri].retryAt <= now
  }

  function Failures(entries: map<string, CandidateFailure>, uri: string, minimum: int): (r: int) {
    var counted := (if uri in entries then entries[uri].failures else 0) + 1;
    if counted < minimum then minimum else counted
  }

  function Recorded(entries: map<string, CandidateFailure>, uri: string, minimum: int, now: Time): (r: map<string, CandidateFailure>) {
    var failures := Failures(entries, uri, minimum);
    entries[uri := CandidateFailure(failures, now + Ladder(failures), now)]
  }

  function Pruned(entries: map<string, CandidateFailure>, now: Time): (r: map<string, CandidateFailure>) {
    map uri | uri in entries && now < entries[uri].lastFailure + RETENTION :: entries[uri]
  }

  // ---- the object ----

  class CandidateFailureCache {
    var entries: map<string, CandidateFailure>

    constructor ()
      ensures entries == map[]
    {
      entries := map[];
    }

    method IsDue(uri: string, now: Time) returns (due: bool)
      ensures due == Due(entries, uri, now)
    {
      due := true;
      if uri in entries && now < entries[uri].retryAt {
        due := false;
      }
    }

    method RecordFailure(uri: string, minimumFailures: int, now: Time) returns (retryAt: Time)
      modifies this
      ensures entries == Recorded(old(entries), uri, minimumFailures, now)
      ensures retryAt == entries[uri].retryAt
      ensures !Due(entries, uri, now) && now + 30 * MINUTE <= retryAt <= now + DAY
    {
      var entry := if uri in entries then entries[uri] else CandidateFailure(0, ZERO_TIME, ZERO_TIME);
      entry := entry.(failures := entry.failures + 1);
      if entry.failures < minimumFailures {
        entry := entry.(failures := minimumFailures);
      }
      var backoffIndex := entry.failures - 1;
      if backoffIndex < 0 {
        backoffIndex := 0;
      }
      if backoffIndex >= |CANDIDATE_RETRY_BACKOFF| {
        backoffIndex := |CANDIDATE_RETRY_BACKOFF| - 1;
      }
      LaddersAgree(entry.failures);
      entry := entry.(lastFailure := now, retryAt := now + CANDIDATE_RETRY_BACKOFF[backoffIndex]);
      entries := entries[uri := entry];
      return entry.retryAt;
    }

    method Clear(uri: string)
      modifies this
      ensures entries == old(entries) - {uri}
    {
      entries := entries - {uri};
    }

    method Prune(now: Time)
      modifies this
      ensures entries == Pruned(old(entries), now)
    {
      var left := entries.Keys;
      while left != {}
        invariant left <= old(entries).Keys
        invariant entries == map u | u in old(entries) && (u in left || now < old(entries)[u].lastFailure + RETENTION) :: old(entries)[u]
        decreases |left|
      {
        var uri :| uri in left;
        if entries[uri].lastFailure + RETENTION <= now {
          entries := entries - {uri};
        }
        left := left - {uri};
      }
    }
  }

  // ---- pruning ----

  /** No retry lies more than a day after its failure. */
  ghost predicate WellTimed(entries: map<string, CandidateFailure>) {
    forall uri :: uri in entries ==> entries[uri].retryAt <= entries[uri].lastFailure + DAY
  }

  /** Pruning forgets only what was due: no answer from then on changes. */
  lemma PruneKeepsDue(entries: map<string, CandidateFailure>, now: Time, uri: string, later: Time)
    requires WellTimed(entries) && now <= later
    ensures Due(Pruned(entries, now), uri, later) == Due(entries, uri, later)
    ensures WellTimed(Pruned(entries, now))
  {}

  lemma RecordKeepsWellTimed(entries: map<string, CandidateFailure>, uri: string, minimum: int, now: Time)
    requires WellTimed(entries)
    ensures WellTimed(Recorded(entries, uri, minimum, now))
  {
    LaddersAgree(Failures(entries, uri, minimum));
  }

  // ---- whole runs ----

  datatype Op = Failed(uri: string, minimum: int) | Cleared(uri: string) | PruneAll

  datatype Event = Event(op: Op, now: Time)

  function Apply(entries: map<string, CandidateFailure>, e: Event): (r: map<string, CandidateFailure>) {
    match e.op
    case Failed(uri, minimum) => Recorded(entries, uri, minimum, e.now)
    case Cleared(uri) => entries - {uri}
    case PruneAll => Pruned(entries, e.now)
  }

  function After(entries: map<string, CandidateFailure>, events: seq<Event>): (r: map<string, CandidateFailure>) {
    if events == [] then entries else Apply(After(entries, events[..|events| - 1]), events[|events| - 1])
  }

  lemma {:induction false} RunsAreWellTimed(events: seq<Event>)
    ensures WellTimed(After(map[], events))
  {
    if events != [] {
      var before, e := events[..|events| - 1], events[|events| - 1];
      RunsAreWellTimed(before);
      if e.op.Failed? { RecordKeepsWellTimed(After(map[], before), e.op.uri, e.op.minimum, e.now); }
    }
  }

  /** So whatever happened before, pruning never changes when any endpoint is due. */
  lemma {:induction false} PruneIsInvisible(events: seq<Event>, now: Time, uri: string, later: Time)
    requires now <= later
    ensures var entries := After(map[], events);
      Due(Pruned(entries, now), uri, later) == Due(entries, uri, later)
  {
    hide After, WellTimed, Due;
    RunsAreWellTimed(events);
    PruneKeepsDue(After(map[], events), now, uri, later);
  }

  /** When the failures of one endpoint were recorded. */
  function FailureTimes(events: seq<Event>, uri: string): (r: seq<Time>) {
    if events == [] then []
    else
      var last := events[|events| - 1];
      FailureTimes(events[..|events| - 1], uri) + (if last.op.Failed? && last.op.uri == uri then [last.now] else [])
  }

  /** On a clock that never goes back, every failure of the endpoint is recorded when it was due, and its
      history is never cleared. Other endpoints and prunes are unrestricted. */
  ghost predicate Disciplined(entries: map<string, CandidateFailure>, events: seq<Event>, uri: string) {
    events != [] ==>
      var before, last := events[..|events| - 1], events[|events| - 1];
      && Disciplined(entries, before, uri)
      && (before != [] ==> before[|before| - 1].now <= last.now)
      && last.op != Cleared(uri)
      && (last.op.Failed? && last.op.uri == uri ==> Due(After(entries, before), uri, last.now))
  }

  function AtMostFour(failures: int): (r: int) {
    if failures > 4 then 4 else failures
  }

  /** A remembered endpoint failed at least once. */
  predicate Started(entries: map<string, CandidateFailure>, uri: string) {
    uri in entries ==> entries[uri].failures >= 1
  }

  /** After each failure the elapsed time pays a day for all but as many failures as the ladder has climbed;
      a pruned history has waited a week instead. */
  ghost predicate Paid(entries: map<string, CandidateFailure>, times: seq<Time>, uri: string, clock: Time) {
    && Started(entries, uri)
    && (times != [] ==>
      var n, first, last := |times|, times[0], times[|times| - 1];
      && first <= last <= clock
      && (uri in entries ==>
            && entries[uri].lastFailure == last
            && entries[uri].retryAt == last + Ladder(entries[uri].failures)
            && last - first >= DAY * (n - AtMostFour(entries[uri].failures)))
      && (uri !in entries ==> last + RETENTION <= clock && last - first >= DAY * (n - 4)))
  }

  lemma PaidFailure(entries: map<string, CandidateFailure>, times: seq<Time>, uri: string, clock: Time, minimum: int, now: Time)
    requires Paid(entries, times, uri, clock) && clock <= now && Due(entries, uri, now)
    ensures Paid(Recorded(entries, uri, minimum, now), times + [now], uri, now)
  {
    hide Ladder;
    LaddersAgree(Failures(entries, uri, minimum));
    if uri in entries { LaddersAgree(entries[uri].failures); }
    assert times != [] ==> (times + [now])[0] == times[0];
  }

  lemma PaidOther(entries: map<string, CandidateFailure>, times: seq<Time>, uri: string, clock: Time, u: string, minimum: int, now: Time)
    requires Paid(entries, times, uri, clock) && clock <= now && u != uri
    ensures Paid(Recorded(entries, u, minimum, now), times, uri, now)
    ensures Paid(entries - {u}, times, uri, now)
  {
    hide Ladder;
  }

  lemma PaidPrune(entries: map<string, CandidateFailure>, times: seq<Time>, uri: string, clock: Time, now: Time)
    requires Paid(entries, times, uri, clock) && clock <= now
    ensures Paid(Pruned(entries, now), times, uri, now)
  {
    hide Ladder;
  }

  lemma PaidStep(entries: map<string, CandidateFailure>, times: seq<Time>, uri: string, clock: Time, e: Event)
    requires Paid(entries, times, uri, clock) && clock <= e.now && e.op != Cleared(uri)
    requires e.op.Failed? && e.op.uri == uri ==> Due(entries, uri, e.now)
    ensures Paid(Apply(entries, e), times + (if e.op.Failed? && e.op.uri == uri then [e.now] else []), uri, e.now)
  {
    hide Paid, Recorded, Pruned, Due;
    assert times + [] == times;
    match e.op
    case Failed(u, minimum) =>
      if u == uri {
        PaidFailure(entries, times, uri, clock, minimum, e.now);
      } else {
        PaidOther(entries, times, uri, clock, u, minimum, e.now);
      }
    case Cleared(u) => PaidOther(entries, times, uri, clock, u, 0, e.now);
    case PruneAll => PaidPrune(entries, times, uri, clock, e.now);
  }

  lemma {:induction false} AlwaysPaid(entries: map<string, CandidateFailure>, events: seq<Event>, uri: string)
    requires Started(entries, uri) && Disciplined(entries, events, uri)
    ensures Paid(After(entries, events), FailureTimes(events, uri), uri,
                 if events == [] then 0 else events[|events| - 1].now)
  {
    hide Paid, Apply;
    if events == [] {
      NothingOwed(entries, uri);
    } else {
      var before := events[..|events| - 1];
      AlwaysPaid(entries, before, uri);
      PaidStep(After(entries, before), FailureTimes(before, uri), uri,
               if before == [] then 0 else before[|before| - 1].now, events[|events| - 1]);
    }
  }

  lemma NothingOwed(entries: map<string, CandidateFailure>, uri: string)
    requires Started(entries, uri)
    ensures Paid(entries, [], uri, 0)
  {}

  /** The N-th failure of an endpoint comes at least 24 hours times N - 4 after the first, for any minimum
      counts, any prunes, and any history the run starts with. */
  lemma FailuresAreSpaced(entries: map<string, CandidateFailure>, events: seq<Event>, uri: string)
    requires Started(entries, uri) && Disciplined(entries, events, uri) && FailureTimes(events, uri) != []
    ensures var times := FailureTimes(events, uri);
      times[|times| - 1] - times[0] >= DAY * (|times| - 4)
  {
    hide Disciplined, FailureTimes;
    AlwaysPaid(entries, events, uri);
  }

  // ---- the ladder in use ----

  /** The entry after a failure: one more than before, or the minimum asked for if that is more, and a wait of 30
      minutes, 2 hours, 6 hours, then 24 hours. */
  lemma FailureClimbs(entries: map<string, CandidateFailure>, uri: string, minimum: int, now: Time)
    ensures var c := (if uri in entries then entries[uri].failures else 0) + 1;
      var n := if minimum > c then minimum else c;
      var r := Recorded(entries, uri, minimum, now);
      && uri in r && r[uri] == CandidateFailure(n, now + (if n <= 1 then 1_800_000_000_000
                                                          else if n == 2 then 7_200_000_000_000
                                                          else if n == 3 then 21_600_000_000_000
                                                          else 86_400_000_000_000), now)
      && r - {uri} == entries - {uri}
      && (forall t: Time :: Due(r, uri, t) <==> t >= r[uri].retryAt)
  {}

  /** No minimum is asked for the endpoint and its history is neither cleared nor pruned; others may do anything else. */
  ghost predicate PlainFailures(events: seq<Event>, uri: string) {
    forall i :: 0 <= i < |events| ==>
      events[i].op != Cleared(uri) && !events[i].op.PruneAll? &&
      (events[i].op.Failed? && events[i].op.uri == uri ==> events[i].op.minimum <= 1)
  }

  /** So the n-th failure in a row of an endpoint makes it wait by the n-th step. */
  lemma {:induction false} FailuresClimb(events: seq<Event>, uri: string)
    requires PlainFailures(events, uri)
    ensures var n, entries := |FailureTimes(events, uri)|, After(map[], events);
      && (uri in entries <==> n > 0)
      && (n > 0 ==> entries[uri].failures == n && entries[uri].lastFailure == FailureTimes(events, uri)[n - 1])
      && (n > 0 ==>
            entries[uri].retryAt == FailureTimes(events, uri)[n - 1] + (if n == 1 then 1_800_000_000_000
                                                                        else if n == 2 then 7_200_000_000_000
                                                                        else if n == 3 then 21_600_000_000_000
                                                                        else 86_400_000_000_000))
  {
    if events != [] {
      var before, e := events[..|events| - 1], events[|events| - 1];
      assert forall i :: 0 <= i < |before| ==> before[i] == events[i];
      FailuresClimb(before, uri);
      if e.op.Failed? { FailureClimbs(After(map[], before), e.op.uri, e.op.minimum, e.now); }
      hide Ladder, PlainFailures, Recorded;
      assert e.op.Failed? ==> Apply(After(map[], before), e) == Recorded(After(map[], before), e.op.uri, e.op.minimum, e.now);
    }
  }

  /** Pruning forgets exactly what failed last seven days ago or more. */
  lemma PruneForgets(entries: map<string, CandidateFailure>, now: Time)
    ensures forall uri :: uri in Pruned(entries, now) <==> uri in entries && now - entries[uri].lastFailure < 604_800_000_000_000
    ensures forall uri :: uri in Pruned(entries, now) ==> Pruned(entries, now)[uri] == entries[uri]
  {}
}
