/** A request's attempts over the real scheduler: each failed attempt opens the circuit the next pick skips,
    so as long as circuits outlast the request it is never offered a proxy twice. */
module RetryWithCache {
  import opened Proxies
  import opened PoolStore
  import opened Scheduler
  import opened SchedulerRuns
  import opened Conversation
  import Upstream

  // ---- a request within a run ----

  /** Event i is a pick for the host that hands out a proxy. */
  predicate PickedAt(s: Sched, events: seq<Event>, host: string, i: nat)
    requires i < |events|
  {
    events[i].op.PickFor? && events[i].op.domain == host && Choice(After(s, events[..i]), events[i]).Some?
  }

  function ChosenUri(s: Sched, events: seq<Event>, host: string, i: nat): (r: string)
    requires i < |events| && PickedAt(s, events, host, i)
  {
    URI(events[i].op.pool[Choice(After(s, events[..i]), events[i]).value].p)
  }

  predicate ReportsUri(events: seq<Event>, f: nat, uri: string, host: string) {
    f < |events| && events[f].op.TargetFailed? && events[f].op.uri == uri && events[f].op.target == host
  }

  /** The scheduler's side of an action of a request for the host: a question is a pick with that answer, a
      reported target failure opens a circuit. A failure of the proxy itself concerns the pool alone. */
  predicate Happens(s: Sched, events: seq<Event>, i: nat, action: Action, host: string) {
    i < |events| &&
    match action
    case Asked(Offered(uri)) => PickedAt(s, events, host, i) && ChosenUri(s, events, host, i) == uri
    case Asked(Refused) => events[i].op.PickFor? && events[i].op.domain == host && !PickedAt(s, events, host, i)
    case TargetFailed(uri, target) => ReportsUri(events, i, uri, target)
    case ProxyFailed(_) => true
  }

  /** The request's actions take place in order within a run shared with every other request, every sweep and
      every change of the pool: action m is event at[m]. */
  ghost predicate Within(s: Sched, events: seq<Event>, talk: seq<Action>, at: seq<nat>, host: string) {
    && |at| == |talk|
    && (forall m :: 0 <= m < |talk| ==> Happens(s, events, at[m], talk[m], host))
    && (forall m, n :: 0 <= m < n < |talk| && !talk[m].ProxyFailed? && !talk[n].ProxyFailed? ==> at[m] < at[n])
  }

  /** Circuits outlast the request. */
  ghost predicate TTLOutlasts(events: seq<Event>, talk: seq<Action>, at: seq<nat>, ttl: nat)
    requires |at| == |talk| && forall m :: 0 <= m < |at| ==> at[m] < |events|
  {
    forall m, n :: 0 <= m < n < |talk| && !talk[m].ProxyFailed? && !talk[n].ProxyFailed? ==>
      events[at[n]].now < events[at[m]].now + ttl
  }

  /** Every circuit opens for the same configured time. */
  ghost predicate OneTTL(events: seq<Event>, ttl: nat) {
    forall i :: 0 <= i < |events| && events[i].op.TargetFailed? ==> events[i].op.ttl == ttl
  }

  /** A circuit stays open for its time, whatever else happens: later failures only extend it, and
      neither picks nor sweeps close it early. */
  lemma {:induction false} CircuitStaysOpen(s: Sched, events: seq<Event>, start: Time, ttl: nat, f: nat, k: nat,
                                            uri: string, host: string, later: Time)
    requires OnClock(events, start) && OneTTL(events, ttl) && uri != "" && host != ""
    requires f < k <= |events| && ReportsUri(events, f, uri, host)
    requires events[k - 1].now <= later < events[f].now + ttl
    ensures uri in OpenCircuits(Circuits(After(s, events[..k]), host), later)
    decreases k
  {
    hide OpenCircuits, Sweep, MarkTargetFailure, Pick, Circuits;
    var e := events[k - 1];
    assert events[..k][..k - 1] == events[..k - 1];
    var before := After(s, events[..k - 1]);
    if k > f + 1 {
      assert events[k - 2].now <= e.now;
      CircuitStaysOpen(s, events, start, ttl, f, k - 1, uri, host, later);
    }
    match e.op
    case PickFor(d, pool) => PickedOpen(pool, before, d, e.now, host, later);
    case TargetFailed(u, target, t) => MarkedOpen(before, u, target, e.now, t, host, later);
    case SweepAll => SweepIsAlike(before, e.now);
  }

  lemma ChosenIsNotOpen(pool: seq<Entry>, s: Sched, domain: string, now: Time)
    ensures var r := Pick(pool, s, domain, now);
      r.choice.Some? ==> URI(pool[r.choice.value].p) !in OpenCircuits(Circuits(s, domain), now)
  {
    hide RecentOnly, ExcludedIps, OpenCircuits, URI;
  }

  lemma UriIsNotEmpty(p: Proxy)
    ensures URI(p) != ""
  {
    assert ':' in URI(p);
  }

  lemma ChosenIsNamed(s: Sched, events: seq<Event>, host: string, i: nat)
    requires i < |events| && PickedAt(s, events, host, i)
    ensures ChosenUri(s, events, host, i) != ""
  {
    hide URI, RecentOnly, ExcludedIps, OpenCircuits;
    UriIsNotEmpty(events[i].op.pool[Choice(After(s, events[..i]), events[i]).value].p);
  }

  /** A proxy whose failure for the host was reported is not handed out for it while the circuit is open. */
  lemma NotChosenAgain(s: Sched, events: seq<Event>, start: Time, ttl: nat, host: string, f: nat, j: nat, uri: string)
    requires OnClock(events, start) && OneTTL(events, ttl) && host != ""
    requires f < j < |events| && ReportsUri(events, f, uri, host) && PickedAt(s, events, host, j)
    requires events[j].now < events[f].now + ttl
    ensures ChosenUri(s, events, host, j) != uri
  {
    hide OpenCircuits, Circuits, Pick, URI;
    ChosenIsNamed(s, events, host, j);
    if uri != "" {
      assert events[j - 1].now <= events[j].now;
      CircuitStaysOpen(s, events, start, ttl, f, j, uri, host, events[j].now);
      ChosenIsNotOpen(events[j].op.pool, After(s, events[..j]), host, events[j].now);
    }
  }

  // ---- no offer is repeated ----

  /** A request that reports before it asks again is never offered a proxy twice. */
  lemma NeverOfferedAgain(s: Sched, events: seq<Event>, start: Time, ttl: nat, host: string, talk: seq<Action>, at: seq<nat>,
                          i: nat, j: nat)
    requires OnClock(events, start) && OneTTL(events, ttl) && host != ""
    requires Within(s, events, talk, at, host) && TTLOutlasts(events, talk, at, ttl)
    requires AsksFollowReports(talk, host)
    requires i < j < |talk| && talk[i].Asked? && talk[i].answer.Offered? && talk[j].Asked?
    ensures talk[i] != talk[j]
  {
    hide PickedAt, ChosenUri, ReportsUri;
    if talk[i] == talk[j] {
      var uri := talk[i].answer.uri;
      assert Settled(talk[..j], host);
      assert talk[..j][i] == Asked(Offered(uri));
      assert Action.TargetFailed(uri, host) in talk[..j];
      var f :| 0 <= f < j && talk[..j][f] == Action.TargetFailed(uri, host);
      assert Happens(s, events, at[f], talk[f], host) && Happens(s, events, at[j], talk[j], host);
      NotChosenAgain(s, events, start, ttl, host, at[f], at[j], uri);
    }
  }

  /** The k-th answer is that of some action, and later answers are of later actions. */
  lemma {:induction false} AnswerAt(talk: seq<Action>, k: nat) returns (m: nat)
    requires k < |Answers(talk)|
    ensures m < |talk| && talk[m] == Asked(Answers(talk)[k])
    ensures |Answers(talk[..m])| == k
  {
    var n := |talk| - 1;
    if talk[n].Asked? && k == |Answers(talk)| - 1 {
      m := n;
    } else {
      m := AnswerAt(talk[..n], k);
      assert talk[..n][..m] == talk[..m];
    }
  }

  lemma {:induction false} LaterAnswerLater(talk: seq<Action>, m: nat, n: nat)
    requires n <= m <= |talk|
    ensures |Answers(talk[..n])| <= |Answers(talk[..m])|
    decreases m
  {
    if n < m {
      LaterAnswerLater(talk, m - 1, n);
      assert talk[..m][..m - 1] == talk[..m - 1];
    }
  }

  lemma AnswersDiffer(s: Sched, events: seq<Event>, start: Time, ttl: nat, host: string, talk: seq<Action>, at: seq<nat>,
                      i: nat, j: nat)
    requires OnClock(events, start) && OneTTL(events, ttl) && host != ""
    requires Within(s, events, talk, at, host) && TTLOutlasts(events, talk, at, ttl)
    requires AsksFollowReports(talk, host)
    requires i < j < |Answers(talk)| && Answers(talk)[i].Offered?
    ensures Answers(talk)[i] != Answers(talk)[j]
  {
    hide Within, TTLOutlasts, AsksFollowReports, OnClock, OneTTL, Answers;
    var m := AnswerAt(talk, i);
    var n := AnswerAt(talk, j);
    if n <= m { LaterAnswerLater(talk, m, n); }
    NeverOfferedAgain(s, events, start, ttl, host, talk, at, m, n);
  }

  /** What a request of the gateway says to the pool is a conversation whose questions follow its reports. So
      for a named host, while circuits outlast the request, every question but a final refused one brings an
      attempt on a proxy not offered before: whatever other requests, sweeps and pool changes come in between,
      the request calls the scheduler once an attempt, and once more at most. */
  lemma EveryOfferIsAnAttempt(s: Sched, events: seq<Event>, start: Time, ttl: nat, host: string, talk: seq<Action>, at: seq<nat>,
                              schedule: nat -> Answer, calls: nat, log: seq<Upstream.Attempt>)
    requires OnClock(events, start) && OneTTL(events, ttl) && host != ""
    requires Within(s, events, talk, at, host) && TTLOutlasts(events, talk, at, ttl)
    requires Upstream.Conversed(talk, host, schedule, calls, log)
    ensures NoRepeats(schedule, calls)
    ensures calls == |log| || (calls == |log| + 1 && schedule(calls - 1).Refused?)
  {
    hide Within, TTLOutlasts, AsksFollowReports, OnClock, OneTTL, Answers, Reports, FirstOffers, Upstream.Uris, Upstream.Reported;
    forall i, j | 0 <= i < j < calls && schedule(i).Offered? ensures schedule(i) != schedule(j) {
      AnswersDiffer(s, events, start, ttl, host, talk, at, i, j);
      AnswersAre(talk, schedule, calls, i);
      AnswersAre(talk, schedule, calls, j);
    }
    CallsAreAttempts(schedule, calls, log);
  }

  lemma AnswersAre(talk: seq<Action>, schedule: nat -> Answer, calls: nat, k: nat)
    requires Upstream.AreAnswers(Answers(talk), schedule, 0, calls) && k < calls
    ensures |Answers(talk)| == calls && Answers(talk)[k] == schedule(k)
  {
    hide Answers;
    assert schedule(0 + k) == schedule(k);
  }

  lemma CallsAreAttempts(schedule: nat -> Answer, calls: nat, log: seq<Upstream.Attempt>)
    requires Upstream.Uris(log) == FirstOffers(schedule, calls) && OnlyOffers(schedule, 0, calls - 1)
    requires NoRepeats(schedule, calls)
    ensures calls == |log| || (calls == |log| + 1 && schedule(calls - 1).Refused?)
  {
    UrisCount(log);
    UpToRefusal(schedule, calls);
    hide FirstOffers, Upstream.Uris, OnlyOffers, NoRepeats;
    DistinctOffersAllCount(schedule, if calls > 0 && schedule(calls - 1).Refused? then calls - 1 else calls);
  }

  lemma UpToRefusal(schedule: nat -> Answer, calls: nat)
    requires OnlyOffers(schedule, 0, calls - 1) && NoRepeats(schedule, calls)
    ensures var n := if calls > 0 && schedule(calls - 1).Refused? then calls - 1 else calls;
      OnlyOffers(schedule, 0, n) && NoRepeats(schedule, n) && FirstOffers(schedule, n) == FirstOffers(schedule, calls)
  {}

  lemma {:induction false} UrisCount(log: seq<Upstream.Attempt>)
    ensures |Upstream.Uris(log)| == |log|
  {
    if log != [] { UrisCount(log[..|log| - 1]); }
  }
}
