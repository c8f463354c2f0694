/** Attempts of one client request over upstream proxies, and the request counters. The scheduler, the URL
    parser and the network are arbitrary: `schedule(k)` is the answer to the k-th scheduler call,
    `schemeOf(uri)` the lower-cased scheme when the URI parses, `exchange(a)` what attempt a comes to. */
module Upstream {
  import opened Proxies
  import opened Conversation

  const DEFAULT_MAX_ATTEMPTS: int := 3
  const MAX_CONFIGURED_ATTEMPTS: int := 10

  function AttemptLimit(configured: int): (limit: nat)
    ensures 1 <= limit <= MAX_CONFIGURED_ATTEMPTS
  {
    var wanted := if configured <= 0 then DEFAULT_MAX_ATTEMPTS else configured;
    if wanted > MAX_CONFIGURED_ATTEMPTS then MAX_CONFIGURED_ATTEMPTS else wanted
  }

  /** One attempt to ten as configured, three by default. */
  lemma AttemptLimitIs(configured: int)
    ensures AttemptLimit(configured) == if 1 <= configured <= 10 then configured else if configured <= 0 then 3 else 10
  {}

  datatype Exchange = TransportFailed | AuthRequired | Responded

  /** Dialling through an upstream; `refused` when its CONNECT answered 407 or 403. */
  datatype Dial = DialFailed(refused: bool) | DeadlineFailed | Connected

  datatype Outcome = Unparsable | Failed(scheme: string) | Rejected(scheme: string) | Succeeded(scheme: string)

  datatype Attempt = Attempt(uri: string, outcome: Outcome)

  /** Schemes a connection can be made through: the two HTTP ones, the registered SOCKS4 dialer, and those the
      proxy library knows itself. Anything else, an empty scheme included, fails before the network is reached. */
  const DIALABLE: set<string> := {"http", "https", "socks4", "socks5", "socks5h"}

  // ---- counters ----

  datatype Counter = Total(scheme: string) | Success(scheme: string) | Failure(scheme: string)
                   | AllTotal | AllSuccess | AllFailure

  /** How often a counter went up during a trace of atomic increments. */
  ghost function Times(trace: seq<Counter>, c: Counter): (r: nat) {
    multiset(trace)[c]
  }

  /** Every protocol's Total = Success + Failed. */
  ghost predicate Balanced(trace: seq<Counter>) {
    forall p: string :: Times(trace, Total(p)) == Times(trace, Success(p)) + Times(trace, Failure(p))
  }

  ghost predicate GloballyBalanced(trace: seq<Counter>) {
    Times(trace, AllTotal) == Times(trace, AllSuccess) + Times(trace, AllFailure)
  }

  ghost function Sum(traces: seq<seq<Counter>>): (r: multiset<Counter>) {
    if traces == [] then multiset{} else multiset(traces[0]) + Sum(traces[1..])
  }

  /** However the increments of finished requests interleave, balanced requests leave balanced counters. */
  lemma {:induction false} FinishedRequestsBalance(traces: seq<seq<Counter>>, interleaved: seq<Counter>)
    requires multiset(interleaved) == Sum(traces)
    ensures (forall i :: 0 <= i < |traces| ==> Balanced(traces[i])) ==> Balanced(interleaved)
    ensures (forall i :: 0 <= i < |traces| ==> GloballyBalanced(traces[i])) ==> GloballyBalanced(interleaved)
  {
    if forall i :: 0 <= i < |traces| ==> Balanced(traces[i]) {
      forall p: string
        ensures Times(interleaved, Total(p)) == Times(interleaved, Success(p)) + Times(interleaved, Failure(p))
      {
        SumBalanced(traces, p);
      }
    }
    if forall i :: 0 <= i < |traces| ==> GloballyBalanced(traces[i]) { SumGloballyBalanced(traces); }
  }

  lemma {:induction false} SumBalanced(traces: seq<seq<Counter>>, p: string)
    requires forall i :: 0 <= i < |traces| ==> Balanced(traces[i])
    ensures Sum(traces)[Total(p)] == Sum(traces)[Success(p)] + Sum(traces)[Failure(p)]
  {
    if traces != [] {
      SumBalanced(traces[1..], p);
      assert Balanced(traces[0]);
      assert Times(traces[0], Total(p)) == Times(traces[0], Success(p)) + Times(traces[0], Failure(p));
    }
  }

  lemma {:induction false} SumGloballyBalanced(traces: seq<seq<Counter>>)
    requires forall i :: 0 <= i < |traces| ==> GloballyBalanced(traces[i])
    ensures Sum(traces)[AllTotal] == Sum(traces)[AllSuccess] + Sum(traces)[AllFailure]
  {
    if traces != [] {
      SumGloballyBalanced(traces[1..]);
      assert GloballyBalanced(traces[0]);
    }
  }

  lemma TimesOfBoth(a: seq<Counter>, b: seq<Counter>, c: Counter)
    ensures Times(a + b, c) == Times(a, c) + Times(b, c)
  {}

  lemma TimesOfOne(a: Counter, c: Counter)
    ensures Times([a], c) == (if a == c then 1 else 0)
  {}

  lemma TimesOfTwo(a: Counter, b: Counter, c: Counter)
    ensures Times([a, b], c) == (if a == c then 1 else 0) + (if b == c then 1 else 0)
  {
    hide Times;
    assert [a, b] == [a] + [b];
    TimesOfBoth([a], [b], c);
    TimesOfOne(a, c);
    TimesOfOne(b, c);
  }

  // ---- what a list of attempts means ----

  function CountedFor(outcome: Outcome): (r: seq<Counter>) {
    match outcome
    case Unparsable => []
    case Failed(p) => [Total(p), Failure(p)]
    case Rejected(p) => [Total(p), Failure(p)]
    case Succeeded(p) => [Total(p)]
  }

  /** What the attempts add to the per-protocol counters. */
  function Counted(log: seq<Attempt>): (r: seq<Counter>) {
    if log == [] then [] else Counted(log[..|log| - 1]) + CountedFor(log[|log| - 1].outcome)
  }

  function ReportedFor(a: Attempt, target: string): (r: seq<Action>) {
    match a.outcome
    case Succeeded(_) => []
    case Rejected(_) => [ProxyFailed(a.uri), TargetFailed(a.uri, target)]
    case _ => [TargetFailed(a.uri, target)]
  }

  /** What the attempts report to the pool, in order. */
  function Reported(log: seq<Attempt>, target: string): (r: seq<Action>) {
    if log == [] then [] else Reported(log[..|log| - 1], target) + ReportedFor(log[|log| - 1], target)
  }

  function Uris(log: seq<Attempt>): (r: seq<string>) {
    if log == [] then [] else Uris(log[..|log| - 1]) + [log[|log| - 1].uri]
  }

  /** A request gives up early only without a scheduler, at a refusal, or after nothing but repeated offers. */
  ghost predicate GaveUp(schedule: nat -> Answer, hasScheduler: bool, calls: nat, limit: nat, uris: seq<string>) {
    || !hasScheduler
    || (calls > 0 && schedule(calls - 1).Refused?)
    || (calls >= 2 * limit && forall k :: calls - 2 * limit <= k < calls ==> schedule(k).Offered? && schedule(k).uri in uris)
  }

  ghost predicate AllFailed(log: seq<Attempt>) {
    forall i :: 0 <= i < |log| ==> !log[i].outcome.Succeeded?
  }

  /** Every attempt came to what its exchange says, and to what its dial says. */
  ghost predicate AsExchanged(log: seq<Attempt>, schemeOf: string -> Option<string>, exchange: nat -> Exchange) {
    forall i :: 0 <= i < |log| ==> log[i].outcome == OutcomeOf(schemeOf(log[i].uri), exchange(i))
  }

  ghost predicate AsDialled(log: seq<Attempt>, schemeOf: string -> Option<string>, dial: nat -> Dial) {
    forall i :: 0 <= i < |log| ==> log[i].outcome == DialOutcome(schemeOf(log[i].uri), dial(i))
  }

  lemma OneMoreFailure(log: seq<Attempt>, a: Attempt)
    requires AllFailed(log)
    ensures OnlyLastSucceeds(log + [a]) && (!a.outcome.Succeeded? ==> AllFailed(log + [a]))
  {}

  lemma OneMoreExchange(log: seq<Attempt>, a: Attempt, schemeOf: string -> Option<string>, exchange: nat -> Exchange)
    requires AsExchanged(log, schemeOf, exchange) && a.outcome == OutcomeOf(schemeOf(a.uri), exchange(|log|))
    ensures AsExchanged(log + [a], schemeOf, exchange)
  {}

  lemma OneMoreDial(log: seq<Attempt>, a: Attempt, schemeOf: string -> Option<string>, dial: nat -> Dial)
    requires AsDialled(log, schemeOf, dial) && a.outcome == DialOutcome(schemeOf(a.uri), dial(|log|))
    ensures AsDialled(log + [a], schemeOf, dial)
  {}

  lemma FailedSoFar(log: seq<Attempt>)
    requires AllFailed(log)
    ensures OnlyLastSucceeds(log) && AnsweredBy(log).None?
  {}

  /** All attempts but the last failed. */
  ghost predicate OnlyLastSucceeds(log: seq<Attempt>) {
    forall i :: 0 <= i < |log| - 1 ==> !log[i].outcome.Succeeded?
  }

  /** The scheme through which the attempts were answered, if they were. */
  function AnsweredBy(log: seq<Attempt>): (r: Option<string>) {
    if log != [] && log[|log| - 1].outcome.Succeeded? then Some(log[|log| - 1].outcome.scheme) else None
  }

  /** One more attempt, seen from the counters and the pool. */
  lemma Extend(log: seq<Attempt>, a: Attempt, target: string, counters: seq<Counter>)
    ensures counters + Counted(log + [a]) == counters + Counted(log) + CountedFor(a.outcome)
    ensures Reported(log + [a], target) == Reported(log, target) + ReportedFor(a, target)
    ensures Uris(log + [a]) == Uris(log) + [a.uri]
    ensures AnsweredBy(log + [a]) == if a.outcome.Succeeded? then Some(a.outcome.scheme) else None
  {
    hide CountedFor, ReportedFor;
    assert (log + [a])[..|log|] == log;
  }

  /** What one attempt adds, counter by counter. */
  lemma TimesForOutcome(o: Outcome, p: string)
    ensures Times(CountedFor(o), Success(p)) == 0
    ensures Times(CountedFor(o), Total(p)) == Times(CountedFor(o), Failure(p)) + (if o == Succeeded(p) then 1 else 0)
  {
    hide Times;
    if o.Succeeded? {
      TimesOfOne(Total(o.scheme), Total(p));
      TimesOfOne(Total(o.scheme), Failure(p));
      TimesOfOne(Total(o.scheme), Success(p));
    } else if !o.Unparsable? {
      TimesOfTwo(Total(o.scheme), Failure(o.scheme), Total(p));
      TimesOfTwo(Total(o.scheme), Failure(o.scheme), Failure(p));
      TimesOfTwo(Total(o.scheme), Failure(o.scheme), Success(p));
    } else {
      TimesOfNone(Total(p));
      TimesOfNone(Failure(p));
      TimesOfNone(Success(p));
    }
  }

  lemma TimesOfNone(c: Counter)
    ensures Times([], c) == 0
  {}

  lemma NoGlobalsForOutcome(o: Outcome)
    ensures Times(CountedFor(o), AllTotal) == Times(CountedFor(o), AllSuccess) == Times(CountedFor(o), AllFailure) == 0
  {}

  /** Attempts of which only the last may have succeeded are balanced but for that one's total. */
  lemma {:induction false} ReplayBalance(log: seq<Attempt>, p: string)
    requires OnlyLastSucceeds(log)
    ensures Times(Counted(log), Success(p)) == 0
    ensures Times(Counted(log), Total(p)) == Times(Counted(log), Failure(p)) + (if AnsweredBy(log) == Some(p) then 1 else 0)
  {
    hide Times, CountedFor;
    if log == [] {
      TimesOfNone(Total(p));
      TimesOfNone(Failure(p));
      TimesOfNone(Success(p));
    } else {
      var before, last := log[..|log| - 1], log[|log| - 1].outcome;
      ReplayBalance(before, p);
      TimesForOutcome(last, p);
      TimesOfBoth(Counted(before), CountedFor(last), Total(p));
      TimesOfBoth(Counted(before), CountedFor(last), Failure(p));
      TimesOfBoth(Counted(before), CountedFor(last), Success(p));
      assert AnsweredBy(before).None?;
    }
  }

  lemma {:induction false} AttemptsCountNothingGlobal(log: seq<Attempt>)
    ensures Times(Counted(log), AllTotal) == Times(Counted(log), AllSuccess) == Times(Counted(log), AllFailure) == 0
  {
    hide Times, CountedFor;
    if log == [] {
      TimesOfNone(AllTotal);
      TimesOfNone(AllSuccess);
      TimesOfNone(AllFailure);
    } else {
      var before, last := log[..|log| - 1], log[|log| - 1].outcome;
      AttemptsCountNothingGlobal(before);
      NoGlobalsForOutcome(last);
      TimesOfBoth(Counted(before), CountedFor(last), AllTotal);
      TimesOfBoth(Counted(before), CountedFor(last), AllSuccess);
      TimesOfBoth(Counted(before), CountedFor(last), AllFailure);
    }
  }

  /** The counters that finish a request after its attempts. */
  function Ending(delivered: bool, answered: Option<string>): (r: seq<Counter>) {
    if answered.None? then [AllFailure]
    else if delivered then [AllSuccess, Success(answered.value)]
    else [AllFailure, Failure(answered.value)]
  }

  lemma TimesInEnding(delivered: bool, answered: Option<string>, p: string)
    ensures var e := Ending(delivered, answered);
      && Times(e, Total(p)) == 0
      && Times(e, Success(p)) == (if delivered && answered == Some(p) then 1 else 0)
      && Times(e, Failure(p)) == (if !delivered && answered == Some(p) then 1 else 0)
  {
    hide Times;
    if answered.None? {
      TimesOfOne(AllFailure, Total(p));
      TimesOfOne(AllFailure, Success(p));
      TimesOfOne(AllFailure, Failure(p));
    } else {
      var a := if delivered then AllSuccess else AllFailure;
      var b := if delivered then Success(answered.value) else Failure(answered.value);
      TimesOfTwo(a, b, Total(p));
      TimesOfTwo(a, b, Success(p));
      TimesOfTwo(a, b, Failure(p));
    }
  }

  lemma GlobalsInEnding(delivered: bool, answered: Option<string>)
    ensures var e := Ending(delivered, answered);
      && Times(e, AllTotal) == 0
      && Times(e, AllSuccess) == (if delivered && answered.Some? then 1 else 0)
      && Times(e, AllFailure) == (if delivered && answered.Some? then 0 else 1)
  {}

  /** What a request adds by its end: every protocol balanced, a success for the one that answered if the answer was
      delivered, and one global outcome. */
  ghost predicate EndsBalanced(trace: seq<Counter>, delivered: bool, answered: Option<string>) {
    && Balanced(trace)
    && (forall p: string :: Times(trace, Success(p)) == if delivered && answered == Some(p) then 1 else 0)
    && Times(trace, AllTotal) == 0
    && Times(trace, AllSuccess) == (if delivered && answered.Some? then 1 else 0)
    && Times(trace, AllSuccess) + Times(trace, AllFailure) == 1
  }

  lemma AttemptsAndEndingBalance(log: seq<Attempt>, delivered: bool)
    requires OnlyLastSucceeds(log)
    ensures EndsBalanced(Counted(log) + Ending(delivered, AnsweredBy(log)), delivered, AnsweredBy(log))
  {
    hide Times, Counted, Ending, AnsweredBy;
    var answered := AnsweredBy(log);
    var a, b := Counted(log), Ending(delivered, answered);
    forall p: string
      ensures Times(a + b, Total(p)) == Times(a + b, Success(p)) + Times(a + b, Failure(p))
      ensures Times(a + b, Success(p)) == if delivered && answered == Some(p) then 1 else 0
    {
      ReplayBalance(log, p);
      TimesInEnding(delivered, answered, p);
      TimesOfBoth(a, b, Total(p));
      TimesOfBoth(a, b, Success(p));
      TimesOfBoth(a, b, Failure(p));
    }
    AttemptsCountNothingGlobal(log);
    GlobalsInEnding(delivered, answered);
    TimesOfBoth(a, b, AllTotal);
    TimesOfBoth(a, b, AllSuccess);
    TimesOfBoth(a, b, AllFailure);
  }

  /** Counting the request itself first. */
  lemma WithTotal(trace: seq<Counter>)
    requires Times(trace, AllTotal) == 0
    ensures Times([AllTotal] + trace, AllTotal) == 1
    ensures Balanced([AllTotal] + trace) <==> Balanced(trace)
    ensures GloballyBalanced([AllTotal] + trace) <==> Times(trace, AllSuccess) + Times(trace, AllFailure) == 1
  {
    hide Times;
    forall c: Counter
      ensures Times([AllTotal] + trace, c) == Times(trace, c) + (if c == AllTotal then 1 else 0)
    {
      TimesOfBoth([AllTotal], trace, c);
      TimesOfOne(AllTotal, c);
    }
  }

  // ---- the attempts as a conversation ----

  /** The scheduler's answers from the from-th up to the to-th call. */
  ghost predicate AreAnswers(answers: seq<Answer>, schedule: nat -> Answer, from: nat, to: nat) {
    from + |answers| == to && forall k :: 0 <= k < |answers| ==> answers[k] == schedule(from + k)
  }

  lemma AnswersOfBoth(a: seq<Answer>, b: seq<Answer>, schedule: nat -> Answer, calls: nat, made: nat)
    requires AreAnswers(a, schedule, 0, calls) && AreAnswers(b, schedule, calls, made)
    ensures AreAnswers(a + b, schedule, 0, made)
  {}

  ghost predicate OnlyRepeats(schedule: nat -> Answer, from: nat, to: int, uris: seq<string>) {
    forall k :: from <= k < to ==> schedule(k).Offered? && schedule(k).uri in uris
  }

  ghost predicate AllReported(uris: seq<string>, talk: seq<Action>, target: string) {
    forall uri :: uri in uris ==> TargetFailed(uri, target) in talk
  }

  /** What a request said to the pool while it made the attempts in the log: it asked `calls` times and got the
      scheduler's answers, attempted every proxy at its first offer, reported each failed attempt in order, and
      never asked again before everything it had been offered was reported. Only the last answer may be a refusal. */
  ghost predicate Conversed(talk: seq<Action>, target: string, schedule: nat -> Answer, calls: nat, log: seq<Attempt>) {
    && AreAnswers(Answers(talk), schedule, 0, calls)
    && Reports(talk) == Reported(log, target)
    && Uris(log) == FirstOffers(schedule, calls)
    && AsksFollowReports(talk, target)
    && OnlyOffers(schedule, 0, calls - 1)
  }

  /** The same between two rounds: the last answer was an offer too, and all attempts are reported. */
  ghost predicate Underway(talk: seq<Action>, target: string, schedule: nat -> Answer, calls: nat, log: seq<Attempt>) {
    && Conversed(talk, target, schedule, calls, log)
    && OnlyOffers(schedule, 0, calls)
    && Settled(talk, target)
    && AllReported(Uris(log), talk, target)
  }

  lemma UnderwayParts(talk: seq<Action>, target: string, schedule: nat -> Answer, calls: nat, log: seq<Attempt>)
    requires Underway(talk, target, schedule, calls, log)
    ensures Conversed(talk, target, schedule, calls, log) && Uris(log) == FirstOffers(schedule, calls)
  {}

  lemma AttemptsDiffer(talk: seq<Action>, target: string, schedule: nat -> Answer, calls: nat, log: seq<Attempt>)
    requires Conversed(talk, target, schedule, calls, log)
    ensures Distinct(Uris(log))
  {
    FirstOffersAreDistinct(schedule, calls);
  }

  lemma NothingSaid(target: string, schedule: nat -> Answer)
    ensures Underway([], target, schedule, 0, [])
  {}

  lemma AnswersGrow(talk: seq<Action>, schedule: nat -> Answer, calls: nat, made: nat, reports: seq<Action>)
    requires calls <= made && AreAnswers(Answers(talk), schedule, 0, calls)
    requires Answers(reports) == [] && Reports(reports) == reports
    ensures var t := talk + Asks(schedule, calls, made) + reports;
      AreAnswers(Answers(t), schedule, 0, made) && Reports(t) == Reports(talk) + reports
  {
    var asks := Asks(schedule, calls, made);
    SidesOfBoth(talk + asks, reports);
    SidesOfBoth(talk, asks);
    AsksAsk(schedule, calls, made);
    assert AreAnswers(Answers(asks), schedule, calls, made);
    hide Answers, Reports, Asks, AreAnswers;
    AnswersOfBoth(Answers(talk), Answers(asks), schedule, calls, made);
    assert Answers(talk) + Answers(asks) + [] == Answers(talk) + Answers(asks);
    assert Reports(talk) + [] == Reports(talk);
  }

  lemma ReportsReport(a: Attempt, target: string)
    ensures Answers(ReportedFor(a, target)) == [] && Reports(ReportedFor(a, target)) == ReportedFor(a, target)
    ensures forall r :: r in ReportedFor(a, target) ==> !r.Asked?
    ensures !a.outcome.Succeeded? ==> TargetFailed(a.uri, target) in ReportedFor(a, target)
  {
    SidesOfBoth([ProxyFailed(a.uri)], [TargetFailed(a.uri, target)]);
    OneReport(ProxyFailed(a.uri));
    OneReport(TargetFailed(a.uri, target));
    assert [ProxyFailed(a.uri), TargetFailed(a.uri, target)] == [ProxyFailed(a.uri)] + [TargetFailed(a.uri, target)];
  }

  lemma OneReport(r: Action)
    requires !r.Asked?
    ensures Answers([r]) == [] && Reports([r]) == [r]
  {
    assert [r][..0] == [];
  }

  /** Asking until an offer is new: everything before it was a repeated offer, reported long ago. */
  lemma AskedForNew(talk: seq<Action>, target: string, schedule: nat -> Answer, calls: nat, made: nat, log: seq<Attempt>)
    requires Underway(talk, target, schedule, calls, log) && calls < made
    requires OnlyRepeats(schedule, calls, made - 1, Uris(log))
    ensures AsksFollowReports(talk + Asks(schedule, calls, made), target)
    ensures forall u :: Asked(Offered(u)) in talk + Asks(schedule, calls, made) && Offered(u) != schedule(made - 1) ==>
      TargetFailed(u, target) in talk + Asks(schedule, calls, made)
    ensures schedule(made - 1).Refused? || schedule(made - 1).uri in Uris(log) ==>
      Settled(talk + Asks(schedule, calls, made), target)
  {
    RepeatedAsks(talk, schedule, calls, made - 1, target);
    var before := talk + Asks(schedule, calls, made - 1);
    hide Conversed, Answers, Reports, Uris;
    assert Settled(before, target);
    OneMoreAsk(before, schedule(made - 1), target);
    assert talk + Asks(schedule, calls, made) == before + [Asked(schedule(made - 1))];
  }

  /** The order of one round: asking until an offer is new, attempting it, and reporting its failure. */
  lemma RoundInOrder(talk: seq<Action>, target: string, schedule: nat -> Answer, calls: nat, made: nat, log: seq<Attempt>, a: Attempt)
    requires Underway(talk, target, schedule, calls, log) && calls < made
    requires OnlyRepeats(schedule, calls, made - 1, Uris(log))
    requires schedule(made - 1) == Offered(a.uri)
    ensures var t := talk + Asks(schedule, calls, made) + ReportedFor(a, target);
      AsksFollowReports(t, target) && (!a.outcome.Succeeded? ==> Settled(t, target))
  {
    hide Conversed, Answers, Reports, Uris, Settled, AsksFollowReports, Asks, ReportedFor;
    ReportsReport(a, target);
    AskedForNew(talk, target, schedule, calls, made, log);
    ThenReports(talk + Asks(schedule, calls, made), ReportedFor(a, target), a.uri, target);
  }

  lemma RoundAnswered(talk: seq<Action>, target: string, schedule: nat -> Answer, calls: nat, made: nat, log: seq<Attempt>, a: Attempt)
    requires Conversed(talk, target, schedule, calls, log) && calls < made
    requires FirstOffers(schedule, made) == Uris(log) + [a.uri]
    ensures var t := talk + Asks(schedule, calls, made) + ReportedFor(a, target);
      && AreAnswers(Answers(t), schedule, 0, made) && Reports(t) == Reported(log + [a], target)
      && Uris(log + [a]) == FirstOffers(schedule, made)
  {
    hide Answers, Reports, Uris, Asks, Reported, ReportedFor, FirstOffers, AreAnswers, AsksFollowReports, Counted, CountedFor, AnsweredBy;
    ReportsReport(a, target);
    AnswersGrow(talk, schedule, calls, made, ReportedFor(a, target));
    Extend(log, a, target, []);
  }

  lemma OffersGrow(schedule: nat -> Answer, calls: nat, made: nat, uris: seq<string>)
    requires OnlyOffers(schedule, 0, calls) && calls < made && schedule(made - 1).Offered?
    requires OnlyRepeats(schedule, calls, made - 1, uris)
    ensures OnlyOffers(schedule, 0, made)
  {}

  lemma Round(talk: seq<Action>, target: string, schedule: nat -> Answer, calls: nat, made: nat, log: seq<Attempt>, a: Attempt)
    requires Underway(talk, target, schedule, calls, log) && calls < made
    requires OnlyRepeats(schedule, calls, made - 1, Uris(log))
    requires schedule(made - 1) == Offered(a.uri) && FirstOffers(schedule, made) == Uris(log) + [a.uri]
    ensures var t := talk + Asks(schedule, calls, made) + ReportedFor(a, target);
      && Conversed(t, target, schedule, made, log + [a])
      && (!a.outcome.Succeeded? ==> Underway(t, target, schedule, made, log + [a]))
  {
    RoundInOrder(talk, target, schedule, calls, made, log, a);
    RoundAnswered(talk, target, schedule, calls, made, log, a);
    OffersGrow(schedule, calls, made, Uris(log));
    ReportsReport(a, target);
    Extend(log, a, target, []);
    AttemptsReported(Uris(log), a.uri, talk, Asks(schedule, calls, made), ReportedFor(a, target), target);
    OffersButLast(schedule, made);
    hide Answers, AreAnswers, Reports, Uris, Reported, ReportedFor, Settled, AsksFollowReports, Asks, FirstOffers, Counted, CountedFor,
         AnsweredBy, OnlyOffers, OnlyRepeats, AllReported;
  }

  lemma OffersButLast(schedule: nat -> Answer, made: nat)
    ensures OnlyOffers(schedule, 0, made) ==> OnlyOffers(schedule, 0, made - 1)
  {}

  lemma AttemptsReported(uris: seq<string>, uri: string, talk: seq<Action>, asks: seq<Action>, reports: seq<Action>, target: string)
    requires AllReported(uris, talk, target)
    ensures TargetFailed(uri, target) in reports ==> AllReported(uris + [uri], talk + asks + reports, target)
  {
    assert forall u :: u in uris + [uri] ==> u in uris || u == uri;
  }

  /** Asking to no avail. */
  lemma AskedInVain(talk: seq<Action>, target: string, schedule: nat -> Answer, calls: nat, made: nat, log: seq<Attempt>)
    requires Underway(talk, target, schedule, calls, log) && calls <= made && FirstOffers(schedule, made) == Uris(log)
    requires OnlyRepeats(schedule, calls, made - 1, Uris(log))
    ensures Conversed(talk + Asks(schedule, calls, made), target, schedule, made, log)
  {
    var asks := Asks(schedule, calls, made);
    AnswersGrow(talk, schedule, calls, made, []);
    assert talk + asks + [] == talk + asks;
    if calls < made {
      AskedForNew(talk, target, schedule, calls, made, log);
    } else {
      assert talk + asks == talk;
    }
    hide Answers, Reports, Uris, Reported, AsksFollowReports, Settled, Asks, FirstOffers;
  }

  // ---- what the exchanges came to ----

  /** The upstream's URI parses to a scheme a connection can be made through. */
  predicate Dialable(scheme: Option<string>) {
    scheme.Some? && scheme.value in {"http", "https", "socks4", "socks5", "socks5h"}
  }

  /** A request is answered if its last attempt was, and only by a response other than a proxy's own 407: that one is
      reported as the proxy's failure. Every attempt that is not the answer is reported as failed for the target, and
      nothing else is reported. `responds` and `refuses` say what the network makes of attempt i. */
  ghost predicate Told(log: seq<Attempt>, talk: seq<Action>, target: string, answered: Option<string>,
                       schemeOf: string -> Option<string>, responds: nat -> bool, refuses: nat -> bool) {
    && (answered.Some? <==> log != [] && Dialable(schemeOf(log[|log| - 1].uri)) && responds(|log| - 1))
    && (answered.Some? ==> answered == schemeOf(log[|log| - 1].uri))
    && (forall i :: 0 <= i < |log| - 1 ==> !(Dialable(schemeOf(log[i].uri)) && responds(i)))
    && (forall i :: 0 <= i < |log| ==>
          (ProxyFailed(log[i].uri) in talk <==> Dialable(schemeOf(log[i].uri)) && refuses(i)))
    && (forall i :: 0 <= i < |log| ==>
          (TargetFailed(log[i].uri, target) in talk <==> !(answered.Some? && i == |log| - 1)))
    && (forall a :: a in talk && !a.Asked? ==>
          exists i :: 0 <= i < |log| && (a == ProxyFailed(log[i].uri) || a == TargetFailed(log[i].uri, target)))
  }

  lemma {:induction false} InReports(talk: seq<Action>, a: Action)
    requires !a.Asked?
    ensures a in talk <==> a in Reports(talk)
  {
    if talk != [] {
      InReports(talk[..|talk| - 1], a);
      assert talk == talk[..|talk| - 1] + [talk[|talk| - 1]];
    }
  }

  lemma {:induction false} InReported(log: seq<Attempt>, target: string, a: Action)
    ensures a in Reported(log, target) <==> exists i :: 0 <= i < |log| && a in ReportedFor(log[i], target)
  {
    hide ReportedFor;
    if log != [] {
      InReported(log[..|log| - 1], target, a);
      assert forall i :: 0 <= i < |log| - 1 ==> log[..|log| - 1][i] == log[i];
    }
  }

  lemma {:induction false} UriOfAttempt(log: seq<Attempt>)
    ensures |Uris(log)| == |log| && forall i :: 0 <= i < |log| ==> Uris(log)[i] == log[i].uri
  {
    if log != [] {
      UriOfAttempt(log[..|log| - 1]);
    }
  }

  /** Of different upstreams each is reported exactly as its own attempt says. */
  lemma ReportedAsAttempted(log: seq<Attempt>, target: string, i: nat)
    requires Distinct(Uris(log)) && i < |log|
    ensures ProxyFailed(log[i].uri) in Reported(log, target) <==> log[i].outcome.Rejected?
    ensures TargetFailed(log[i].uri, target) in Reported(log, target) <==> !log[i].outcome.Succeeded?
  {
    UriOfAttempt(log);
    hide Reported, Uris;
    InReported(log, target, ProxyFailed(log[i].uri));
    InReported(log, target, TargetFailed(log[i].uri, target));
  }

  /** What attempt i came to. */
  predicate CameTo(o: Outcome, scheme: Option<string>, responds: bool, refuses: bool) {
    && (o.Succeeded? <==> Dialable(scheme) && responds)
    && (o.Succeeded? ==> Some(o.scheme) == scheme)
    && (o.Rejected? <==> Dialable(scheme) && refuses)
  }

  lemma AttemptsTold(log: seq<Attempt>, talk: seq<Action>, target: string, schemeOf: string -> Option<string>,
                     responds: nat -> bool, refuses: nat -> bool)
    requires Reports(talk) == Reported(log, target) && Distinct(Uris(log)) && OnlyLastSucceeds(log)
    requires forall i :: 0 <= i < |log| ==> CameTo(log[i].outcome, schemeOf(log[i].uri), responds(i), refuses(i))
    ensures Told(log, talk, target, AnsweredBy(log), schemeOf, responds, refuses)
  {
    hide Dialable, Reports, Reported, Uris, Distinct, ReportedFor;
    forall i | 0 <= i < |log|
      ensures ProxyFailed(log[i].uri) in talk <==> log[i].outcome.Rejected?
      ensures TargetFailed(log[i].uri, target) in talk <==> !log[i].outcome.Succeeded?
    {
      ReportedAsAttempted(log, target, i);
      InReports(talk, ProxyFailed(log[i].uri));
      InReports(talk, TargetFailed(log[i].uri, target));
    }
    forall a | a in talk && !a.Asked?
      ensures exists i :: 0 <= i < |log| && (a == ProxyFailed(log[i].uri) || a == TargetFailed(log[i].uri, target))
    {
      InReports(talk, a);
      InReported(log, target, a);
      var i :| 0 <= i < |log| && a in ReportedFor(log[i], target);
      ReportNames(log[i], target, a);
    }
  }

  lemma ReportNames(t: Attempt, target: string, a: Action)
    requires a in ReportedFor(t, target)
    ensures a == ProxyFailed(t.uri) || a == TargetFailed(t.uri, target)
  {}

  ghost predicate ExchangesTold(log: seq<Attempt>, talk: seq<Action>, target: string, answered: Option<string>,
                                schemeOf: string -> Option<string>, exchange: nat -> Exchange) {
    Told(log, talk, target, answered, schemeOf, (i: nat) => exchange(i) == Responded, (i: nat) => exchange(i) == AuthRequired)
  }

  ghost predicate DialsTold(log: seq<Attempt>, talk: seq<Action>, target: string, connected: Option<string>,
                            schemeOf: string -> Option<string>, dial: nat -> Dial) {
    Told(log, talk, target, connected, schemeOf, (i: nat) => dial(i) == Connected, (i: nat) => dial(i) == DialFailed(true))
  }

  lemma ExchangesAreTold(log: seq<Attempt>, talk: seq<Action>, target: string, schedule: nat -> Answer, calls: nat,
                         schemeOf: string -> Option<string>, exchange: nat -> Exchange)
    requires Conversed(talk, target, schedule, calls, log) && Distinct(Uris(log)) && OnlyLastSucceeds(log)
    requires AsExchanged(log, schemeOf, exchange)
    ensures ExchangesTold(log, talk, target, AnsweredBy(log), schemeOf, exchange)
  {
    hide Reports, Reported, Uris, Distinct, Told, AnsweredBy, OnlyLastSucceeds;
    AttemptsTold(log, talk, target, schemeOf, (i: nat) => exchange(i) == Responded, (i: nat) => exchange(i) == AuthRequired);
  }

  lemma DialsAreTold(log: seq<Attempt>, talk: seq<Action>, target: string, schedule: nat -> Answer, calls: nat,
                     schemeOf: string -> Option<string>, dial: nat -> Dial)
    requires Conversed(talk, target, schedule, calls, log) && Distinct(Uris(log)) && OnlyLastSucceeds(log)
    requires AsDialled(log, schemeOf, dial)
    ensures DialsTold(log, talk, target, AnsweredBy(log), schemeOf, dial)
  {
    hide Reports, Reported, Uris, Distinct, Told, AnsweredBy, OnlyLastSucceeds;
    AttemptsTold(log, talk, target, schemeOf, (i: nat) => dial(i) == Connected, (i: nat) => dial(i) == DialFailed(true));
  }

  /** How many attempts went through upstreams of a scheme. */
  function AttemptsThrough(log: seq<Attempt>, schemeOf: string -> Option<string>, p: string): (n: nat) {
    if log == [] then 0
    else AttemptsThrough(log[..|log| - 1], schemeOf, p) + (if schemeOf(log[|log| - 1].uri) == Some(p) then 1 else 0)
  }

  /** A protocol's total goes up by one for each attempt through it. */
  lemma {:induction false} TotalsAreAttempts(log: seq<Attempt>, schemeOf: string -> Option<string>, p: string)
    requires forall i :: 0 <= i < |log| ==>
      if schemeOf(log[i].uri).None? then log[i].outcome.Unparsable?
      else !log[i].outcome.Unparsable? && log[i].outcome.scheme == schemeOf(log[i].uri).value
    ensures Times(Counted(log), Total(p)) == AttemptsThrough(log, schemeOf, p)
  {
    hide Times;
    if log == [] {
      TimesOfNone(Total(p));
    } else {
      var before, last := log[..|log| - 1], log[|log| - 1];
      assert forall i :: 0 <= i < |before| ==> before[i] == log[i];
      TotalsAreAttempts(before, schemeOf, p);
      TimesOfBoth(Counted(before), CountedFor(last.outcome), Total(p));
      TotalOfOutcome(last.outcome, p);
    }
  }

  /** Each attempt through a protocol is counted there once, and as failed unless it was the answer. */
  lemma AttemptsAreCounted(log: seq<Attempt>, schemeOf: string -> Option<string>, exchange: nat -> Exchange, p: string)
    requires AsExchanged(log, schemeOf, exchange) && OnlyLastSucceeds(log)
    ensures Times(Counted(log), Total(p)) == AttemptsThrough(log, schemeOf, p)
    ensures Times(Counted(log), Success(p)) == 0
    ensures Times(Counted(log), Failure(p)) == AttemptsThrough(log, schemeOf, p) - (if AnsweredBy(log) == Some(p) then 1 else 0)
  {
    hide Times, Counted, AttemptsThrough;
    TotalsAreAttempts(log, schemeOf, p);
    ReplayBalance(log, p);
  }

  lemma DialsAreCounted(log: seq<Attempt>, schemeOf: string -> Option<string>, dial: nat -> Dial, p: string)
    requires AsDialled(log, schemeOf, dial) && OnlyLastSucceeds(log)
    ensures Times(Counted(log), Total(p)) == AttemptsThrough(log, schemeOf, p)
    ensures Times(Counted(log), Success(p)) == 0
    ensures Times(Counted(log), Failure(p)) == AttemptsThrough(log, schemeOf, p) - (if AnsweredBy(log) == Some(p) then 1 else 0)
  {
    hide Times, Counted, AttemptsThrough;
    TotalsAreAttempts(log, schemeOf, p);
    ReplayBalance(log, p);
  }

  lemma TotalOfOutcome(o: Outcome, p: string)
    ensures Times(CountedFor(o), Total(p)) == if !o.Unparsable? && o.scheme == p then 1 else 0
  {
    hide Times;
    if o.Succeeded? {
      TimesOfOne(Total(o.scheme), Total(p));
    } else if !o.Unparsable? {
      TimesOfTwo(Total(o.scheme), Failure(o.scheme), Total(p));
    } else {
      TimesOfNone(Total(p));
    }
  }

  // ---- the gateway ----

  /** The part of a request that decides whether it may be sent twice. */
  datatype Request = Request(method_: string, hasBody: bool, host: string)

  predicate IsSafeToRetry(r: Request) {
    !r.hasBody && r.method_ in {"GET", "HEAD", "OPTIONS", "TRACE"}
  }

  /** A request is repeated only if it has no body and its method is one of these four. */
  lemma SafeToRetry(r: Request)
    ensures IsSafeToRetry(r) <==> !r.hasBody && r.method_ in {"GET", "HEAD", "OPTIONS", "TRACE"}
  {}

  /** What the client side of one plain request comes to after an upstream answered. */
  datatype Delivery = DumpFailed | BodyFailed | WriteFailed | Delivered

  class Gateway {
    const maxUpstreamAttempts: int
    const hasScheduler: bool
    const enableMITM: bool
    var counters: seq<Counter>
    var actions: seq<Action>

    constructor (maxUpstreamAttempts: int, hasScheduler: bool, enableMITM: bool)
      ensures counters == [] && actions == []
    {
      this.maxUpstreamAttempts, this.hasScheduler, this.enableMITM := maxUpstreamAttempts, hasScheduler, enableMITM;
      counters, actions := [], [];
    }

    method Add(c: Counter)
      modifies this`counters
      ensures counters == old(counters) + [c]
    {
      counters := counters + [c];
    }

    method Report(r: Action)
      modifies this`actions
      ensures actions == old(actions) + [r]
    {
      actions := actions + [r];
    }

    /** The first offer not tried yet, within twice the attempt limit of scheduler calls. */
    method NextProxy(schedule: nat -> Answer, calls: nat, tried: seq<string>) returns (uri: Option<string>, made: nat)
      requires tried == FirstOffers(schedule, calls)
      modifies this`actions
      ensures calls <= made <= calls + 2 * AttemptLimit(maxUpstreamAttempts)
      ensures actions == old(actions) + Asks(schedule, calls, made)
      ensures OnlyRepeats(schedule, calls, made - 1, tried)
      ensures uri.Some? ==> made > calls && schedule(made - 1) == Offered(uri.value)
      ensures FirstOffers(schedule, made) == if uri.Some? then tried + [uri.value] else tried
      ensures uri.None? ==> GaveUp(schedule, hasScheduler, made, AttemptLimit(maxUpstreamAttempts), tried)
    {
      hide AttemptLimit;
      made := calls;
      if !hasScheduler {
        return None, made;
      }
      for n := 0 to AttemptLimit(maxUpstreamAttempts) * 2
        invariant made == calls + n
        invariant actions == old(actions) + Asks(schedule, calls, made)
        invariant forall k :: calls <= k < made ==> schedule(k).Offered? && schedule(k).uri in tried
      {
        RepeatedOffers(schedule, calls, made);
        var answer := schedule(made);
        actions := actions + [Asked(answer)];
        made := made + 1;
        if answer.Refused? {
          return None, made;
        }
        if answer.uri !in tried {
          return Some(answer.uri), made;
        }
      }
      RepeatedOffers(schedule, calls, made);
      return None, made;
    }

    /** Attempts upstreams until one answers. Every attempt is on an upstream not tried before, fails
        before the next one starts, is counted under its protocol and reported for the target. */
    method ReplayRequest(r: Request, schedule: nat -> Answer, schemeOf: string -> Option<string>, exchange: nat -> Exchange)
      returns (answered: Option<string>, log: seq<Attempt>, calls: nat, talk: seq<Action>)
      modifies this`counters, this`actions
      ensures |log| <= (if !r.hasBody && r.method_ in {"GET", "HEAD", "OPTIONS", "TRACE"} then AttemptLimit(maxUpstreamAttempts) else 1)
      ensures calls <= CallBudget(AttemptLimit(maxUpstreamAttempts), |log| + 1)
      ensures Conversed(talk, r.host, schedule, calls, log) && Distinct(Uris(log))
      ensures OnlyLastSucceeds(log)
      ensures AsExchanged(log, schemeOf, exchange)
      ensures answered == AnsweredBy(log)
      ensures ExchangesTold(log, talk, r.host, answered, schemeOf, exchange)
      ensures answered.None? && |log| < (if !r.hasBody && r.method_ in {"GET", "HEAD", "OPTIONS", "TRACE"} then AttemptLimit(maxUpstreamAttempts) else 1) ==>
        GaveUp(schedule, hasScheduler, calls, AttemptLimit(maxUpstreamAttempts), Uris(log))
      ensures counters == old(counters) + Counted(log)
      ensures actions == old(actions) + talk
    {
      hide Counted, Reported, CountedFor, ReportedFor, Uris, FirstOffers, GaveUp, Distinct, IsSafeToRetry, AttemptLimit, CallBudget,
           OutcomeOf, Answers, Reports, Asks, AsksFollowReports, Settled, Conversed, Underway,
           AllFailed, AsExchanged, AsDialled, OnlyLastSucceeds, AnsweredBy, ExchangesTold;
      SafeToRetry(r);
      var limit := if IsSafeToRetry(r) then AttemptLimit(maxUpstreamAttempts) else 1;
      answered, log, calls, talk := None, [], 0, [];
      NothingYet();
      NothingSaid(r.host, schedule);
      NoExchanges(schemeOf, exchange);
      while |log| < limit
        invariant |log| <= limit
        invariant calls <= CallBudget(AttemptLimit(maxUpstreamAttempts), |log|)
        invariant Underway(talk, r.host, schedule, calls, log)
        invariant AsExchanged(log, schemeOf, exchange) && AllFailed(log)
        invariant answered.None?
        invariant counters == old(counters) + Counted(log)
        invariant actions == old(actions) + talk
        decreases limit - |log|
      {
        UnderwayParts(talk, r.host, schedule, calls, log);
        var uri, made := NextProxy(schedule, calls, Uris(log));
        CallsGrow(calls, made, AttemptLimit(maxUpstreamAttempts), |log|);
        if uri.None? {
          AskedInVain(talk, r.host, schedule, calls, made, log);
          Regroup(old(actions), talk, Asks(schedule, calls, made), []);
          talk := talk + Asks(schedule, calls, made);
          calls := made;
          FailedSoFar(log);
          AttemptsDiffer(talk, r.host, schedule, calls, log);
          ExchangesAreTold(log, talk, r.host, schedule, calls, schemeOf, exchange);
          return;
        }
        var a := Exchanged(uri.value, |log|, schemeOf, exchange, r.host);
        Extend(log, a, r.host, old(counters));
        OneMoreFailure(log, a);
        OneMoreExchange(log, a, schemeOf, exchange);
        Round(talk, r.host, schedule, calls, made, log, a);
        Regroup(old(actions), talk, Asks(schedule, calls, made), ReportedFor(a, r.host));
        talk := talk + Asks(schedule, calls, made) + ReportedFor(a, r.host);
        calls, log := made, log + [a];
        if a.outcome.Succeeded? {
          BudgetGrows(AttemptLimit(maxUpstreamAttempts), |log|);
          AttemptsDiffer(talk, r.host, schedule, calls, log);
          ExchangesAreTold(log, talk, r.host, schedule, calls, schemeOf, exchange);
          answered := Some(a.outcome.scheme);
          return;
        }
      }
      BudgetGrows(AttemptLimit(maxUpstreamAttempts), |log|);
      FailedSoFar(log);
      UnderwayParts(talk, r.host, schedule, calls, log);
      AttemptsDiffer(talk, r.host, schedule, calls, log);
      ExchangesAreTold(log, talk, r.host, schedule, calls, schemeOf, exchange);
    }

    /** One attempt through one upstream. */
    method Exchanged(uri: string, n: nat, schemeOf: string -> Option<string>, exchange: nat -> Exchange, host: string)
      returns (a: Attempt)
      modifies this`counters, this`actions
      ensures a == Attempt(uri, OutcomeOf(schemeOf(uri), exchange(n)))
      ensures counters == old(counters) + CountedFor(a.outcome)
      ensures actions == old(actions) + ReportedFor(a, host)
    {
      hide DIALABLE;
      var scheme := schemeOf(uri);
      if scheme.None? {
        Report(TargetFailed(uri, host));
        return Attempt(uri, Unparsable);
      }
      Add(Total(scheme.value));
      match if scheme.value in DIALABLE then exchange(n) else TransportFailed
      case TransportFailed =>
        Add(Failure(scheme.value));
        Report(TargetFailed(uri, host));
        return Attempt(uri, Failed(scheme.value));
      case AuthRequired =>
        Add(Failure(scheme.value));
        Report(ProxyFailed(uri));
        Report(TargetFailed(uri, host));
        return Attempt(uri, Rejected(scheme.value));
      case Responded =>
        return Attempt(uri, Succeeded(scheme.value));
    }

    /** A plain request: exactly one global success or failure, and every protocol balanced, on every path.
        The guard on an empty scheme leaves nothing uncounted, as no such upstream can answer. */
    method Dump(r: Request, requestDumps: bool, delivery: Delivery,
                schedule: nat -> Answer, schemeOf: string -> Option<string>, exchange: nat -> Exchange)
      returns (trace: seq<Counter>, log: seq<Attempt>, talk: seq<Action>)
      modifies this`counters, this`actions
      ensures counters == old(counters) + trace
      ensures actions == old(actions) + talk && exists calls :: Conversed(talk, r.host, schedule, calls, log)
      ensures EndsBalanced(trace, delivery.Delivered?, AnsweredBy(log))
      ensures ExchangesTold(log, talk, r.host, AnsweredBy(log), schemeOf, exchange)
      ensures !requestDumps ==> log == []
    {
      hide Times, Counted, Reported, EndsBalanced, Conversed, AttemptLimit, IsSafeToRetry, CallBudget, GaveUp, FirstOffers, OutcomeOf,
           ExchangesTold;
      if !requestDumps {
        Add(AllFailure);
        log, talk := [], [];
        NothingYet();
        NothingSaid(r.host, schedule);
        assert Conversed(talk, r.host, schedule, 0, log);
        NoExchanges(schemeOf, exchange);
        FailedSoFar(log);
        ExchangesAreTold(log, talk, r.host, schedule, 0, schemeOf, exchange);
        AttemptsAndEndingBalance([], delivery.Delivered?);
        trace := [AllFailure];
        assert trace == Counted([]) + [AllFailure];
        return;
      }
      var answered, attempts, calls, said := ReplayRequest(r, schedule, schemeOf, exchange);
      log, talk := attempts, said;
      AnswersAreDialable(log, schemeOf, exchange);
      AttemptsAndEndingBalance(log, delivery.Delivered?);
      var delivered := answered.Some? && delivery == Delivered;
      Add(if delivered then AllSuccess else AllFailure);
      if answered.Some? && answered.value != "" {
        Add(if delivered then Success(answered.value) else Failure(answered.value));
      }
      trace := Counted(log) + Ending(delivery.Delivered?, answered);
      assert counters == old(counters) + trace;
    }

    /** A CONNECT passed through: attempts until one upstream is connected, then the client connection is
        taken over. Balanced on every path. */
    method TunnelHTTPS(host: string, hijacks: bool, schedule: nat -> Answer, schemeOf: string -> Option<string>, dial: nat -> Dial)
      returns (trace: seq<Counter>, log: seq<Attempt>, calls: nat, talk: seq<Action>)
      modifies this`counters, this`actions
      ensures |log| <= AttemptLimit(maxUpstreamAttempts)
      ensures calls <= CallBudget(AttemptLimit(maxUpstreamAttempts), |log| + 1)
      ensures Conversed(talk, TargetKey(host), schedule, calls, log) && Distinct(Uris(log))
      ensures OnlyLastSucceeds(log)
      ensures AsDialled(log, schemeOf, dial)
      ensures AnsweredBy(log).None? && |log| < AttemptLimit(maxUpstreamAttempts) ==>
        GaveUp(schedule, hasScheduler, calls, AttemptLimit(maxUpstreamAttempts), Uris(log))
      ensures counters == old(counters) + trace
      ensures actions == old(actions) + talk
      ensures EndsBalanced(trace, hijacks, AnsweredBy(log))
      ensures DialsTold(log, talk, if host == "" then ":443" else host, AnsweredBy(log), schemeOf, dial)
    {
      hide Times, Reported, EndsBalanced, Uris, FirstOffers, GaveUp, Distinct, AttemptLimit, CallBudget, DialOutcome, Conversed, DialsTold,
           AsDialled, OnlyLastSucceeds, AnsweredBy, Counted;
      var connected: Option<string>;
      connected, log, calls, talk := Connect(TargetKey(host), schedule, schemeOf, dial);
      AttemptsAndEndingBalance(log, hijacks);
      if connected.None? {
        Add(AllFailure);
      } else if !hijacks {
        Add(AllFailure);
        Add(Failure(connected.value));
      } else {
        Add(AllSuccess);
        Add(Success(connected.value));
      }
      trace := Counted(log) + Ending(hijacks, connected);
      assert counters == old(counters) + trace;
    }

    /** The attempts of a tunnel. */
    method Connect(target: string, schedule: nat -> Answer, schemeOf: string -> Option<string>, dial: nat -> Dial)
      returns (connected: Option<string>, log: seq<Attempt>, calls: nat, talk: seq<Action>)
      modifies this`counters, this`actions
      ensures |log| <= AttemptLimit(maxUpstreamAttempts)
      ensures calls <= CallBudget(AttemptLimit(maxUpstreamAttempts), |log| + 1)
      ensures Conversed(talk, target, schedule, calls, log) && Distinct(Uris(log))
      ensures OnlyLastSucceeds(log)
      ensures AsDialled(log, schemeOf, dial)
      ensures connected == AnsweredBy(log)
      ensures DialsTold(log, talk, target, connected, schemeOf, dial)
      ensures connected.None? && |log| < AttemptLimit(maxUpstreamAttempts) ==>
        GaveUp(schedule, hasScheduler, calls, AttemptLimit(maxUpstreamAttempts), Uris(log))
      ensures counters == old(counters) + Counted(log)
      ensures actions == old(actions) + talk
    {
      hide Counted, Reported, CountedFor, ReportedFor, Uris, FirstOffers, GaveUp, Distinct, AttemptLimit, CallBudget,
           DialOutcome, Answers, Reports, Asks, AsksFollowReports, Settled, Conversed, Underway,
           AllFailed, AsExchanged, AsDialled, OnlyLastSucceeds, AnsweredBy, DialsTold;
      connected, log, calls, talk := None, [], 0, [];
      NothingYet();
      NothingSaid(target, schedule);
      NoDials(schemeOf, dial);
      while |log| < AttemptLimit(maxUpstreamAttempts)
        invariant |log| <= AttemptLimit(maxUpstreamAttempts)
        invariant calls <= CallBudget(AttemptLimit(maxUpstreamAttempts), |log|)
        invariant Underway(talk, target, schedule, calls, log)
        invariant AsDialled(log, schemeOf, dial) && AllFailed(log)
        invariant connected.None?
        invariant counters == old(counters) + Counted(log)
        invariant actions == old(actions) + talk
        decreases AttemptLimit(maxUpstreamAttempts) - |log|
      {
        UnderwayParts(talk, target, schedule, calls, log);
        var uri, made := NextProxy(schedule, calls, Uris(log));
        CallsGrow(calls, made, AttemptLimit(maxUpstreamAttempts), |log|);
        if uri.None? {
          AskedInVain(talk, target, schedule, calls, made, log);
          Regroup(old(actions), talk, Asks(schedule, calls, made), []);
          talk := talk + Asks(schedule, calls, made);
          calls := made;
          FailedSoFar(log);
          AttemptsDiffer(talk, target, schedule, calls, log);
          DialsAreTold(log, talk, target, schedule, calls, schemeOf, dial);
          return;
        }
        var a := Dialled(uri.value, |log|, schemeOf, dial, target);
        Extend(log, a, target, old(counters));
        OneMoreFailure(log, a);
        OneMoreDial(log, a, schemeOf, dial);
        Round(talk, target, schedule, calls, made, log, a);
        Regroup(old(actions), talk, Asks(schedule, calls, made), ReportedFor(a, target));
        talk := talk + Asks(schedule, calls, made) + ReportedFor(a, target);
        calls, log := made, log + [a];
        if a.outcome.Succeeded? {
          BudgetGrows(AttemptLimit(maxUpstreamAttempts), |log|);
          AttemptsDiffer(talk, target, schedule, calls, log);
          DialsAreTold(log, talk, target, schedule, calls, schemeOf, dial);
          connected := Some(a.outcome.scheme);
          return;
        }
      }
      BudgetGrows(AttemptLimit(maxUpstreamAttempts), |log|);
      FailedSoFar(log);
      UnderwayParts(talk, target, schedule, calls, log);
      AttemptsDiffer(talk, target, schedule, calls, log);
      DialsAreTold(log, talk, target, schedule, calls, schemeOf, dial);
    }

    method Dialled(uri: string, n: nat, schemeOf: string -> Option<string>, dial: nat -> Dial, target: string)
      returns (a: Attempt)
      modifies this`counters, this`actions
      ensures a == Attempt(uri, DialOutcome(schemeOf(uri), dial(n)))
      ensures counters == old(counters) + CountedFor(a.outcome)
      ensures actions == old(actions) + ReportedFor(a, target)
    {
      hide DIALABLE;
      var scheme := schemeOf(uri);
      if scheme.None? {
        Report(TargetFailed(uri, target));
        return Attempt(uri, Unparsable);
      }
      Add(Total(scheme.value));
      match if scheme.value in DIALABLE then dial(n) else DialFailed(false)
      case DialFailed(refused) =>
        if refused {
          Report(ProxyFailed(uri));
        }
        Report(TargetFailed(uri, target));
        Add(Failure(scheme.value));
        return Attempt(uri, if refused then Rejected(scheme.value) else Failed(scheme.value));
      case DeadlineFailed =>
        Report(TargetFailed(uri, target));
        Add(Failure(scheme.value));
        return Attempt(uri, Failed(scheme.value));
      case Connected =>
        return Attempt(uri, Succeeded(scheme.value));
    }

    /** Any request from arrival to its end. It adds one to the global total and leaves every protocol balanced;
        with decryption off it adds one to the global successes or failures too. */
    method Serve(r: Request, admitted: bool, requestDumps: bool, delivery: Delivery, hijacks: bool, certified: bool,
                 schedule: nat -> Answer, schemeOf: string -> Option<string>, exchange: nat -> Exchange, dial: nat -> Dial)
      returns (trace: seq<Counter>)
      modifies this`counters, this`actions
      ensures counters == old(counters) + trace
      ensures Times(trace, AllTotal) == 1 && Balanced(trace)
      ensures GloballyBalanced(trace) <==> !(admitted && r.method_ == "CONNECT" && enableMITM && certified && hijacks)
    {
      hide Times, Balanced, GloballyBalanced, EndsBalanced, Conversed, AnsweredBy, TargetKey, Distinct, OnlyLastSucceeds, GaveUp, CallBudget;
      hide AttemptLimit, ExchangesTold, DialsTold, AsDialled;
      Add(AllTotal);
      var served: seq<Counter>;
      if !admitted {
        Add(AllFailure);
        served := [AllFailure];
        OneFailureIsBalanced();
      } else if r.method_ == "CONNECT" {
        if enableMITM {
          served := InjectHTTPS(certified, hijacks);
          OneFailureIsBalanced();
          NothingIsBalanced();
        } else {
          var log, calls, talk;
          served, log, calls, talk := TunnelHTTPS(r.host, hijacks, schedule, schemeOf, dial);
          EndingIsBalanced(served, hijacks, AnsweredBy(log));
        }
      } else {
        var log, talk;
        served, log, talk := Dump(r, requestDumps, delivery, schedule, schemeOf, exchange);
        EndingIsBalanced(served, delivery.Delivered?, AnsweredBy(log));
      }
      trace := [AllTotal] + served;
      WithTotal(served);
    }

    /** Decryption takes the connection over; its inner requests are counted when they are dumped, but not
        in the global total. */
    method InjectHTTPS(certified: bool, hijacks: bool) returns (trace: seq<Counter>)
      modifies this`counters
      ensures counters == old(counters) + trace
      ensures trace == if certified && hijacks then [] else [AllFailure]
    {
      if !certified || !hijacks {
        Add(AllFailure);
        return [AllFailure];
      }
      return [];
    }
  }

  function OutcomeOf(scheme: Option<string>, exchange: Exchange): (r: Outcome) {
    if scheme.None? then Unparsable
    else match if scheme.value in DIALABLE then exchange else TransportFailed
      case TransportFailed => Failed(scheme.value)
      case AuthRequired => Rejected(scheme.value)
      case Responded => Succeeded(scheme.value)
  }

  function DialOutcome(scheme: Option<string>, dial: Dial): (r: Outcome) {
    if scheme.None? then Unparsable
    else match if scheme.value in DIALABLE then dial else DialFailed(false)
      case DialFailed(refused) => if refused then Rejected(scheme.value) else Failed(scheme.value)
      case DeadlineFailed => Failed(scheme.value)
      case Connected => Succeeded(scheme.value)
  }

  /** The name failures of a tunnel are reported under. */
  function TargetKey(host: string): (r: string) {
    if host == "" then ":443" else host
  }

  lemma Regroup(a: seq<Action>, b: seq<Action>, c: seq<Action>, d: seq<Action>)
    ensures a + b + c + d == a + (b + c + d) && a + b + c == a + (b + c)
  {
    assert a + b + c == a + (b + c);
  }

  lemma NoExchanges(schemeOf: string -> Option<string>, exchange: nat -> Exchange)
    ensures AllFailed([]) && AsExchanged([], schemeOf, exchange)
  {}

  lemma NoDials(schemeOf: string -> Option<string>, dial: nat -> Dial)
    ensures AllFailed([]) && AsDialled([], schemeOf, dial)
  {}

  /** The scheduler calls that some attempts may take. */
  function CallBudget(limit: nat, attempts: nat): (r: nat) {
    2 * limit * attempts
  }

  lemma CallsGrow(calls: nat, made: nat, limit: nat, n: nat)
    requires calls <= CallBudget(limit, n) && made <= calls + 2 * limit
    ensures made <= CallBudget(limit, n + 1)
  {}

  lemma BudgetGrows(limit: nat, n: nat)
    ensures CallBudget(limit, n) <= CallBudget(limit, n + 1)
  {}

  /** No request is answered through a scheme nothing can be dialled through. */
  lemma AnswersAreDialable(log: seq<Attempt>, schemeOf: string -> Option<string>, exchange: nat -> Exchange)
    requires AsExchanged(log, schemeOf, exchange)
    ensures AnsweredBy(log).Some? ==> AnsweredBy(log).value in DIALABLE && AnsweredBy(log).value != ""
  {}

  lemma NothingYet()
    ensures Counted([]) == [] && Uris([]) == []
    ensures forall limit: nat :: 0 <= CallBudget(limit, 0)
  {}

  lemma OneFailureIsBalanced()
    ensures Balanced([AllFailure])
    ensures Times([AllFailure], AllTotal) == 0
    ensures Times([AllFailure], AllSuccess) + Times([AllFailure], AllFailure) == 1
  {
    hide Times;
    forall c: Counter ensures Times([AllFailure], c) == if c == AllFailure then 1 else 0 {
      TimesOfOne(AllFailure, c);
    }
  }

  lemma NothingIsBalanced()
    ensures Balanced([])
    ensures Times([], AllTotal) == Times([], AllSuccess) == Times([], AllFailure) == 0
  {}

  lemma EndingIsBalanced(trace: seq<Counter>, delivered: bool, answered: Option<string>)
    requires EndsBalanced(trace, delivered, answered)
    ensures Balanced(trace)
    ensures Times(trace, AllTotal) == 0
    ensures Times(trace, AllSuccess) + Times(trace, AllFailure) == 1
  {}
}
