/** What one request says to the pool, in order: the proxies it asks for and the failures it reports. */
module Conversation {
  import opened Proxies

  datatype Answer = Offered(uri: string) | Refused

  /** A call of the scheduler with its answer, or a failure callback. */
  datatype Action = Asked(answer: Answer) | ProxyFailed(uri: string) | TargetFailed(uri: string, target: string)

  // ---- what was offered ----

  ghost predicate Distinct(uris: seq<string>) {
    forall i, j :: 0 <= i < j < |uris| ==> uris[i] != uris[j]
  }

  /** What the scheduler offered in its first n answers, each proxy at its first offer. */
  function FirstOffers(schedule: nat -> Answer, n: nat): (r: seq<string>) {
    if n == 0 then []
    else
      var before := FirstOffers(schedule, n - 1);
      var answer := schedule(n - 1);
      if answer.Offered? && answer.uri !in before then before + [answer.uri] else before
  }

  lemma {:induction false} FirstOffersAreDistinct(schedule: nat -> Answer, n: nat)
    ensures Distinct(FirstOffers(schedule, n))
  {
    if n > 0 {
      FirstOffersAreDistinct(schedule, n - 1);
    }
  }

  /** Offers of proxies already offered change nothing. */
  lemma {:induction false} RepeatedOffers(schedule: nat -> Answer, from: nat, to: nat)
    requires from <= to
    requires forall k :: from <= k < to ==> schedule(k).Refused? || schedule(k).uri in FirstOffers(schedule, from)
    ensures FirstOffers(schedule, to) == FirstOffers(schedule, from)
  {
    if from < to {
      RepeatedOffers(schedule, from, to - 1);
    }
  }

  ghost predicate OnlyOffers(schedule: nat -> Answer, from: nat, to: int) {
    forall k :: from <= k < to ==> schedule(k).Offered?
  }

  /** No proxy is offered twice among the first n answers. */
  ghost predicate NoRepeats(schedule: nat -> Answer, n: nat) {
    forall i, j :: 0 <= i < j < n && schedule(i).Offered? ==> schedule(i) != schedule(j)
  }

  /** When no offer is repeated every offer is a first one. */
  lemma {:induction false} DistinctOffersAllCount(schedule: nat -> Answer, n: nat)
    requires OnlyOffers(schedule, 0, n) && NoRepeats(schedule, n)
    ensures |FirstOffers(schedule, n)| == n && forall k :: 0 <= k < n ==> FirstOffers(schedule, n)[k] == schedule(k).uri
  {
    if n > 0 {
      DistinctOffersAllCount(schedule, n - 1);
      var before := FirstOffers(schedule, n - 1);
      assert schedule(n - 1).uri !in before by {
        forall k | 0 <= k < n - 1 ensures before[k] != schedule(n - 1).uri {
          assert schedule(k) != schedule(n - 1);
        }
      }
    }
  }

  // ---- the two sides of a conversation ----

  function Answers(talk: seq<Action>): (r: seq<Answer>) {
    if talk == [] then []
    else
      var last := talk[|talk| - 1];
      Answers(talk[..|talk| - 1]) + (if last.Asked? then [last.answer] else [])
  }

  function Reports(talk: seq<Action>): (r: seq<Action>) {
    if talk == [] then []
    else
      var last := talk[|talk| - 1];
      Reports(talk[..|talk| - 1]) + (if last.Asked? then [] else [last])
  }

  lemma {:induction false} SidesOfBoth(a: seq<Action>, b: seq<Action>)
    ensures Answers(a + b) == Answers(a) + Answers(b) && Reports(a + b) == Reports(a) + Reports(b)
    decreases |b|
  {
    if b == [] {
      assert a + b == a;
    } else {
      assert (a + b)[..|a + b| - 1] == a + b[..|b| - 1];
      SidesOfBoth(a, b[..|b| - 1]);
    }
  }

  /** The calls from the from-th up to the to-th. */
  function Asks(schedule: nat -> Answer, from: nat, to: nat): (asks: seq<Action>)
    requires from <= to
    ensures |asks| == to - from
  {
    if from == to then [] else Asks(schedule, from, to - 1) + [Asked(schedule(to - 1))]
  }

  lemma {:induction false} AsksAsk(schedule: nat -> Answer, from: nat, to: nat)
    requires from <= to
    ensures |Answers(Asks(schedule, from, to))| == to - from && Reports(Asks(schedule, from, to)) == []
    ensures forall k :: 0 <= k < to - from ==> Answers(Asks(schedule, from, to))[k] == schedule(from + k)
  {
    if from < to {
      AsksAsk(schedule, from, to - 1);
      var asks := Asks(schedule, from, to);
      assert asks[..|asks| - 1] == Asks(schedule, from, to - 1);
    }
  }

  // ---- reports come before the next question ----

  /** Every proxy offered so far was reported as failed for the target. */
  ghost predicate Settled(talk: seq<Action>, target: string) {
    forall uri :: Asked(Offered(uri)) in talk ==> TargetFailed(uri, target) in talk
  }

  /** Whenever the request asks, everything it was offered before has been reported. */
  ghost predicate AsksFollowReports(talk: seq<Action>, target: string) {
    forall i :: 0 <= i < |talk| && talk[i].Asked? ==> Settled(talk[..i], target)
  }

  lemma OneMoreAsk(talk: seq<Action>, answer: Answer, target: string)
    requires Settled(talk, target) && AsksFollowReports(talk, target)
    ensures AsksFollowReports(talk + [Asked(answer)], target)
    ensures answer.Refused? || TargetFailed(answer.uri, target) in talk ==> Settled(talk + [Asked(answer)], target)
  {
    var t := talk + [Asked(answer)];
    forall i | 0 <= i < |t| && t[i].Asked? ensures Settled(t[..i], target) {
      assert t[..i] == talk[..i];
      if i == |talk| { assert talk[..i] == talk; }
    }
    forall uri | Asked(Offered(uri)) in t && (answer.Refused? || TargetFailed(answer.uri, target) in talk)
      ensures TargetFailed(uri, target) in t
    {
      assert Asked(Offered(uri)) in talk || answer == Offered(uri);
    }
  }

  /** Asking over and over for proxies already reported settles nothing and unsettles nothing. */
  lemma {:induction false} RepeatedAsks(talk: seq<Action>, schedule: nat -> Answer, from: nat, to: nat, target: string)
    requires Settled(talk, target) && AsksFollowReports(talk, target) && from <= to
    requires forall k :: from <= k < to ==> schedule(k).Offered? && TargetFailed(schedule(k).uri, target) in talk
    ensures Settled(talk + Asks(schedule, from, to), target) && AsksFollowReports(talk + Asks(schedule, from, to), target)
  {
    hide Settled, AsksFollowReports;
    if from == to {
      assert talk + Asks(schedule, from, to) == talk;
    } else {
      RepeatedAsks(talk, schedule, from, to - 1, target);
      var before := talk + Asks(schedule, from, to - 1);
      OneMoreAsk(before, schedule(to - 1), target);
      assert talk + Asks(schedule, from, to) == before + [Asked(schedule(to - 1))];
    }
  }

  /** Reports after the last question keep the order, and settle the proxy last offered. */
  lemma ThenReports(talk: seq<Action>, reports: seq<Action>, uri: string, target: string)
    requires AsksFollowReports(talk, target) && forall r :: r in reports ==> !r.Asked?
    requires forall u :: Asked(Offered(u)) in talk && u != uri ==> TargetFailed(u, target) in talk
    ensures AsksFollowReports(talk + reports, target)
    ensures TargetFailed(uri, target) in reports ==> Settled(talk + reports, target)
  {
    var t := talk + reports;
    forall i | 0 <= i < |t| && t[i].Asked? ensures Settled(t[..i], target) {
      assert t[..i] == talk[..i];
    }
  }
}
