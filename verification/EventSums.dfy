/** Sums over an event log, the reference the ring buffers are compared with. */
module EventSums {

  function SumOf<T>(log: seq<T>, f: T -> nat): (r: nat) {
    if log == [] then 0 else SumOf(log[..|log| - 1], f) + f(log[|log| - 1])
  }

  lemma {:induction false} SumsAgree<T>(log: seq<T>, f: T -> nat, g: T -> nat)
    requires forall e :: e in log ==> f(e) == g(e)
    ensures SumOf(log, f) == SumOf(log, g)
  {
    if log != [] {
      SumsAgree(log[..|log| - 1], f, g);
    }
  }

  lemma {:induction false} SumsAdd<T>(log: seq<T>, f: T -> nat, g: T -> nat, h: T -> nat)
    requires forall e :: e in log ==> f(e) == g(e) + h(e)
    ensures SumOf(log, f) == SumOf(log, g) + SumOf(log, h)
  {
    if log != [] {
      SumsAdd(log[..|log| - 1], f, g, h);
    }
  }

  lemma {:induction false} SumsOrdered<T>(log: seq<T>, f: T -> nat, g: T -> nat)
    requires forall e :: e in log ==> f(e) <= g(e)
    ensures SumOf(log, f) <= SumOf(log, g)
  {
    if log != [] {
      SumsOrdered(log[..|log| - 1], f, g);
    }
  }

  lemma {:induction false} SumIsZero<T>(log: seq<T>, f: T -> nat)
    requires forall e :: e in log ==> f(e) == 0
    ensures SumOf(log, f) == 0
  {
    if log != [] {
      SumIsZero(log[..|log| - 1], f);
    }
  }

  lemma {:induction false} SumIsPositive<T>(log: seq<T>, e: T, f: T -> nat)
    requires e in log && f(e) > 0
    ensures SumOf(log, f) > 0
  {
    if log[|log| - 1] != e {
      SumIsPositive(log[..|log| - 1], e, f);
    }
  }

  lemma SumOfOneMore<T>(log: seq<T>, e: T, f: T -> nat)
    ensures SumOf(log + [e], f) == SumOf(log, f) + f(e)
  {
    assert (log + [e])[..|log|] == log;
  }
}
