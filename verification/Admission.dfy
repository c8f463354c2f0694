/** How many candidates of a source are taken per fetch: a ring of its last outcomes decides the limit, and
    one fetch pushes at most that many. */
module Admission {
  import opened Proxies
  import TextSource

  const OUTCOMES: nat := 256
  const DEFAULT_MAX_CANDIDATES: int := 200
  const MAX_CANDIDATES: int := 10_000

  function ConfiguredMaxCandidates(configured: int): (limit: nat)
    ensures 1 <= limit <= MAX_CANDIDATES
  {
    if configured <= 0 then DEFAULT_MAX_CANDIDATES
    else if configured > MAX_CANDIDATES then MAX_CANDIDATES
    else configured
  }

  // ---- the limit ----

  function AtLeastOne(n: nat): (r: nat) {
    if n < 1 then 1 else n
  }

  /** Low-yield sources are sampled less, once there are enough samples. */
  function CandidateLimit(configured: int, count: nat, successes: nat): (r: nat) {
    var limit := ConfiguredMaxCandidates(configured);
    if count < 100 then limit
    else if successes * 400 < count then AtLeastOne(limit / 8)
    else if successes * 200 < count then AtLeastOne(limit / 4)
    else if successes * 100 < count then AtLeastOne(limit / 2)
    else limit
  }

  lemma LimitInRange(configured: int, count: nat, successes: nat)
    ensures 1 <= CandidateLimit(configured, count, successes) <= ConfiguredMaxCandidates(configured)
  {}

  lemma LimitIsMonotone(configured: int, count: nat, fewer: nat, more: nat)
    requires fewer <= more
    ensures CandidateLimit(configured, count, fewer) <= CandidateLimit(configured, count, more)
  {
    hide ConfiguredMaxCandidates;
  }

  // ---- the history ----

  function Recent(history: seq<bool>): (r: seq<bool>) {
    if |history| <= OUTCOMES then history else history[|history| - OUTCOMES..]
  }

  function Successes(outcomes: seq<bool>): (n: nat)
    ensures n <= |outcomes|
  {
    if outcomes == [] then 0 else Successes(outcomes[1..]) + (if outcomes[0] then 1 else 0)
  }

  /** The limit as a function of the whole history. */
  function LimitAfter(configured: int, history: seq<bool>): (r: nat) {
    CandidateLimit(configured, |Recent(history)|, Successes(Recent(history)))
  }

  lemma {:induction false} SuccessesOfBoth(a: seq<bool>, b: seq<bool>)
    ensures Successes(a + b) == Successes(a) + Successes(b)
  {
    if a == [] {
      assert a + b == b;
    } else {
      assert (a + b)[1..] == a[1..] + b;
      SuccessesOfBoth(a[1..], b);
    }
  }

  /** One more outcome: the oldest is forgotten once the ring is full. */
  lemma RecentAfter(history: seq<bool>, success: bool)
    ensures Recent(history + [success])
      == (if |history| < OUTCOMES then history else Recent(history)[1..]) + [success]
    ensures Successes(Recent(history + [success])) + (if |history| >= OUTCOMES && Recent(history)[0] then 1 else 0)
      == Successes(Recent(history)) + (if success then 1 else 0)
  {
    var kept := if |history| < OUTCOMES then history else Recent(history)[1..];
    assert Recent(history + [success]) == kept + [success];
    SuccessesOfBoth(kept, [success]);
    assert Successes([success]) == (if success then 1 else 0) by {
      assert [success][1..] == [];
    }
  }

  /** What a source did before its last 256 outcomes no longer matters. */
  lemma LimitForgets(configured: int, before: seq<bool>, history: seq<bool>)
    requires |history| >= OUTCOMES
    ensures LimitAfter(configured, before + history) == LimitAfter(configured, history)
  {
    assert Recent(before + history) == Recent(history);
  }

  /** Three successes in a row restore any source to its full limit. */
  lemma ThreeSuccessesRestore(configured: int, history: seq<bool>)
    ensures LimitAfter(configured, history + [true, true, true]) == ConfiguredMaxCandidates(configured)
  {
    hide ConfiguredMaxCandidates;
    var h := history + [true, true, true];
    var r := Recent(h);
    assert h[|h| - 3..] == [true, true, true];
    assert r == r[..|r| - 3] + [true, true, true];
    SuccessesOfBoth(r[..|r| - 3], [true, true, true]);
    SuccessesOfThree();
  }

  lemma SuccessesOfThree()
    ensures Successes([true, true, true]) == 3
    ensures Successes([true, true]) == 2
  {
    assert [true, true, true][1..] == [true, true];
    assert [true, true][1..] == [true];
  }

  lemma {:induction false} FailuresOnly(n: nat)
    ensures Successes(seq(n, _ => false)) == 0
  {
    if n > 0 {
      assert seq(n, _ => false)[1..] == seq(n - 1, _ => false);
      FailuresOnly(n - 1);
    }
  }

  /** Two may not: after 256 failures they leave half of any limit above one. */
  lemma TwoMayNotRestore(configured: int)
    ensures LimitAfter(configured, seq(OUTCOMES, _ => false) + [true, true])
      == AtLeastOne(ConfiguredMaxCandidates(configured) / 2)
  {
    hide ConfiguredMaxCandidates;
    var h := seq(OUTCOMES, _ => false) + [true, true];
    var failures := seq(OUTCOMES - 2, _ => false);
    assert Recent(h) == failures + [true, true];
    SuccessesOfBoth(failures, [true, true]);
    FailuresOnly(OUTCOMES - 2);
    SuccessesOfThree();
  }

  /** After n failures and nothing else the limit is the configured one, by default 200 and at most 10000, up to 99,
      and an eighth of it from 100 on. */
  lemma LimitAfterFailures(configured: int, n: nat)
    ensures var full := if configured <= 0 then 200 else if configured > 10_000 then 10_000 else configured;
      LimitAfter(configured, seq(n, _ => false)) == if n < 100 then full else if full < 8 then 1 else full / 8
  {
    var h := seq(n, _ => false);
    assert Recent(h) == seq(|Recent(h)|, _ => false);
    FailuresOnly(|Recent(h)|);
  }

  /** From 100 outcomes on, three successes among the last 256 are what the full limit always takes. Fewer leave a half, a
      quarter or an eighth, and never less than one: none an eighth; one a half from 101 outcomes and a quarter from 201;
      two a half from 201. */
  lemma LimitBySuccesses(configured: int, history: seq<bool>)
    requires |history| >= 100
    ensures var full := ConfiguredMaxCandidates(configured);
      var last := if |history| <= 256 then history else history[|history| - 256..];
      var n, s := |last|, Successes(last);
      LimitAfter(configured, history) ==
        if s == 0 then (if full < 8 then 1 else full / 8)
        else if s == 1 && n > 200 then (if full < 4 then 1 else full / 4)
        else if (s == 1 && n > 100) || (s == 2 && n > 200) then (if full < 2 then 1 else full / 2)
        else full
  {
    hide ConfiguredMaxCandidates;
  }

  // ---- one fetch ----

  /** What the admission checks say of one candidate, in the order they are made. */
  datatype Verdict = Locked | InPool | NotDue | AlreadyQueued | Admissible

  function Prepared(p: Proxy, source: string): (r: Proxy) {
    p.(source := if p.source == "" then source else p.source, ip := TextSource.TrimSpace(p.ip))
  }

  /** The admissible among the first n candidates, in order. */
  function Admitted(proxies: seq<Proxy>, verdict: nat -> Verdict, source: string, n: nat): (r: seq<Proxy>)
    requires n <= |proxies|
    ensures |r| <= n
  {
    if n == 0 then []
    else
      var last := if verdict(n - 1) == Admissible then [Prepared(proxies[n - 1], source)] else [];
      Admitted(proxies, verdict, source, n - 1) + last
  }

  /** Endpoints found in the pool, whose own failure history is cleared. */
  function Cleared(proxies: seq<Proxy>, verdict: nat -> Verdict, source: string, n: nat): (r: seq<string>)
    requires n <= |proxies|
  {
    if n == 0 then []
    else
      var last := if verdict(n - 1) == InPool then [URI(Prepared(proxies[n - 1], source))] else [];
      Cleared(proxies, verdict, source, n - 1) + last
  }

  function Duplicates(verdict: nat -> Verdict, n: nat): (r: nat) {
    if n == 0 then 0 else Duplicates(verdict, n - 1) + (if verdict(n - 1) == AlreadyQueued then 1 else 0)
  }

  function Filtered(verdict: nat -> Verdict, n: nat): (r: nat) {
    if n == 0 then 0 else Filtered(verdict, n - 1) + (if verdict(n - 1) in {Locked, InPool, NotDue} then 1 else 0)
  }

  /** The ring holds the last outcomes, each at its position modulo the size. */
  ghost predicate RingHolds(outcomes: seq<bool>, history: seq<bool>) {
    && |outcomes| == OUTCOMES
    && forall t :: 0 <= t < |history| && |history| - OUTCOMES <= t ==> outcomes[t % OUTCOMES] == history[t]
  }

  lemma OldestIsNext(outcomes: seq<bool>, history: seq<bool>)
    requires RingHolds(outcomes, history) && |history| >= OUTCOMES
    ensures outcomes[|history| % OUTCOMES] == Recent(history)[0]
  {
    assert (|history| - OUTCOMES) % OUTCOMES == |history| % OUTCOMES;
  }

  lemma RingAfter(outcomes: seq<bool>, history: seq<bool>, ok: bool)
    requires RingHolds(outcomes, history)
    ensures RingHolds(outcomes[|history| % OUTCOMES := ok], history + [ok])
  {
    var n := |history|;
    forall t | 0 <= t < n + 1 && n + 1 - OUTCOMES <= t
      ensures outcomes[n % OUTCOMES := ok][t % OUTCOMES] == (history + [ok])[t]
    {
      if t < n { assert t % OUTCOMES != n % OUTCOMES; }
    }
  }

  class SourceCandidateCounter {
    var success: nat
    var failure: nat
    var admitted: nat
    var capped: nat
    var filtered: nat
    var duplicate: nat
    const recentOutcomes: array<bool>
    var recentCount: nat
    var recentSuccess: nat
    var recentIndex: nat
    ghost var history: seq<bool>

    ghost predicate Valid()
      reads this, recentOutcomes
    {
      && recentOutcomes.Length == OUTCOMES
      && recentCount == |Recent(history)|
      && recentSuccess == Successes(Recent(history))
      && recentIndex == |history| % OUTCOMES
      && RingHolds(recentOutcomes[..], history)
      && success == Successes(history) && failure == |history| - Successes(history)
    }

    constructor ()
      ensures Valid() && fresh(recentOutcomes) && history == []
      ensures admitted == capped == filtered == duplicate == 0
    {
      recentOutcomes := new bool[OUTCOMES](_ => false);
      success, failure, admitted, capped, filtered, duplicate := 0, 0, 0, 0, 0, 0;
      recentCount, recentSuccess, recentIndex := 0, 0, 0;
      history := [];
    }

    method RecordResult(ok: bool)
      requires Valid()
      modifies `success, `failure, `recentCount, `recentSuccess, `recentIndex, `history, recentOutcomes
      ensures Valid() && history == old(history) + [ok]
    {
      hide Successes, Recent, RingHolds;
      RecentAfter(history, ok);
      RecentLength(history);
      RecentLength(history + [ok]);
      OneMore(history, ok);
      RingAfter(recentOutcomes[..], history, ok);
      if ok {
        success := success + 1;
      } else {
        failure := failure + 1;
      }
      if recentCount == recentOutcomes.Length {
        OldestIsNext(recentOutcomes[..], history);
        if recentOutcomes[recentIndex] {
          OldestCounts(Recent(history));
          recentSuccess := recentSuccess - 1;
        }
      } else {
        recentCount := recentCount + 1;
      }
      recentOutcomes[recentIndex] := ok;
      if ok {
        recentSuccess := recentSuccess + 1;
      }
      recentIndex := (recentIndex + 1) % recentOutcomes.Length;
      history := history + [ok];
    }

    method CurrentLimit(configured: int) returns (limit: nat)
      requires Valid()
      ensures limit == LimitAfter(configured, history)
    {
      limit := ConfiguredMaxCandidates(configured);
      if recentCount >= 100 {
        if recentSuccess * 400 < recentCount {
          limit := AtLeastOne(limit / 8);
        } else if recentSuccess * 200 < recentCount {
          limit := AtLeastOne(limit / 4);
        } else if recentSuccess * 100 < recentCount {
          limit := AtLeastOne(limit / 2);
        }
      }
    }

    /** One fetch, whose candidates may have been shuffled before. What is pushed are the first admissible
        ones, no more than the limit; the scan stops at the first candidate past the limit; and every candidate
        is counted once, as admitted, filtered, duplicate or capped. */
    method Enqueue(configured: int, source: string, proxies: seq<Proxy>, verdict: nat -> Verdict)
      returns (pushed: seq<Proxy>, cleared: seq<string>, examined: nat)
      requires Valid()
      modifies `admitted, `capped, `filtered, `duplicate
      ensures Valid()
      ensures examined <= |proxies| && |pushed| <= LimitAfter(configured, history)
      ensures pushed == Admitted(proxies, verdict, source, examined)
      ensures cleared == Cleared(proxies, verdict, source, examined)
      ensures examined < |proxies| ==> |pushed| == LimitAfter(configured, history)
      ensures examined > 0 ==> |Admitted(proxies, verdict, source, examined - 1)| < LimitAfter(configured, history)
      ensures admitted == old(admitted) + |pushed|
      ensures filtered == old(filtered) + Filtered(verdict, examined)
      ensures duplicate == old(duplicate) + Duplicates(verdict, examined)
      ensures capped == old(capped) + (|proxies| - examined)
      ensures admitted + filtered + duplicate + capped == old(admitted + filtered + duplicate + capped) + |proxies|
    {
      hide LimitAfter, Successes, Recent, RingHolds, Prepared, URI, Admitted, Cleared, Filtered, Duplicates;
      var limit := CurrentLimit(configured);
      pushed, cleared, examined := [], [], 0;
      NoneExamined(proxies, verdict, source);
      while examined < |proxies|
        invariant examined <= |proxies| && |pushed| <= limit
        invariant pushed == Admitted(proxies, verdict, source, examined)
        invariant cleared == Cleared(proxies, verdict, source, examined)
        invariant examined > 0 ==> |Admitted(proxies, verdict, source, examined - 1)| < limit
        invariant admitted == old(admitted) + |pushed|
        invariant filtered == old(filtered) + Filtered(verdict, examined)
        invariant duplicate == old(duplicate) + Duplicates(verdict, examined)
        invariant capped == old(capped)
      {
        if |pushed| >= limit {
          capped := capped + (|proxies| - examined);
          break;
        }
        OneExamined(proxies, verdict, source, examined);
        var p := Prepared(proxies[examined], source);
        match verdict(examined) {
          case Locked => filtered := filtered + 1;
          case InPool =>
            cleared := cleared + [URI(p)];
            filtered := filtered + 1;
          case NotDue => filtered := filtered + 1;
          case AlreadyQueued => duplicate := duplicate + 1;
          case Admissible =>
            pushed := pushed + [p];
            admitted := admitted + 1;
        }
        examined := examined + 1;
      }
      AllCounted(proxies, verdict, source, examined);
    }
  }

  lemma {:induction false} AllCounted(proxies: seq<Proxy>, verdict: nat -> Verdict, source: string, n: nat)
    requires n <= |proxies|
    ensures |Admitted(proxies, verdict, source, n)| + Filtered(verdict, n) + Duplicates(verdict, n) == n
  {
    if n > 0 {
      AllCounted(proxies, verdict, source, n - 1);
    }
  }

  /** Every admissible candidate is pushed in its turn, as it came but for white space around its address and for the
      source, which is filled in where it is missing. */
  lemma {:induction false} AdmittedInTurn(proxies: seq<Proxy>, verdict: nat -> Verdict, source: string, n: nat, i: nat)
    requires i < n <= |proxies| && verdict(i) == Admissible
    ensures var pushed, at := Admitted(proxies, verdict, source, n), |Admitted(proxies, verdict, source, i)|;
      at < |pushed| && pushed[at] == proxies[i].(ip := TextSource.TrimSpace(proxies[i].ip),
                                                 source := if proxies[i].source == "" then source else proxies[i].source)
  {
    hide TextSource.TrimSpace;
    if i < n - 1 {
      AdmittedInTurn(proxies, verdict, source, n - 1, i);
    }
  }

  /** The candidates among the first n with one of the verdicts. */
  function Those(verdict: nat -> Verdict, verdicts: set<Verdict>, n: nat): (ids: set<nat>) {
    set i: nat | i < n && verdict(i) in verdicts
  }

  lemma OneMoreOfThose(verdict: nat -> Verdict, verdicts: set<Verdict>, n: nat)
    ensures |Those(verdict, verdicts, n + 1)| == |Those(verdict, verdicts, n)| + (if verdict(n) in verdicts then 1 else 0)
  {
    assert Those(verdict, verdicts, n + 1) == Those(verdict, verdicts, n) + (if verdict(n) in verdicts then {n} else {});
  }

  lemma NoneOfThose(verdict: nat -> Verdict, verdicts: set<Verdict>)
    ensures |Those(verdict, verdicts, 0)| == 0
  {
    assert Those(verdict, verdicts, 0) == {};
  }

  /** And nothing else is: the numbers of admitted, filtered and duplicate candidates are those of their verdicts. */
  lemma {:induction false} CountsAre(proxies: seq<Proxy>, verdict: nat -> Verdict, source: string, n: nat)
    requires n <= |proxies|
    ensures |Admitted(proxies, verdict, source, n)| == |Those(verdict, {Admissible}, n)|
    ensures Filtered(verdict, n) == |Those(verdict, {Locked, InPool, NotDue}, n)|
    ensures Duplicates(verdict, n) == |Those(verdict, {AlreadyQueued}, n)|
  {
    hide Prepared, Those;
    if n == 0 {
      NoneOfThose(verdict, {Admissible});
      NoneOfThose(verdict, {Locked, InPool, NotDue});
      NoneOfThose(verdict, {AlreadyQueued});
    } else {
      CountsAre(proxies, verdict, source, n - 1);
      OneMoreOfThose(verdict, {Admissible}, n - 1);
      OneMoreOfThose(verdict, {Locked, InPool, NotDue}, n - 1);
      OneMoreOfThose(verdict, {AlreadyQueued}, n - 1);
    }
  }

  /** The endpoints whose failure history is cleared are those found in the pool, printed with the address trimmed. */
  lemma {:induction false} ClearedAre(proxies: seq<Proxy>, verdict: nat -> Verdict, source: string, n: nat, uri: string)
    requires n <= |proxies|
    ensures uri in Cleared(proxies, verdict, source, n) <==>
      exists i :: 0 <= i < n && verdict(i) == InPool && uri == URI(proxies[i].(ip := TextSource.TrimSpace(proxies[i].ip)))
  {
    hide TextSource.TrimSpace;
    if n > 0 {
      ClearedAre(proxies, verdict, source, n - 1, uri);
      var p := proxies[n - 1];
      assert URI(Prepared(p, source)) == URI(p.(ip := TextSource.TrimSpace(p.ip)));
    }
  }

  lemma NoneExamined(proxies: seq<Proxy>, verdict: nat -> Verdict, source: string)
    ensures Admitted(proxies, verdict, source, 0) == [] && Cleared(proxies, verdict, source, 0) == []
    ensures Filtered(verdict, 0) == 0 == Duplicates(verdict, 0)
  {}

  lemma OneExamined(proxies: seq<Proxy>, verdict: nat -> Verdict, source: string, n: nat)
    requires n < |proxies|
    ensures Admitted(proxies, verdict, source, n + 1) == Admitted(proxies, verdict, source, n)
      + (if verdict(n) == Admissible then [Prepared(proxies[n], source)] else [])
    ensures Cleared(proxies, verdict, source, n + 1) == Cleared(proxies, verdict, source, n)
      + (if verdict(n) == InPool then [URI(Prepared(proxies[n], source))] else [])
    ensures Filtered(verdict, n + 1) == Filtered(verdict, n) + (if verdict(n) in {Locked, InPool, NotDue} then 1 else 0)
    ensures Duplicates(verdict, n + 1) == Duplicates(verdict, n) + (if verdict(n) == AlreadyQueued then 1 else 0)
  {}

  lemma OneMore(history: seq<bool>, ok: bool)
    ensures Successes(history + [ok]) == Successes(history) + (if ok then 1 else 0)
  {
    SuccessesOfBoth(history, [ok]);
    assert [ok][1..] == [];
  }

  lemma RecentLength(history: seq<bool>)
    ensures |Recent(history)| == if |history| < OUTCOMES then |history| else OUTCOMES
  {}

  lemma OldestCounts(recent: seq<bool>)
    requires recent != [] && recent[0]
    ensures Successes(recent) >= 1
  {}
}
