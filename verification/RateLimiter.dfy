/** The token bucket in front of every outbound validation attempt. Times are nanoseconds and tokens
    are exact reals. */
module RateLimiting {
  import opened Proxies

  const DEFAULT_ATTEMPTS_PER_SECOND: int := 50
  const MAX_ATTEMPTS_PER_SECOND: int := 1000
  const DEFAULT_WORKERS: int := 20

  datatype Bucket = Bucket(rate: real, burst: real, tokens: real, last: int)

  function Min(a: real, b: real): (r: real) {
    if a < b then a else b
  }

  /** The configured rate and burst, clamped. */
  function ConfiguredValidationRate(maxAttempts: int, attemptBurst: int): (r: (int, int))
    ensures 1 <= r.1 <= r.0 <= MAX_ATTEMPTS_PER_SECOND
  {
    var rate :=
      if maxAttempts <= 0 then DEFAULT_ATTEMPTS_PER_SECOND
      else if maxAttempts > MAX_ATTEMPTS_PER_SECOND then MAX_ATTEMPTS_PER_SECOND else maxAttempts;
    var burst :=
      if attemptBurst <= 0 then (if rate < DEFAULT_WORKERS then rate else DEFAULT_WORKERS)
      else if attemptBurst > rate then rate else attemptBurst;
    (rate, burst)
  }

  /** Settings in range are taken as they are; others become 50 a second, or at most 1000, and a burst of 20 or of what the
      rate allows. */
  lemma ConfiguredRates(maxAttempts: int, attemptBurst: int)
    ensures var (rate, burst) := ConfiguredValidationRate(maxAttempts, attemptBurst);
      && rate == (if 1 <= maxAttempts <= 1000 then maxAttempts else if maxAttempts <= 0 then 50 else 1000)
      && burst == if 1 <= attemptBurst <= rate then attemptBurst else if attemptBurst > rate || rate < 20 then rate else 20
  {}

  /** The tokens earned in `ns` nanoseconds. */
  function Earned(ns: int, rate: real): (r: real) {
    ns as real / SECOND as real * rate
  }

  /** The tokens a call finds: those earned since `last`, unless `last` is still to come. */
  function Refill(b: Bucket, now: int): (r: Bucket) {
    if now < b.last then b
    else b.(tokens := Min(b.burst, b.tokens + Earned(now - b.last, b.rate)), last := now)
  }

  /** The missing fraction of a token in nanoseconds, and rounded to the nearest. */
  function ExactWait(missing: real, rate: real): (r: real)
    requires rate > 0.0
  {
    missing / rate * SECOND as real
  }

  function WaitFor(missing: real, rate: real): (r: int)
    requires rate > 0.0
  {
    (ExactWait(missing, rate) + 0.5).Floor
  }

  /** The bucket after a call at `now`, and how long the caller must wait. */
  function Reserved(b: Bucket, now: int): (r: (Bucket, int)) {
    if b.rate <= 0.0 then (b, 0)
    else
      var f := Refill(b, now);
      if f.tokens >= 1.0 then (f.(tokens := f.tokens - 1.0), 0)
      else
        var base := if now < b.last then b.last else now;
        var last := base + WaitFor(1.0 - f.tokens, b.rate);
        (f.(tokens := 0.0, last := last), last - now)
  }

  class AttemptRateLimiter {
    var rate: real
    var burst: real
    var tokens: real
    var last: int

    ghost function State(): (r: Bucket)
      reads this
    {
      Bucket(rate, burst, tokens, last)
    }

    constructor (rate: int, burst: int, now: int)
      ensures State() == Fresh(rate, burst, now)
    {
      this.rate, this.burst, this.tokens, this.last := rate as real, burst as real, burst as real, now;
    }

    method Reserve(now: int) returns (wait: int)
      modifies this
      ensures (State(), wait) == Reserved(old(State()), now)
    {
      hide Earned, WaitFor;
      if rate <= 0.0 {
        return 0;
      }
      var base := now;
      if now < last {
        base := last;
      } else {
        tokens := Min(burst, tokens + Earned(now - last, rate));
        last := now;
      }
      if tokens >= 1.0 {
        tokens := tokens - 1.0;
        return 0;
      }
      wait := WaitFor(1.0 - tokens, rate);
      tokens := 0.0;
      last := base + wait;
      return last - now;
    }
  }

  function Fresh(rate: int, burst: int, now: int): (r: Bucket) {
    Bucket(rate as real, burst as real, burst as real, now)
  }

  // ---- one call ----

  /** Between calls, seen at `clock`: tokens stay within the burst, and a reservation that lies in the
      future has used up every token. */
  predicate Valid(b: Bucket, clock: int) {
    && b.rate > 0.0 && b.burst >= 1.0
    && 0.0 <= b.tokens <= b.burst
    && (clock < b.last ==> b.tokens == 0.0)
  }

  /** Whatever is configured, the limiter starts so. */
  lemma ConfiguredIsValid(maxAttempts: int, attemptBurst: int, now: int)
    ensures var (rate, burst) := ConfiguredValidationRate(maxAttempts, attemptBurst);
      Valid(Fresh(rate, burst, now), now)
  {
    var (rate, burst) := ConfiguredValidationRate(maxAttempts, attemptBurst);
    assert burst as real >= 1.0 && rate as real >= 1.0;
  }

  // ---- units ----

  /** Tokens, in nanosecond units. */
  function Units(tokens: real): (r: real) {
    tokens * SECOND as real
  }

  /** What `ns` nanoseconds earn, in the same units. */
  function Paid(rate: real, ns: int): (r: real) {
    rate * ns as real
  }

  /** What n grants cost at least, rounding taken off. */
  function Cost(n: nat, rate: real): (r: real) {
    n as real * (SECOND as real - rate / 2.0)
  }

  lemma ScaleLess(a: real, b: real, rate: real)
    requires rate > 0.0 && a <= b
    ensures a * rate <= b * rate
  {}

  lemma ScaleDifference(a: real, b: real, rate: real)
    ensures (a - b) * rate == a * rate - b * rate
  {}

  lemma ScaleOfQuotient(a: real, b: real, c: real)
    requires b != 0.0
    ensures a / b * c * b == a * c
  {
    var q := a / b;
    assert q * b == a;
    assert q * c * b == q * b * c;
  }

  lemma QuotientSign(a: real, b: real)
    requires a >= 0.0 && b > 0.0
    ensures a / b >= 0.0
  {}

  lemma ProductSign(a: real, b: real)
    requires a >= 0.0 && b >= 0.0
    ensures a * b >= 0.0
  {}

  /** Taking the nearest integer loses at most half. */
  lemma NearestScaled(exact: real, rate: real)
    requires rate > 0.0
    ensures Paid(rate, (exact + 0.5).Floor) >= exact * rate - rate / 2.0
  {
    var w := (exact + 0.5).Floor as real;
    ScaleLess(exact - 0.5, w, rate);
    ScaleDifference(exact, 0.5, rate);
  }

  lemma ExactWaitPays(missing: real, rate: real)
    requires rate > 0.0 && missing > 0.0
    ensures ExactWait(missing, rate) >= 0.0 && ExactWait(missing, rate) * rate == Units(missing)
  {
    QuotientSign(missing, rate);
    ProductSign(missing / rate, SECOND as real);
    ScaleOfQuotient(missing, rate, SECOND as real);
  }

  /** Rounding loses at most half a nanosecond's worth of tokens. */
  lemma WaitIsNearest(missing: real, rate: real)
    requires rate > 0.0 && missing > 0.0
    ensures WaitFor(missing, rate) >= 0
    ensures Paid(rate, WaitFor(missing, rate)) >= Units(missing) - rate / 2.0
  {
    hide ExactWait, Units, Paid;
    ExactWaitPays(missing, rate);
    NearestScaled(ExactWait(missing, rate), rate);
  }

  lemma UnitsOfLess(tokens: real, less: real)
    ensures Units(tokens - less) == Units(tokens) - Units(less)
    ensures Units(1.0) == SECOND as real && Units(0.0) == 0.0
  {
    ScaleDifference(tokens, less, SECOND as real);
  }

  lemma UnitsGrow(a: real, b: real)
    requires a <= b
    ensures Units(a) <= Units(b)
  {
    ScaleLess(a, b, SECOND as real);
  }

  lemma PaidInTwo(rate: real, g: int, h: int)
    ensures Paid(rate, g + h) == Paid(rate, g) + Paid(rate, h)
  {
    assert (g + h) as real == g as real + h as real;
  }

  lemma PaidNothing(rate: real)
    ensures Paid(rate, 0) == 0.0
  {}

  lemma EarnedIsPaid(ns: int, rate: real)
    requires ns >= 0 && rate > 0.0
    ensures Earned(ns, rate) >= 0.0 && Units(Earned(ns, rate)) == Paid(rate, ns)
  {
    QuotientSign(ns as real, SECOND as real);
    ProductSign(ns as real / SECOND as real, rate);
    ScaleOfQuotient(ns as real, SECOND as real, rate);
  }

  /** What a call finds, in units: at most what there was and what the time since paid in. */
  lemma RefillPays(b: Bucket, now: int)
    requires b.rate > 0.0 && 0.0 <= b.tokens <= b.burst
    ensures var base := if now < b.last then b.last else now;
      && 0.0 <= Refill(b, now).tokens <= b.burst
      && Units(Refill(b, now).tokens) <= Units(b.tokens) + Paid(b.rate, base - b.last)
  {
    hide Earned, Units, Paid;
    if now < b.last {
      PaidNothing(b.rate);
    } else {
      var earned := Earned(now - b.last, b.rate);
      EarnedIsPaid(now - b.last, b.rate);
      UnitsGrow(Refill(b, now).tokens, b.tokens + earned);
      UnitsOfLess(b.tokens + earned, earned);
    }
  }

  /** What one call leaves, in units, against what it found: a token is spent, the time between the two grants is
      paid in, and rounding may add half a nanosecond's worth. */
  lemma OneReservation(b: Bucket, clock: int, now: int)
    requires Valid(b, clock) && clock <= now
    ensures var (a, wait) := Reserved(b, now);
      && Valid(a, now) && a.rate == b.rate && a.burst == b.burst
      && wait >= 0 && a.last == now + wait && a.last >= b.last
      && a.tokens <= b.burst - 1.0
      && Units(a.tokens) <= Units(b.tokens - 1.0) + Paid(b.rate, a.last - b.last) + b.rate / 2.0
  {
    hide Units, Paid, Refill, WaitFor;
    RefillKeeps(b, now);
    var f := Refill(b, now);
    RefillPays(b, now);
    UnitsOfLess(b.tokens, 1.0);
    UnitsOfLess(f.tokens, 1.0);
    if f.tokens < 1.0 {
      var missing := 1.0 - f.tokens;
      var base := if now < b.last then b.last else now;
      var w := WaitFor(missing, b.rate);
      WaitIsNearest(missing, b.rate);
      UnitsOfLess(1.0, f.tokens);
      PaidInTwo(b.rate, base - b.last, w);
      assert base - b.last + w == base + w - b.last;
    }
  }

  lemma RefillKeeps(b: Bucket, now: int)
    ensures var f := Refill(b, now);
      && f.rate == b.rate && f.burst == b.burst && f.last == (if now < b.last then b.last else now)
      && (now < b.last ==> f.tokens == b.tokens)
  {}

  // ---- runs ----

  /** The bucket after the first k calls of a run. */
  function After(b: Bucket, nows: seq<int>, k: nat): (r: Bucket)
    requires k <= |nows|
  {
    if k == 0 then b else Reserved(After(b, nows, k - 1), nows[k - 1]).0
  }

  /** When the caller of call k may go ahead. */
  function GrantTime(b: Bucket, nows: seq<int>, k: nat): (r: int)
    requires k < |nows|
  {
    nows[k] + Reserved(After(b, nows, k), nows[k]).1
  }

  ghost predicate InCallOrder(nows: seq<int>, start: int) {
    && (forall i :: 0 <= i < |nows| ==> start <= nows[i])
    && (forall i, j :: 0 <= i <= j < |nows| ==> nows[i] <= nows[j])
  }

  lemma {:induction false} RunValid(b: Bucket, nows: seq<int>, start: int, k: nat)
    requires Valid(b, start) && InCallOrder(nows, start) && k <= |nows|
    ensures var a := After(b, nows, k);
      && Valid(a, if k == 0 then start else nows[k - 1]) && a.rate == b.rate && a.burst == b.burst
      && (k > 0 ==> a.last == GrantTime(b, nows, k - 1) && a.tokens <= b.burst - 1.0)
  {
    hide Reserved, Valid;
    if k > 0 {
      RunValid(b, nows, start, k - 1);
      OneReservation(After(b, nows, k - 1), if k == 1 then start else nows[k - 2], nows[k - 1]);
      if k == 1 { } else { }
    }
  }

  /** Grants come in the order of the calls, and never before the call itself. */
  lemma {:induction false} GrantsInOrder(b: Bucket, nows: seq<int>, start: int, i: nat, j: nat)
    requires Valid(b, start) && InCallOrder(nows, start) && i <= j < |nows|
    ensures nows[j] <= GrantTime(b, nows, j)
    ensures GrantTime(b, nows, i) <= GrantTime(b, nows, j)
    decreases j
  {
    hide Reserved, Valid;
    RunValid(b, nows, start, j);
    OneReservation(After(b, nows, j), if j == 0 then start else nows[j - 1], nows[j]);
    if i < j {
      GrantsInOrder(b, nows, start, i, j - 1);
    }
  }

  lemma {:induction false} Spent(b: Bucket, nows: seq<int>, start: int, i: nat, j: nat)
    requires Valid(b, start) && InCallOrder(nows, start) && i <= j < |nows|
    ensures Units(After(b, nows, j + 1).tokens) <=
      Units(After(b, nows, i + 1).tokens) + Paid(b.rate, GrantTime(b, nows, j) - GrantTime(b, nows, i)) - Cost(j - i, b.rate)
    decreases j
  {
    hide Reserved, Valid, After, GrantTime, Units, Paid, Cost;
    if i < j {
      Spent(b, nows, start, i, j - 1);
      SpentOnce(b, nows, start, j);
      Split(b.rate, GrantTime(b, nows, j - 1) - GrantTime(b, nows, i), GrantTime(b, nows, j) - GrantTime(b, nows, j - 1), j - 1 - i);
    } else {
      Nothing(b.rate);
    }
  }

  lemma Nothing(rate: real)
    ensures Paid(rate, 0) == 0.0 && Cost(0, rate) == 0.0
  {}

  lemma Split(rate: real, g: int, h: int, n: nat)
    ensures Paid(rate, g + h) == Paid(rate, g) + Paid(rate, h)
    ensures Cost(n + 1, rate) == Cost(n, rate) + Cost(1, rate)
  {
    PaidInTwo(rate, g, h);
    hide Paid;
    CostOfOneMore(n, SECOND as real - rate / 2.0);
  }

  lemma CostOfOneMore(n: nat, each: real)
    ensures (n + 1) as real * each == n as real * each + 1 as real * each
  {
    assert (n + 1) as real == n as real + 1.0;
  }

  lemma SpentOnce(b: Bucket, nows: seq<int>, start: int, j: nat)
    requires Valid(b, start) && InCallOrder(nows, start) && 0 < j < |nows|
    ensures Units(After(b, nows, j + 1).tokens) <=
      Units(After(b, nows, j).tokens) + Paid(b.rate, GrantTime(b, nows, j) - GrantTime(b, nows, j - 1)) - Cost(1, b.rate)
  {
    hide Reserved, Valid;
    RunValid(b, nows, start, j);
    RunValid(b, nows, start, j + 1);
    OneReservation(After(b, nows, j), nows[j - 1], nows[j]);
  }

  /** Between any two grants of a run no more tokens are handed out than the burst and the rate allow,
      half a nanosecond of rounding per grant counted in. */
  lemma RateIsKept(b: Bucket, nows: seq<int>, start: int, i: nat, j: nat)
    requires Valid(b, start) && InCallOrder(nows, start) && i < j < |nows|
    ensures (j - i) as real * (1.0 - b.rate / (2 * SECOND) as real) <=
      b.burst - 1.0 + b.rate * (GrantTime(b, nows, j) - GrantTime(b, nows, i)) as real / SECOND as real
  {
    hide Reserved, After, GrantTime, Units, Paid, Cost;
    Spent(b, nows, start, i, j);
    RunValid(b, nows, start, i + 1);
    RunValid(b, nows, start, j + 1);
    PerSecond(After(b, nows, i + 1).tokens, After(b, nows, j + 1).tokens, b.rate, b.burst, j - i,
              GrantTime(b, nows, j) - GrantTime(b, nows, i));
  }

  lemma PerSecond(first: real, last: real, rate: real, burst: real, n: nat, ns: int)
    requires Units(last) <= Units(first) + Paid(rate, ns) - Cost(n, rate)
    requires last >= 0.0 && first <= burst - 1.0
    ensures n as real * (1.0 - rate / (2 * SECOND) as real) <= burst - 1.0 + rate * ns as real / SECOND as real
  {
    var s := SECOND as real;
    var used, paid := Cost(n, rate), Paid(rate, ns);
    ScaleLess(first, burst - 1.0, s);
    ScaleLess(0.0, last, s);
    assert Units(first) <= (burst - 1.0) * s && Units(last) >= 0.0;
    assert used <= (burst - 1.0) * s + paid;
    DivideBy(used, (burst - 1.0) * s + paid, s);
    assert used / s == n as real * (1.0 - rate / (2 * SECOND) as real);
  }

  lemma DivideBy(a: real, b: real, s: real)
    requires s > 0.0 && a <= b
    ensures a / s <= b / s
  {}

  // ---- promptness ----

  /** The wait is no longer than the missing tokens ask for, but for rounding. */
  lemma WaitIsNoLonger(missing: real, rate: real)
    requires rate > 0.0 && missing > 0.0
    ensures Paid(rate, WaitFor(missing, rate)) <= Units(missing) + rate / 2.0
  {
    ExactWaitPays(missing, rate);
    hide ExactWait, Units;
    var w := (ExactWait(missing, rate) + 0.5).Floor as real;
    ScaleLess(w, ExactWait(missing, rate) + 0.5, rate);
    ScaleDifference(ExactWait(missing, rate), -0.5, rate);
  }

  lemma EarnedIs(ns: int, rate: real)
    ensures Earned(ns, rate) == rate * ns as real / 1_000_000_000.0
  {}

  /** A call that finds a whole token among those left and those earned since, at the rate and up to the burst, goes
      at once and takes just that one; any other takes what there is and goes as soon as the rest of the token is
      earned, but for half a nanosecond of rounding. */
  lemma TokensComeBack(b: Bucket, clock: int, now: int)
    requires Valid(b, clock) && clock <= now
    ensures var (a, wait) := Reserved(b, now);
      var earned := b.tokens + b.rate * (now - b.last) as real / 1_000_000_000.0;
      var found := if earned > b.burst then b.burst else earned;
      if now >= b.last && found >= 1.0 then wait == 0 && a.last == now && a.tokens == found - 1.0
      else a.tokens == 0.0 && Paid(b.rate, a.last - b.last) <= Units(1.0 - b.tokens) + b.rate / 2.0
  {
    EarnedIs(now - b.last, b.rate);
    hide Earned, Units, Paid, WaitFor;
    if now < b.last {
      WaitIsNoLonger(1.0, b.rate);
    } else if Refill(b, now).tokens < 1.0 {
      RestIsWaited(b, now);
    }
  }

  lemma RestIsWaited(b: Bucket, now: int)
    requires b.rate > 0.0 && b.burst >= 1.0 && b.last <= now && Refill(b, now).tokens < 1.0
    ensures Paid(b.rate, now + WaitFor(1.0 - Refill(b, now).tokens, b.rate) - b.last) <= Units(1.0 - b.tokens) + b.rate / 2.0
  {
    var f, earned := Refill(b, now), Earned(now - b.last, b.rate);
    var w := WaitFor(1.0 - f.tokens, b.rate);
    EarnedIsPaid(now - b.last, b.rate);
    hide Earned, Units, Paid, WaitFor;
    WaitIsNoLonger(1.0 - f.tokens, b.rate);
    UnitsOfLess(1.0 - b.tokens, earned);
    assert 1.0 - b.tokens - earned == 1.0 - f.tokens;
    PaidInTwo(b.rate, now - b.last, w);
    assert now - b.last + w == now + w - b.last;
  }

  /** In a run every grant is at its call, or at most one token's time after the grant before it. */
  lemma GrantsArePrompt(b: Bucket, nows: seq<int>, start: int, k: nat)
    requires Valid(b, start) && InCallOrder(nows, start) && 0 < k < |nows|
    ensures GrantTime(b, nows, k) == nows[k]
      || Paid(b.rate, GrantTime(b, nows, k) - GrantTime(b, nows, k - 1)) <= Units(1.0) + b.rate / 2.0
  {
    RunValid(b, nows, start, k);
    RunValid(b, nows, start, k + 1);
    var a := After(b, nows, k);
    TokensComeBack(a, nows[k - 1], nows[k]);
    UnitsGrow(1.0 - a.tokens, 1.0);
    hide Reserved, Units, Paid;
  }

  /** After an idle time since the last grant that pays for the whole burst, as many calls as the burst go at once, and
      leave of it all but what they took. */
  lemma {:induction false} IdleRestoresBurst(b: Bucket, nows: seq<int>, start: int, i: nat, k: nat)
    requires Valid(b, start) && InCallOrder(nows, start) && 0 < i <= k < |nows|
    requires Paid(b.rate, nows[i] - GrantTime(b, nows, i - 1)) >= Units(b.burst) && (k - i + 1) as real <= b.burst
    ensures GrantTime(b, nows, k) == nows[k] && After(b, nows, k + 1).tokens >= b.burst - (k - i + 1) as real
    decreases k
  {
    RunValid(b, nows, start, k);
    RunValid(b, nows, start, k + 1);
    var a := After(b, nows, k);
    if i < k { IdleRestoresBurst(b, nows, start, i, k - 1); }
    hide Reserved, Units, Paid;
    assert InCallOrder(nows, start) ==> nows[k - 1] <= nows[k];
    EnoughEarned(a, nows[k - 1], nows[k], if k == i then b.burst else b.burst - (k - i) as real);
  }

  /** What a call at `now` finds. */
  function Found(b: Bucket, now: int): (r: real) {
    var earned := b.tokens + Extra(b.rate, now - b.last);
    if earned > b.burst then b.burst else earned
  }

  function Extra(rate: real, ns: int): (r: real) {
    rate * ns as real / 1_000_000_000.0
  }

  lemma CallTakes(b: Bucket, clock: int, now: int)
    requires Valid(b, clock) && clock <= now
    ensures now >= b.last && Found(b, now) >= 1.0 ==>
      var (a, wait) := Reserved(b, now); wait == 0 && a.tokens == Found(b, now) - 1.0
  {
    TokensComeBack(b, clock, now);
    hide Reserved;
  }

  lemma EnoughEarned(b: Bucket, clock: int, now: int, want: real)
    requires Valid(b, clock) && clock <= now && 1.0 <= want <= b.burst
    requires (now >= b.last && b.tokens >= want) || Paid(b.rate, now - b.last) >= Units(b.burst)
    ensures var (a, wait) := Reserved(b, now); wait == 0 && a.tokens >= want - 1.0
  {
    CallTakes(b, clock, now);
    IdleEarnsBurst(b.rate, now - b.last, b.burst);
    hide Reserved, Units, Paid, Extra;
  }

  lemma IdleEarnsBurst(rate: real, ns: int, burst: real)
    requires rate > 0.0 && burst >= 1.0
    ensures Paid(rate, ns) >= Units(burst) ==> ns >= 0 && Extra(rate, ns) >= burst
    ensures ns >= 0 ==> Extra(rate, ns) >= 0.0
  {
    if ns < 0 {
      ScaleLess(ns as real, 0.0, rate);
    } else {
      ScaleLess(0.0, ns as real, rate);
      DivideBy(0.0, rate * ns as real, 1_000_000_000.0);
    }
  }

  // ---- simultaneous calls ----

  /** Of calls at one instant on a fresh limiter, the first `burst` go at once and each further one waits
      one rounded token interval longer than the one before. */
  lemma {:induction false} SimultaneousWaits(rate: int, burst: int, start: int, now: int, nows: seq<int>, k: nat)
    requires rate >= 1 && burst >= 1 && start <= now
    requires k < |nows| && forall i :: 0 <= i < |nows| ==> nows[i] == now
    ensures GrantTime(Fresh(rate, burst, start), nows, k) - now ==
      (if k < burst then 0 else (k + 1 - burst) * WaitFor(1.0, rate as real))
  {
    hide Reserved, After, GrantTime, Valid, WaitFor;
    var b := Fresh(rate, burst, start);
    SimultaneousState(rate, burst, start, now, nows, k + 1);
    FreshIsValid(rate, burst, start);
    RunValid(b, nows, start, k + 1);
    OneInterval(k + 1 - burst, WaitFor(1.0, rate as real));
  }

  lemma FreshIsValid(rate: int, burst: int, now: int)
    requires rate >= 1 && burst >= 1
    ensures Valid(Fresh(rate, burst, now), now)
  {}

  /** A number of intervals; a function, so that no solver multiplies it out. */
  function Intervals(n: int, w: int): (r: int) {
    n * w
  }

  lemma OneInterval(n: int, w: int)
    ensures Intervals(n + 1, w) == Intervals(n, w) + w && Intervals(0, w) == 0
    ensures Intervals(n, w) == n * w
  {}

  lemma WaitPositive(rate: int)
    requires rate >= 1
    ensures WaitFor(1.0, rate as real) >= 0
  {
    WaitIsNearest(1.0, rate as real);
  }

  lemma {:induction false} SimultaneousState(rate: int, burst: int, start: int, now: int, nows: seq<int>, k: nat)
    requires rate >= 1 && burst >= 1 && start <= now
    requires k <= |nows| && forall i :: 0 <= i < |nows| ==> nows[i] == now
    ensures var a := After(Fresh(rate, burst, start), nows, k); var w := WaitFor(1.0, rate as real);
      && a.rate == rate as real && a.burst == burst as real
      && (k == 0 ==> a == Fresh(rate, burst, start))
      && (0 < k <= burst ==> a.tokens == (burst - k) as real && a.last == now)
      && (k > burst ==> a.tokens == 0.0 && a.last == now + Intervals(k - burst, w))
  {
    hide Reserved, WaitFor, Intervals;
    if k > 0 {
      SimultaneousState(rate, burst, start, now, nows, k - 1);
      if k == 1 {
        FirstAtOnce(rate, burst, start, now);
      } else {
        NextAtOnce(After(Fresh(rate, burst, start), nows, k - 1), rate, burst, now, k - 1);
      }
    }
  }

  lemma FirstAtOnce(rate: int, burst: int, start: int, now: int)
    requires rate >= 1 && burst >= 1 && start <= now
    ensures Reserved(Fresh(rate, burst, start), now).0 == Fresh(rate, burst, now).(tokens := (burst - 1) as real)
  {
    var earned := (now - start) as real / SECOND as real * rate as real;
    assert earned >= 0.0;
  }

  lemma NextAtOnce(b: Bucket, rate: int, burst: int, now: int, k: nat)
    requires rate >= 1 && burst >= 1 && k >= 1 && b.rate == rate as real && b.burst == burst as real
    requires k <= burst ==> b.tokens == (burst - k) as real && b.last == now
    requires k > burst ==> b.tokens == 0.0 && b.last == now + Intervals(k - burst, WaitFor(1.0, rate as real))
    ensures var a := Reserved(b, now).0;
      && a.rate == b.rate && a.burst == b.burst
      && (k + 1 <= burst ==> a.tokens == (burst - k - 1) as real && a.last == now)
      && (k + 1 > burst ==> a.tokens == 0.0 && a.last == now + Intervals(k + 1 - burst, WaitFor(1.0, rate as real)))
  {
    WaitPositive(rate);
    var w := WaitFor(1.0, rate as real);
    EarnedNothing(rate as real);
    OneInterval(k - burst, w);
    IntervalsAhead(k - burst, w);
    hide WaitFor, Intervals, Earned;
    if k <= burst {
      assert Refill(b, now) == b;
    }
  }

  lemma EarnedNothing(rate: real)
    ensures Earned(0, rate) == 0.0
  {}

  lemma IntervalsAhead(n: int, w: int)
    requires w >= 0
    ensures n >= 0 ==> Intervals(n, w) >= 0
  {}
}
