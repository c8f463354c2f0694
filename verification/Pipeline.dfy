/** The validation pipeline as a step machine: sources push candidates into a bounded channel, validators
    take them through two nested semaphores, and routine checks share the inner one. Every step is one
    atomic action of one thread, in any interleaving. */
module Pipeline {
  import opened Proxies

  const DEFAULT_WORKERS: int := 20
  const MAX_WORKERS: int := 256

  function ConfiguredWorkers(workers: int): (w: nat)
    ensures 1 <= w <= MAX_WORKERS
  {
    if workers <= 0 then DEFAULT_WORKERS else if workers > MAX_WORKERS then MAX_WORKERS else workers
  }

  /** Slots kept back for routine checks; at least one is always left for candidates. */
  function ConfiguredReserved(workers: nat, reserved: int): (r: nat)
    requires workers >= 1
    ensures r < workers
    ensures workers >= 2 ==> r >= 1
  {
    if workers <= 1 then 0
    else
      var wanted := if reserved > 0 then reserved else if workers / 5 > 1 then workers / 5 else 1;
      if wanted >= workers then workers - 1 else wanted
  }

  /** Settings in range are taken as they are; by default there are 20 workers, at most 256, and a fifth of them is kept
      back, at least one and never all. */
  lemma ConfiguredShares(workers: int, reserved: int)
    ensures var w := ConfiguredWorkers(workers); var r := ConfiguredReserved(w, reserved);
      && w == (if 1 <= workers <= 256 then workers else if workers <= 0 then 20 else 256)
      && (1 <= reserved < w ==> r == reserved) && (reserved >= w ==> r == w - 1)
      && (reserved <= 0 && w >= 2 ==> 5 * r <= w < 5 * r + 5 || (w < 5 && r == 1))
  {}

  // ---- threads ----

  /** Pushing one candidate: the key is claimed, then counted, then the job is sent. */
  datatype Source = Resting | Claimed(uri: string) | Counted(uri: string)

  /** A validator, from taking a job to its deferred releases, in the order they run. */
  datatype Validator =
    | Waiting
    | Took(uri: string)            // received, ownership not yet tried
    | Checking(uri: string)        // owns the key in pendingValidate
    | WantsCandidate(uri: string)  // waits for a candidate slot
    | WantsSlot(uri: string)       // holds a candidate slot, waits for a validation slot
    | Active(uri: string)          // holds both
    | Leaving(uri: string)         // gave the validation slot back
    | Finished(uri: string)        // gave both back, still holds both keys
    | Uncounting(uri: string)      // deleted its key from queuedCandidates, counter not yet lowered
    | Disowning(uri: string)       // about to delete its key from pendingValidate

  /** The single periodic pass over the rows that are due. */
  datatype Verifier = NoPass | Enqueuing(uri: string)

  datatype Routine =
    | Free
    | Received(uri: string)
    | AwaitsSlot(uri: string)
    | Probing(uri: string)         // holds a validation slot
    | Released(uri: string)        // about to delete its key from pendingVerify

  datatype State = State(
    workers: nat, reserved: nat,
    sources: seq<Source>, jobs: seq<string>, validators: seq<Validator>,
    queued: set<string>, queuedCount: int, pending: set<string>,
    dropped: set<string>,          // keys left in queuedCandidates when their job was skipped
    candidateSlots: nat, slots: nat,
    verifier: Verifier, verifyJobs: seq<string>, routines: seq<Routine>, pendingVerify: set<string>)

  datatype Step =
    | Claim(i: nat, uri: string) | Count(i: nat) | Push(i: nat)
    | Take(j: nat) | Own(j: nat) | Reject(j: nat) | Ask(j: nat) | GetCandidate(j: nat) | GetSlot(j: nat)
    | GiveSlot(j: nat) | GiveCandidate(j: nat) | Forget(j: nat) | Uncount(j: nat) | Disown(j: nat)
    | ClaimDue(uri: string) | NoLongerDue | Enqueue
    | Receive(k: nat) | Locked(k: nat) | Queue(k: nat) | Enter(k: nat) | Leave(k: nat) | Release(k: nat)

  function MoveSource(s: State, i: nat, pc: Source): (r: State)
    requires i < |s.sources|
  {
    s.(sources := s.sources[i := pc])
  }

  function MoveValidator(s: State, j: nat, pc: Validator): (r: State)
    requires j < |s.validators|
  {
    s.(validators := s.validators[j := pc])
  }

  function MoveRoutine(s: State, k: nat, pc: Routine): (r: State)
    requires k < |s.routines|
  {
    s.(routines := s.routines[k := pc])
  }

  function DoSource(s: State, step: Step): (r: Option<State>) {
    match step
    case Claim(i, u) =>
      if i < |s.sources| && s.sources[i].Resting? then
        if u in s.queued then Some(s) else Some(MoveSource(s, i, Claimed(u)).(queued := s.queued + {u}))
      else None
    case Count(i) =>
      if i < |s.sources| && s.sources[i].Claimed? then
        Some(MoveSource(s, i, Counted(s.sources[i].uri)).(queuedCount := s.queuedCount + 1))
      else None
    case Push(i) =>
      if i < |s.sources| && s.sources[i].Counted? && |s.jobs| < 2 * s.workers then
        Some(MoveSource(s, i, Resting).(jobs := s.jobs + [s.sources[i].uri]))
      else None
    case _ => None
  }

  /** Steps of a validator that take, claim or release a key. */
  function DoKeys(s: State, step: Step): (r: Option<State>) {
    match step
    case Take(j) =>
      if j < |s.validators| && s.validators[j].Waiting? && s.jobs != [] then
        Some(MoveValidator(s, j, Took(s.jobs[0])).(jobs := s.jobs[1..]))
      else None
    case Own(j) =>
      if j < |s.validators| && s.validators[j].Took? then
        var u := s.validators[j].uri;
        if u in s.pending then Some(MoveValidator(s, j, Waiting).(dropped := s.dropped + {u}))
        else Some(MoveValidator(s, j, Checking(u)).(pending := s.pending + {u}))
      else None
    case Forget(j) =>
      if j < |s.validators| && s.validators[j].Finished? then
        var u := s.validators[j].uri;
        if u in s.queued then Some(MoveValidator(s, j, Uncounting(u)).(queued := s.queued - {u}))
        else Some(MoveValidator(s, j, Disowning(u)))
      else None
    case Disown(j) =>
      if j < |s.validators| && s.validators[j].Disowning? then
        Some(MoveValidator(s, j, Waiting).(pending := s.pending - {s.validators[j].uri}))
      else None
    case _ => None
  }

  /** Steps of a validator between those: its decision, its slots, and the counter. */
  function DoSlots(s: State, step: Step): (r: Option<State>) {
    match step
    case Reject(j) =>
      if j < |s.validators| && s.validators[j].Checking? then Some(MoveValidator(s, j, Finished(s.validators[j].uri))) else None
    case Ask(j) =>
      if j < |s.validators| && s.validators[j].Checking? then Some(MoveValidator(s, j, WantsCandidate(s.validators[j].uri))) else None
    case GetCandidate(j) =>
      if j < |s.validators| && s.validators[j].WantsCandidate? && s.candidateSlots < s.workers - s.reserved then
        Some(MoveValidator(s, j, WantsSlot(s.validators[j].uri)).(candidateSlots := s.candidateSlots + 1))
      else None
    case GetSlot(j) =>
      if j < |s.validators| && s.validators[j].WantsSlot? && s.slots < s.workers then
        Some(MoveValidator(s, j, Active(s.validators[j].uri)).(slots := s.slots + 1))
      else None
    case GiveSlot(j) =>
      if j < |s.validators| && s.validators[j].Active? && s.slots > 0 then
        Some(MoveValidator(s, j, Leaving(s.validators[j].uri)).(slots := s.slots - 1))
      else None
    case GiveCandidate(j) =>
      if j < |s.validators| && s.validators[j].Leaving? && s.candidateSlots > 0 then
        Some(MoveValidator(s, j, Finished(s.validators[j].uri)).(candidateSlots := s.candidateSlots - 1))
      else None
    case Uncount(j) =>
      if j < |s.validators| && s.validators[j].Uncounting? then
        Some(MoveValidator(s, j, Disowning(s.validators[j].uri)).(queuedCount := s.queuedCount - 1))
      else None
    case _ => None
  }

  function DoRoutine(s: State, step: Step): (r: Option<State>) {
    match step
    case ClaimDue(u) =>
      if s.verifier.NoPass? then
        if u in s.pendingVerify then Some(s)
        else Some(s.(verifier := Enqueuing(u), pendingVerify := s.pendingVerify + {u}))
      else None
    case NoLongerDue =>
      if s.verifier.Enqueuing? then Some(s.(verifier := NoPass, pendingVerify := s.pendingVerify - {s.verifier.uri})) else None
    case Enqueue =>
      if s.verifier.Enqueuing? && |s.verifyJobs| < s.workers then
        Some(s.(verifier := NoPass, verifyJobs := s.verifyJobs + [s.verifier.uri]))
      else None
    case Receive(k) =>
      if k < |s.routines| && s.routines[k].Free? && s.verifyJobs != [] then
        Some(MoveRoutine(s, k, Received(s.verifyJobs[0])).(verifyJobs := s.verifyJobs[1..]))
      else None
    case Locked(k) =>
      if k < |s.routines| && s.routines[k].Received? then Some(MoveRoutine(s, k, Released(s.routines[k].uri))) else None
    case Queue(k) =>
      if k < |s.routines| && s.routines[k].Received? then Some(MoveRoutine(s, k, AwaitsSlot(s.routines[k].uri))) else None
    case Enter(k) =>
      if k < |s.routines| && s.routines[k].AwaitsSlot? && s.slots < s.workers then
        Some(MoveRoutine(s, k, Probing(s.routines[k].uri)).(slots := s.slots + 1))
      else None
    case Leave(k) =>
      if k < |s.routines| && s.routines[k].Probing? && s.slots > 0 then
        Some(MoveRoutine(s, k, Released(s.routines[k].uri)).(slots := s.slots - 1))
      else None
    case Release(k) =>
      if k < |s.routines| && s.routines[k].Released? then
        Some(MoveRoutine(s, k, Free).(pendingVerify := s.pendingVerify - {s.routines[k].uri}))
      else None
    case _ => None
  }

  predicate MovesKey(step: Step) {
    step.Take? || step.Own? || step.Forget? || step.Disown?
  }

  predicate OfSource(step: Step) {
    step.Claim? || step.Count? || step.Push?
  }

  predicate OfRoutine(step: Step) {
    step.ClaimDue? || step.NoLongerDue? || step.Enqueue? || step.Receive? || step.Locked?
    || step.Queue? || step.Enter? || step.Leave? || step.Release?
  }

  /** None when the thread is elsewhere or blocked. */
  function Do(s: State, step: Step): (r: Option<State>) {
    if OfSource(step) then DoSource(s, step)
    else if OfRoutine(step) then DoRoutine(s, step)
    else if MovesKey(step) then DoKeys(s, step)
    else DoSlots(s, step)
  }

  function Start(workers: nat, reserved: nat, sources: nat): (r: State) {
    State(workers, reserved, seq(sources, i => Resting), [], seq(workers, i => Waiting),
          {}, 0, {}, {}, 0, 0, NoPass, [], seq(workers, i => Free), {})
  }

  // ---- what threads hold ----

  function Keys<P>(threads: seq<P>, key: P -> multiset<string>): (r: multiset<string>) {
    if threads == [] then multiset{} else key(threads[0]) + Keys(threads[1..], key)
  }

  function Number<P>(threads: seq<P>, weight: P -> nat): (r: nat) {
    if threads == [] then 0 else weight(threads[0]) + Number(threads[1..], weight)
  }

  /** The candidate a source is pushing. */
  function Pushing(pc: Source): (r: multiset<string>) {
    if pc.Resting? then multiset{} else multiset{pc.uri}
  }

  function Uncounted(pc: Source): (r: nat) {
    if pc.Claimed? then 1 else 0
  }

  /** The candidate whose key in queuedCandidates the validator has yet to release. */
  function Handling(pc: Validator): (r: multiset<string>) {
    if pc.Waiting? || pc.Uncounting? || pc.Disowning? then multiset{} else multiset{pc.uri}
  }

  /** The key the validator holds in pendingValidate. */
  function Owning(pc: Validator): (r: multiset<string>) {
    if pc.Waiting? || pc.Took? then multiset{} else multiset{pc.uri}
  }

  function Overcounted(pc: Validator): (r: nat) {
    if pc.Uncounting? then 1 else 0
  }

  function HoldsCandidate(pc: Validator): (r: nat) {
    if pc.WantsSlot? || pc.Active? || pc.Leaving? then 1 else 0
  }

  function IsActive(pc: Validator): (r: nat) {
    if pc.Active? then 1 else 0
  }

  function Sending(pc: Verifier): (r: multiset<string>) {
    if pc.NoPass? then multiset{} else multiset{pc.uri}
  }

  function Verifying(pc: Routine): (r: multiset<string>) {
    if pc.Free? then multiset{} else multiset{pc.uri}
  }

  function IsProbing(pc: Routine): (r: nat) {
    if pc.Probing? then 1 else 0
  }

  // ---- the invariant ----

  ghost predicate ConfigOK(s: State) {
    && s.reserved < s.workers && |s.validators| == s.workers && |s.routines| == s.workers
    && |s.jobs| <= 2 * s.workers && |s.verifyJobs| <= s.workers
  }

  /** Every key in queuedCandidates stands for exactly one push in progress, queued job, validator that
      has not released it, or dropped job. */
  ghost predicate QueuedOK(s: State) {
    Keys(s.sources, Pushing) + multiset(s.jobs) + Keys(s.validators, Handling) + multiset(s.dropped) == multiset(s.queued)
  }

  /** Every key in pendingValidate stands for exactly one validator between taking and giving it up. */
  ghost predicate PendingOK(s: State) {
    Keys(s.validators, Owning) == multiset(s.pending)
  }

  /** The counter differs from the number of keys only by threads between the two updates. */
  ghost predicate CountOK(s: State) {
    s.queuedCount == |s.queued| - Number(s.sources, Uncounted) + Number(s.validators, Overcounted)
  }

  ghost predicate SlotsOK(s: State) {
    && s.candidateSlots == Number(s.validators, HoldsCandidate) && s.candidateSlots <= s.workers - s.reserved
    && s.slots == Number(s.validators, IsActive) + Number(s.routines, IsProbing) && s.slots <= s.workers
  }

  ghost predicate VerifyOK(s: State) {
    Sending(s.verifier) + multiset(s.verifyJobs) + Keys(s.routines, Verifying) == multiset(s.pendingVerify)
  }

  ghost predicate Inv(s: State) {
    ConfigOK(s) && QueuedOK(s) && PendingOK(s) && CountOK(s) && SlotsOK(s) && VerifyOK(s)
  }

  lemma {:induction false} KeysMove<P>(threads: seq<P>, i: nat, pc: P, key: P -> multiset<string>)
    requires i < |threads|
    ensures Keys(threads[i := pc], key) + key(threads[i]) == Keys(threads, key) + key(pc)
  {
    var r := threads[i := pc];
    if i == 0 {
      assert r[1..] == threads[1..];
      Swap(key(pc), key(threads[0]), Keys(threads[1..], key));
    } else {
      assert r[1..] == threads[1..][i - 1 := pc];
      KeysMove(threads[1..], i - 1, pc, key);
      Beside(key(threads[0]), Keys(r[1..], key), Keys(threads[1..], key), key(threads[i]), key(pc));
    }
  }

  lemma Swap(a: multiset<string>, b: multiset<string>, rest: multiset<string>)
    ensures (a + rest) + b == (b + rest) + a
  {}

  /** Adding the same keys on both sides of a balanced move. */
  lemma Beside(more: multiset<string>, after: multiset<string>, before: multiset<string>, out: multiset<string>, came: multiset<string>)
    requires after + out == before + came
    ensures (more + after) + out == (more + before) + came
  {
    forall u ensures ((more + after) + out)[u] == ((more + before) + came)[u] {
      assert (after + out)[u] == (before + came)[u];
    }
  }

  lemma {:induction false} NumberMove<P>(threads: seq<P>, i: nat, pc: P, weight: P -> nat)
    requires i < |threads|
    ensures Number(threads[i := pc], weight) + weight(threads[i]) == Number(threads, weight) + weight(pc)
    ensures weight(threads[i]) <= Number(threads, weight)
  {
    var r := threads[i := pc];
    if i == 0 {
      assert r[1..] == threads[1..];
    } else {
      assert r[1..] == threads[1..][i - 1 := pc];
      NumberMove(threads[1..], i - 1, pc, weight);
    }
  }

  lemma {:induction false} KeysOf<P>(threads: seq<P>, i: nat, key: P -> multiset<string>)
    requires i < |threads|
    ensures key(threads[i]) <= Keys(threads, key)
  {
    if i > 0 {
      KeysOf(threads[1..], i - 1, key);
    }
  }

  lemma {:induction false} TwoKeys<P>(threads: seq<P>, i: nat, j: nat, key: P -> multiset<string>, u: string)
    requires i < j < |threads| && u in key(threads[i]) && u in key(threads[j])
    ensures Keys(threads, key)[u] >= 2
  {
    if i > 0 {
      TwoKeys(threads[1..], i - 1, j - 1, key, u);
    } else {
      KeysOf(threads[1..], j - 1, key);
    }
  }

  lemma {:induction false} NoKeys<P>(threads: seq<P>, key: P -> multiset<string>)
    requires forall i :: 0 <= i < |threads| ==> key(threads[i]) == multiset{}
    ensures Keys(threads, key) == multiset{}
  {
    if threads != [] {
      NoKeys(threads[1..], key);
    }
  }

  lemma {:induction false} NoNumber<P>(threads: seq<P>, weight: P -> nat)
    requires forall i :: 0 <= i < |threads| ==> weight(threads[i]) == 0
    ensures Number(threads, weight) == 0
  {
    if threads != [] {
      NoNumber(threads[1..], weight);
    }
  }

  lemma AddKey(keys: set<string>, u: string)
    requires u !in keys
    ensures forall v :: multiset(keys + {u})[v] == multiset(keys)[v] + (if v == u then 1 else 0)
    ensures |keys + {u}| == |keys| + 1
  {}

  lemma RemoveKey(keys: set<string>, u: string)
    requires u in keys
    ensures forall v :: multiset(keys - {u})[v] + (if v == u then 1 else 0) == multiset(keys)[v]
    ensures |keys - {u}| == |keys| - 1
  {}

  lemma StartOK(workers: nat, reserved: nat, sources: nat)
    requires reserved < workers
    ensures Inv(Start(workers, reserved, sources))
  {
    var s := Start(workers, reserved, sources);
    NoKeys(s.sources, Pushing);
    NoKeys(s.validators, Handling);
    NoKeys(s.validators, Owning);
    NoKeys(s.routines, Verifying);
    NoNumber(s.sources, Uncounted);
    NoNumber(s.validators, Overcounted);
    NoNumber(s.validators, HoldsCandidate);
    NoNumber(s.validators, IsActive);
    NoNumber(s.routines, IsProbing);
  }

  /** Whatever is configured, the process starts in such a state. */
  lemma ConfiguredStartOK(workers: int, reserved: int, sources: nat)
    ensures var w := ConfiguredWorkers(workers);
      Inv(Start(w, ConfiguredReserved(w, reserved), sources))
  {
    hide Inv, Start;
    var w := ConfiguredWorkers(workers);
    StartOK(w, ConfiguredReserved(w, reserved), sources);
  }

  // ---- every step keeps the invariant ----

  /** The left side of QueuedOK, key by key. */
  lemma QueuedPointwise(s: State)
    ensures QueuedOK(s) <==> forall u: string ::
      Keys(s.sources, Pushing)[u] + multiset(s.jobs)[u] + Keys(s.validators, Handling)[u] + multiset(s.dropped)[u] == multiset(s.queued)[u]
  {
    hide Keys;
    var all := Keys(s.sources, Pushing) + multiset(s.jobs) + Keys(s.validators, Handling) + multiset(s.dropped);
    forall u: string ensures all[u] ==
      Keys(s.sources, Pushing)[u] + multiset(s.jobs)[u] + Keys(s.validators, Handling)[u] + multiset(s.dropped)[u] {}
  }

  lemma VerifyPointwise(s: State)
    ensures VerifyOK(s) <==> forall u: string ::
      Sending(s.verifier)[u] + multiset(s.verifyJobs)[u] + Keys(s.routines, Verifying)[u] == multiset(s.pendingVerify)[u]
  {
    hide Keys, Sending;
    var all := Sending(s.verifier) + multiset(s.verifyJobs) + Keys(s.routines, Verifying);
    forall u: string ensures all[u] ==
      Sending(s.verifier)[u] + multiset(s.verifyJobs)[u] + Keys(s.routines, Verifying)[u] {}
  }

  lemma KeysMovePointwise<P>(threads: seq<P>, i: nat, pc: P, key: P -> multiset<string>)
    requires i < |threads|
    ensures forall u: string ::
      Keys(threads[i := pc], key)[u] + key(threads[i])[u] == Keys(threads, key)[u] + key(pc)[u]
  {
    KeysMove(threads, i, pc, key);
    hide Keys;
    forall u: string ensures Keys(threads[i := pc], key)[u] + key(threads[i])[u] == Keys(threads, key)[u] + key(pc)[u] {
      assert (Keys(threads[i := pc], key) + key(threads[i]))[u] == (Keys(threads, key) + key(pc))[u];
    }
  }

  lemma SourceKeeps(s: State, step: Step)
    requires Inv(s) && OfSource(step) && Do(s, step).Some?
    ensures Inv(Do(s, step).value)
  {
    hide Keys, Number;
    var r := Do(s, step).value;
    if r != s {
      var i := step.i;
      NumberMove(s.sources, i, r.sources[i], Uncounted);
      if step.Claim? {
        AddKey(s.queued, step.uri);
      }
      SourceKeepsQueued(s, step);
    }
  }

  /** A step that moves one source keeps the keys in step if the move, the queue and the map agree key by key. */
  lemma RebalanceSources(s: State, r: State, i: nat)
    requires QueuedOK(s) && i < |s.sources| && r.validators == s.validators && r.dropped == s.dropped
    requires |r.sources| == |s.sources| && r.sources == s.sources[i := r.sources[i]]
    requires forall u: string ::
      multiset(r.jobs)[u] + Pushing(r.sources[i])[u] + multiset(s.queued)[u] ==
      multiset(s.jobs)[u] + Pushing(s.sources[i])[u] + multiset(r.queued)[u]
    ensures QueuedOK(r)
  {
    KeysMovePointwise(s.sources, i, r.sources[i], Pushing);
    QueuedPointwise(s);
    QueuedPointwise(r);
    hide Keys, QueuedOK, Pushing;
    forall u: string ensures
      Keys(r.sources, Pushing)[u] + multiset(r.jobs)[u] + Keys(r.validators, Handling)[u] + multiset(r.dropped)[u]
        == multiset(r.queued)[u]
    {
      assert Keys(s.sources[i := r.sources[i]], Pushing)[u] + Pushing(s.sources[i])[u]
        == Keys(s.sources, Pushing)[u] + Pushing(r.sources[i])[u];
    }
  }

  lemma SourceKeepsQueued(s: State, step: Step)
    requires QueuedOK(s) && OfSource(step) && Do(s, step).Some?
    ensures QueuedOK(Do(s, step).value)
  {
    hide QueuedOK;
    var r := Do(s, step).value;
    if r != s {
      RebalanceSources(s, r, step.i);
    }
  }

  /** What a validator's move does to the numbers it takes part in. */
  lemma ValidatorNumbers(s: State, j: nat, pc: Validator)
    requires j < |s.validators|
    ensures var r := s.validators[j := pc]; var was := s.validators[j];
      && Number(r, Overcounted) + Overcounted(was) == Number(s.validators, Overcounted) + Overcounted(pc)
      && Number(r, HoldsCandidate) + HoldsCandidate(was) == Number(s.validators, HoldsCandidate) + HoldsCandidate(pc)
      && Number(r, IsActive) + IsActive(was) == Number(s.validators, IsActive) + IsActive(pc)
  {
    hide Overcounted, HoldsCandidate, IsActive;
    NumberMove(s.validators, j, pc, Overcounted);
    NumberMove(s.validators, j, pc, HoldsCandidate);
    NumberMove(s.validators, j, pc, IsActive);
  }

  lemma SameKeys<P>(threads: seq<P>, j: nat, pc: P, key: P -> multiset<string>)
    requires j < |threads| && key(pc) == key(threads[j])
    ensures Keys(threads[j := pc], key) == Keys(threads, key)
  {
    KeysMovePointwise(threads, j, pc, key);
    hide Keys;
    assert forall u: string :: Keys(threads[j := pc], key)[u] == Keys(threads, key)[u];
  }

  /** A move that passes no key on: only slots and the counter may follow it. */
  ghost predicate PassesNoKey(s: State, j: nat, r: State) {
    && j < |s.validators| && |r.validators| == |s.validators|
    && r == s.(validators := s.validators[j := r.validators[j]], queuedCount := r.queuedCount,
               candidateSlots := r.candidateSlots, slots := r.slots)
    && Handling(r.validators[j]) == Handling(s.validators[j]) && Owning(r.validators[j]) == Owning(s.validators[j])
    && r.queuedCount == s.queuedCount + Overcounted(r.validators[j]) - Overcounted(s.validators[j])
    && r.candidateSlots == s.candidateSlots + HoldsCandidate(r.validators[j]) - HoldsCandidate(s.validators[j])
    && r.slots == s.slots + IsActive(r.validators[j]) - IsActive(s.validators[j])
    && r.candidateSlots <= s.workers - s.reserved && r.slots <= s.workers
  }

  lemma PassingKeepsKeys(s: State, j: nat, r: State)
    requires QueuedOK(s) && PendingOK(s) && PassesNoKey(s, j, r)
    ensures QueuedOK(r) && PendingOK(r)
  {
    SameKeys(s.validators, j, r.validators[j], Handling);
    SameKeys(s.validators, j, r.validators[j], Owning);
    hide Keys, Number, Handling, Owning, Overcounted, HoldsCandidate, IsActive;
  }

  lemma PassingKeepsNumbers(s: State, j: nat, r: State)
    requires CountOK(s) && SlotsOK(s) && PassesNoKey(s, j, r)
    ensures CountOK(r) && SlotsOK(r)
  {
    ValidatorNumbers(s, j, r.validators[j]);
    hide Keys, Number, Handling, Owning, Overcounted, HoldsCandidate, IsActive;
  }

  lemma PassingKeeps(s: State, j: nat, r: State)
    requires Inv(s) && PassesNoKey(s, j, r)
    ensures Inv(r)
  {
    PassingKeepsKeys(s, j, r);
    PassingKeepsNumbers(s, j, r);
    hide QueuedOK, PendingOK, CountOK, SlotsOK, Keys, Number;
  }

  /** A validator's job is in queuedCandidates, and nothing else stands for its key. */
  lemma HandledOnce(s: State, j: nat)
    requires QueuedOK(s) && j < |s.validators| && Handling(s.validators[j]) != multiset{}
    ensures s.validators[j].uri in s.queued && s.validators[j].uri !in s.dropped
  {
    KeysOf(s.validators, j, Handling);
    QueuedPointwise(s);
    hide Keys, QueuedOK;
    var u := s.validators[j].uri;
    assert Handling(s.validators[j])[u] == 1;
    assert Keys(s.validators, Handling)[u] >= 1;
    assert multiset(s.queued)[u] <= 1;
  }

  lemma OwnedKey(s: State, j: nat)
    requires PendingOK(s) && j < |s.validators| && Owning(s.validators[j]) != multiset{}
    ensures s.validators[j].uri in s.pending
  {
    KeysOf(s.validators, j, Owning);
    hide Keys;
    var u := s.validators[j].uri;
    assert Owning(s.validators[j])[u] == 1;
    assert multiset(s.pending)[u] >= 1;
  }

  /** Balance of one list of keys against one set, key by key. */
  lemma Rebalance(s: State, r: State, j: nat)
    requires QueuedOK(s) && j < |s.validators| && |r.validators| == |s.validators| && r.sources == s.sources
    requires r.validators == s.validators[j := r.validators[j]]
    requires forall u: string ::
      multiset(r.jobs)[u] + Handling(r.validators[j])[u] + multiset(r.dropped)[u] + multiset(s.queued)[u] ==
      multiset(s.jobs)[u] + Handling(s.validators[j])[u] + multiset(s.dropped)[u] + multiset(r.queued)[u]
    ensures QueuedOK(r)
  {
    KeysMovePointwise(s.validators, j, r.validators[j], Handling);
    QueuedPointwise(s);
    QueuedPointwise(r);
    hide Keys, QueuedOK, Handling;
    forall u: string ensures
      Keys(r.sources, Pushing)[u] + multiset(r.jobs)[u] + Keys(r.validators, Handling)[u] + multiset(r.dropped)[u] == multiset(r.queued)[u]
    {
      assert Keys(s.validators[j := r.validators[j]], Handling)[u] + Handling(s.validators[j])[u]
          == Keys(s.validators, Handling)[u] + Handling(r.validators[j])[u];
    }
  }

  lemma RebalanceOwners(s: State, r: State, j: nat)
    requires PendingOK(s) && j < |s.validators| && |r.validators| == |s.validators|
    requires r.validators == s.validators[j := r.validators[j]]
    requires forall u: string ::
      Owning(r.validators[j])[u] + multiset(s.pending)[u] == Owning(s.validators[j])[u] + multiset(r.pending)[u]
    ensures PendingOK(r)
  {
    KeysMovePointwise(s.validators, j, r.validators[j], Owning);
    hide Keys, Owning;
    forall u: string ensures Keys(r.validators, Owning)[u] == multiset(r.pending)[u] {
      assert Keys(s.validators, Owning)[u] == multiset(s.pending)[u];
      assert Keys(s.validators[j := r.validators[j]], Owning)[u] + Owning(s.validators[j])[u]
          == Keys(s.validators, Owning)[u] + Owning(r.validators[j])[u];
    }
  }

  /** What is left of the invariant once the keys balance. */
  lemma NumbersFollow(s: State, r: State, j: nat)
    requires Inv(s) && QueuedOK(r) && PendingOK(r) && j < |s.validators| && |r.validators| == |s.validators|
    requires r == s.(validators := s.validators[j := r.validators[j]], jobs := r.jobs, queued := r.queued,
                     pending := r.pending, dropped := r.dropped)
    requires |r.jobs| <= |s.jobs|
    requires HoldsCandidate(r.validators[j]) == HoldsCandidate(s.validators[j])
    requires IsActive(r.validators[j]) == IsActive(s.validators[j])
    requires |r.queued| + Overcounted(r.validators[j]) == |s.queued| + Overcounted(s.validators[j])
    ensures Inv(r)
  {
    InvParts(s);
    InvParts(r);
    hide Inv, QueuedOK, PendingOK;
    ValidatorNumbers(s, j, r.validators[j]);
    RestFollows(s, r);
    hide ConfigOK, VerifyOK, Number, HoldsCandidate, IsActive, Overcounted;
  }

  /** The parts a validator's move leaves alone. */
  lemma RestFollows(s: State, r: State)
    requires r == s.(validators := r.validators, jobs := r.jobs, queued := r.queued, pending := r.pending, dropped := r.dropped)
    requires |r.validators| == |s.validators| && |r.jobs| <= |s.jobs|
    ensures ConfigOK(s) ==> ConfigOK(r)
    ensures VerifyOK(s) ==> VerifyOK(r)
  {
    hide Keys;
  }

  lemma InvParts(s: State)
    ensures Inv(s) <==> ConfigOK(s) && QueuedOK(s) && PendingOK(s) && CountOK(s) && SlotsOK(s) && VerifyOK(s)
  {}

  lemma TakeKeeps(s: State, j: nat)
    requires Inv(s) && DoKeys(s, Take(j)).Some?
    ensures Inv(DoKeys(s, Take(j)).value)
  {
    InvParts(s);
    hide Inv, QueuedOK, PendingOK, SlotsOK, CountOK, VerifyOK;
    var r := DoKeys(s, Take(j)).value;
    assert s.jobs == [s.jobs[0]] + s.jobs[1..];
    Rebalance(s, r, j);
    RebalanceOwners(s, r, j);
    NumbersFollow(s, r, j);
  }

  /** A job whose key is still owned is dropped: its key changes hands from the validator to nobody. */
  lemma DropKeeps(s: State, j: nat)
    requires Inv(s) && j < |s.validators| && s.validators[j].Took? && s.validators[j].uri !in s.dropped
    ensures Inv(MoveValidator(s, j, Waiting).(dropped := s.dropped + {s.validators[j].uri}))
  {
    InvParts(s);
    hide Inv, QueuedOK, PendingOK, SlotsOK, CountOK, VerifyOK, ConfigOK, Keys, Number;
    var u := s.validators[j].uri;
    var r := MoveValidator(s, j, Waiting).(dropped := s.dropped + {u});
    AddKey(s.dropped, u);
    forall v: string ensures Handling(Waiting)[v] + multiset(r.dropped)[v] == Handling(s.validators[j])[v] + multiset(s.dropped)[v] {}
    hide Handling;
    Rebalance(s, r, j);
    RebalanceOwners(s, r, j);
    NumbersFollow(s, r, j);
  }

  lemma OwnsKeeps(s: State, j: nat)
    requires Inv(s) && j < |s.validators| && s.validators[j].Took? && s.validators[j].uri !in s.pending
    ensures Inv(MoveValidator(s, j, Checking(s.validators[j].uri)).(pending := s.pending + {s.validators[j].uri}))
  {
    InvParts(s);
    hide Inv, QueuedOK, PendingOK, SlotsOK, CountOK, VerifyOK, ConfigOK, Keys, Number;
    var u := s.validators[j].uri;
    var r := MoveValidator(s, j, Checking(u)).(pending := s.pending + {u});
    AddKey(s.pending, u);
    Rebalance(s, r, j);
    RebalanceOwners(s, r, j);
    NumbersFollow(s, r, j);
  }

  lemma ReleasesKeeps(s: State, j: nat)
    requires Inv(s) && j < |s.validators| && s.validators[j].Finished?
    requires s.validators[j].uri in s.queued
    ensures Inv(MoveValidator(s, j, Uncounting(s.validators[j].uri)).(queued := s.queued - {s.validators[j].uri}))
  {
    InvParts(s);
    hide Inv, QueuedOK, PendingOK, SlotsOK, CountOK, VerifyOK, ConfigOK, Keys, Number;
    var u := s.validators[j].uri;
    var r := MoveValidator(s, j, Uncounting(u)).(queued := s.queued - {u});
    RemoveKey(s.queued, u);
    Rebalance(s, r, j);
    RebalanceOwners(s, r, j);
    NumbersFollow(s, r, j);
  }

  lemma DisownKeeps(s: State, j: nat)
    requires Inv(s) && j < |s.validators| && s.validators[j].Disowning? && s.validators[j].uri in s.pending
    ensures Inv(MoveValidator(s, j, Waiting).(pending := s.pending - {s.validators[j].uri}))
  {
    InvParts(s);
    hide Inv, QueuedOK, PendingOK, SlotsOK, CountOK, VerifyOK, ConfigOK, Keys, Number;
    var r := MoveValidator(s, j, Waiting).(pending := s.pending - {s.validators[j].uri});
    RemoveKey(s.pending, s.validators[j].uri);
    assert Handling(Waiting) == Handling(s.validators[j]);
    forall v: string ensures Owning(Waiting)[v] + multiset(s.pending)[v] == Owning(s.validators[j])[v] + multiset(r.pending)[v] {}
    hide Handling, Owning;
    Rebalance(s, r, j);
    RebalanceOwners(s, r, j);
    NumbersFollow(s, r, j);
  }

  lemma OwnStepKeeps(s: State, j: nat)
    requires Inv(s) && DoKeys(s, Own(j)).Some?
    ensures Inv(DoKeys(s, Own(j)).value)
  {
    InvParts(s);
    HandledOnce(s, j);
    hide Inv, ConfigOK, QueuedOK, PendingOK, CountOK, SlotsOK, VerifyOK;
    if s.validators[j].uri in s.pending { DropKeeps(s, j); } else { OwnsKeeps(s, j); }
  }

  lemma ForgetStepKeeps(s: State, j: nat)
    requires Inv(s) && DoKeys(s, Forget(j)).Some?
    ensures Inv(DoKeys(s, Forget(j)).value)
  {
    InvParts(s);
    HandledOnce(s, j);
    hide Inv, ConfigOK, QueuedOK, PendingOK, CountOK, SlotsOK, VerifyOK;
    ReleasesKeeps(s, j);
  }

  lemma DisownStepKeeps(s: State, j: nat)
    requires Inv(s) && DoKeys(s, Disown(j)).Some?
    ensures Inv(DoKeys(s, Disown(j)).value)
  {
    InvParts(s);
    OwnedKey(s, j);
    hide Inv, ConfigOK, QueuedOK, PendingOK, CountOK, SlotsOK, VerifyOK;
    DisownKeeps(s, j);
  }

  lemma KeyStepKeeps(s: State, step: Step)
    requires Inv(s) && DoKeys(s, step).Some?
    ensures Inv(DoKeys(s, step).value)
  {
    hide Inv;
    match step
    case Take(j) => TakeKeeps(s, j);
    case Own(j) => OwnStepKeeps(s, j);
    case Forget(j) => ForgetStepKeeps(s, j);
    case Disown(j) => DisownStepKeeps(s, j);
  }

  lemma DecidingPassesNoKey(s: State, step: Step)
    requires SlotsOK(s) && DoSlots(s, step).Some? && (step.Reject? || step.Ask?)
    ensures PassesNoKey(s, step.j, DoSlots(s, step).value)
  {
    hide Number;
  }

  lemma GettingPassesNoKey(s: State, step: Step)
    requires SlotsOK(s) && DoSlots(s, step).Some? && (step.GetCandidate? || step.GetSlot?)
    ensures PassesNoKey(s, step.j, DoSlots(s, step).value)
  {
    hide Number;
  }

  lemma GivingSlotPassesNoKey(s: State, j: nat)
    requires SlotsOK(s) && DoSlots(s, GiveSlot(j)).Some?
    ensures PassesNoKey(s, j, DoSlots(s, GiveSlot(j)).value)
  {
    hide Number;
  }

  lemma GivingCandidatePassesNoKey(s: State, j: nat)
    requires SlotsOK(s) && DoSlots(s, GiveCandidate(j)).Some?
    ensures PassesNoKey(s, j, DoSlots(s, GiveCandidate(j)).value)
  {
    hide Number;
  }

  lemma UncountingPassesNoKey(s: State, j: nat)
    requires SlotsOK(s) && DoSlots(s, Uncount(j)).Some?
    ensures PassesNoKey(s, j, DoSlots(s, Uncount(j)).value)
  {
    hide Number;
  }

  lemma GivingPassesNoKey(s: State, step: Step)
    requires SlotsOK(s) && DoSlots(s, step).Some? && (step.GiveSlot? || step.GiveCandidate? || step.Uncount?)
    ensures PassesNoKey(s, step.j, DoSlots(s, step).value)
  {
    hide SlotsOK, PassesNoKey, DoSlots;
    if step.GiveSlot? {
      GivingSlotPassesNoKey(s, step.j);
    } else if step.GiveCandidate? {
      GivingCandidatePassesNoKey(s, step.j);
    } else {
      UncountingPassesNoKey(s, step.j);
    }
  }

  lemma SlotStepKeeps(s: State, step: Step)
    requires Inv(s) && DoSlots(s, step).Some?
    ensures Inv(DoSlots(s, step).value)
  {
    InvParts(s);
    if step.Reject? || step.Ask? {
      DecidingPassesNoKey(s, step);
    } else if step.GetCandidate? || step.GetSlot? {
      GettingPassesNoKey(s, step);
    } else {
      GivingPassesNoKey(s, step);
    }
    hide Inv, SlotsOK, PassesNoKey, DoSlots;
    PassingKeeps(s, step.j, DoSlots(s, step).value);
  }

  lemma VerifyingKey(s: State, k: nat)
    requires VerifyOK(s) && k < |s.routines| && !s.routines[k].Free?
    ensures s.routines[k].uri in s.pendingVerify
  {
    KeysOf(s.routines, k, Verifying);
    VerifyPointwise(s);
    hide Keys, VerifyOK;
    var u := s.routines[k].uri;
    assert Verifying(s.routines[k])[u] == 1;
  }

  lemma SendingKey(s: State)
    requires VerifyOK(s) && !s.verifier.NoPass?
    ensures s.verifier.uri in s.pendingVerify
  {
    VerifyPointwise(s);
    hide Keys, VerifyOK;
    var u := s.verifier.uri;
    assert Sending(s.verifier)[u] == 1;
  }

  lemma ClaimDueKeepsVerify(s: State, u: string)
    requires VerifyOK(s) && DoRoutine(s, ClaimDue(u)).Some?
    ensures VerifyOK(DoRoutine(s, ClaimDue(u)).value)
  {
    VerifyPointwise(s);
    VerifyPointwise(DoRoutine(s, ClaimDue(u)).value);
    hide Keys, VerifyOK, Verifying;
  }

  lemma NoLongerDueKeepsVerify(s: State)
    requires VerifyOK(s) && DoRoutine(s, NoLongerDue).Some? && s.verifier.uri in s.pendingVerify
    ensures VerifyOK(DoRoutine(s, NoLongerDue).value)
  {
    VerifyPointwise(s);
    VerifyPointwise(DoRoutine(s, NoLongerDue).value);
    RemoveKey(s.pendingVerify, s.verifier.uri);
    hide Keys, VerifyOK, Verifying;
  }

  lemma EnqueueKeepsVerify(s: State)
    requires VerifyOK(s) && DoRoutine(s, Enqueue).Some?
    ensures VerifyOK(DoRoutine(s, Enqueue).value)
  {
    VerifyPointwise(s);
    VerifyPointwise(DoRoutine(s, Enqueue).value);
    hide Keys, VerifyOK, Verifying;
  }

  lemma VerifierKeepsVerify(s: State, step: Step)
    requires VerifyOK(s) && (step.ClaimDue? || step.NoLongerDue? || step.Enqueue?) && DoRoutine(s, step).Some?
    requires step.NoLongerDue? ==> s.verifier.uri in s.pendingVerify
    ensures VerifyOK(DoRoutine(s, step).value)
  {
    hide VerifyOK;
    if step.ClaimDue? {
      ClaimDueKeepsVerify(s, step.uri);
    } else if step.NoLongerDue? {
      NoLongerDueKeepsVerify(s);
    } else {
      EnqueueKeepsVerify(s);
    }
  }

  /** Balance of the routine side, key by key. */
  lemma RebalanceRoutines(s: State, r: State, k: nat)
    requires VerifyOK(s) && k < |s.routines| && |r.routines| == |s.routines| && r.verifier == s.verifier
    requires r.routines == s.routines[k := r.routines[k]]
    requires forall u: string ::
      multiset(r.verifyJobs)[u] + Verifying(r.routines[k])[u] + multiset(s.pendingVerify)[u] ==
      multiset(s.verifyJobs)[u] + Verifying(s.routines[k])[u] + multiset(r.pendingVerify)[u]
    ensures VerifyOK(r)
  {
    KeysMovePointwise(s.routines, k, r.routines[k], Verifying);
    VerifyPointwise(s);
    VerifyPointwise(r);
    hide Keys, VerifyOK, Verifying;
    forall u: string ensures
      Sending(r.verifier)[u] + multiset(r.verifyJobs)[u] + Keys(r.routines, Verifying)[u] == multiset(r.pendingVerify)[u]
    {
      assert Keys(s.routines[k := r.routines[k]], Verifying)[u] + Verifying(s.routines[k])[u]
          == Keys(s.routines, Verifying)[u] + Verifying(r.routines[k])[u];
    }
  }

  lemma ReceiveKeepsVerify(s: State, k: nat)
    requires VerifyOK(s) && DoRoutine(s, Receive(k)).Some?
    ensures VerifyOK(DoRoutine(s, Receive(k)).value)
  {
    hide VerifyOK;
    assert s.verifyJobs == [s.verifyJobs[0]] + s.verifyJobs[1..];
    RebalanceRoutines(s, DoRoutine(s, Receive(k)).value, k);
  }

  lemma ReleaseKeepsVerify(s: State, k: nat)
    requires VerifyOK(s) && DoRoutine(s, Release(k)).Some?
    ensures VerifyOK(DoRoutine(s, Release(k)).value)
  {
    hide VerifyOK;
    VerifyingKey(s, k);
    RemoveKey(s.pendingVerify, s.routines[k].uri);
    RebalanceRoutines(s, DoRoutine(s, Release(k)).value, k);
  }

  lemma RoutineMoveKeepsVerify(s: State, step: Step)
    requires VerifyOK(s) && !(step.ClaimDue? || step.NoLongerDue? || step.Enqueue?) && DoRoutine(s, step).Some?
    ensures VerifyOK(DoRoutine(s, step).value)
  {
    hide VerifyOK;
    if step.Release? {
      ReleaseKeepsVerify(s, step.k);
    } else if step.Receive? {
      ReceiveKeepsVerify(s, step.k);
    } else {
      RebalanceRoutines(s, DoRoutine(s, step).value, step.k);
    }
  }

  lemma RoutineMoveKeepsSlots(s: State, step: Step)
    requires SlotsOK(s) && !(step.ClaimDue? || step.NoLongerDue? || step.Enqueue?) && DoRoutine(s, step).Some?
    ensures SlotsOK(DoRoutine(s, step).value)
  {
    NumberMove(s.routines, step.k, DoRoutine(s, step).value.routines[step.k], IsProbing);
    hide Number;
  }

  lemma SameCandidateSide(s: State, r: State)
    requires r.sources == s.sources && r.jobs == s.jobs && r.validators == s.validators && r.queued == s.queued
    requires r.queuedCount == s.queuedCount && r.pending == s.pending && r.dropped == s.dropped
    ensures QueuedOK(s) && PendingOK(s) && CountOK(s) ==> QueuedOK(r) && PendingOK(r) && CountOK(r)
  {}

  lemma RoutineTouches(s: State, step: Step)
    requires DoRoutine(s, step).Some? && ConfigOK(s)
    ensures var r := DoRoutine(s, step).value;
      && ConfigOK(r)
      && r.sources == s.sources && r.jobs == s.jobs && r.validators == s.validators && r.queued == s.queued
      && r.queuedCount == s.queuedCount && r.pending == s.pending && r.dropped == s.dropped
      && r.workers == s.workers && r.reserved == s.reserved && r.candidateSlots == s.candidateSlots
      && (step.ClaimDue? || step.NoLongerDue? || step.Enqueue? ==> r.slots == s.slots && r.routines == s.routines)
  {}

  lemma RoutineKeeps(s: State, step: Step)
    requires Inv(s) && DoRoutine(s, step).Some?
    ensures Inv(DoRoutine(s, step).value)
  {
    var r := DoRoutine(s, step).value;
    InvParts(s);
    InvParts(r);
    RoutineTouches(s, step);
    SameCandidateSide(s, r);
    if step.ClaimDue? || step.NoLongerDue? || step.Enqueue? {
      if step.NoLongerDue? { NoLongerDueKey(s, step); }
      hide Inv, ConfigOK, QueuedOK, PendingOK, CountOK, VerifyOK, DoRoutine, Number;
      VerifierKeepsVerify(s, step);
    } else {
      hide Inv, ConfigOK, QueuedOK, PendingOK, CountOK, SlotsOK, VerifyOK, DoRoutine;
      RoutineMoveKeepsVerify(s, step);
      RoutineMoveKeepsSlots(s, step);
    }
  }

  lemma NoLongerDueKey(s: State, step: Step)
    requires VerifyOK(s) && step.NoLongerDue? && DoRoutine(s, step).Some?
    ensures s.verifier.Enqueuing? && s.verifier.uri in s.pendingVerify
  {
    SendingKey(s);
  }

  lemma StepKeeps(s: State, step: Step)
    requires Inv(s) && Do(s, step).Some?
    ensures Inv(Do(s, step).value)
  {
    hide Inv, DoSource, DoKeys, DoSlots, DoRoutine;
    if OfSource(step) { SourceKeeps(s, step); }
    else if OfRoutine(step) { RoutineKeeps(s, step); }
    else if MovesKey(step) { KeyStepKeeps(s, step); }
    else { SlotStepKeeps(s, step); }
  }
}
