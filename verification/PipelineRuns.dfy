/** Whole runs of the validation pipeline: what the keys count, what the semaphores guarantee, that work
    in progress always drains, and what happens to a dropped candidate. */
module PipelineRuns {
  import opened Pipeline
  import opened Proxies

  ghost predicate IsRun(states: seq<State>, steps: seq<Step>) {
    && |states| == |steps| + 1
    && Inv(states[0])
    && (forall i :: 0 <= i < |steps| ==> Do(states[i], steps[i]) == Some(states[i + 1]))
  }

  lemma {:induction false} RunKeeps(states: seq<State>, steps: seq<Step>, k: nat)
    requires IsRun(states, steps) && k <= |steps|
    ensures Inv(states[k])
  {
    hide Inv, Do;
    if k > 0 {
      RunKeeps(states, steps, k - 1);
      assert Do(states[k - 1], steps[k - 1]) == Some(states[k]);
      StepKeeps(states[k - 1], steps[k - 1]);
    }
  }

  // ---- keys ----

  /** Every candidate is handled by at most one of: a push in progress, the queue, a validator, the dropped
      keys; at most one validator is between taking and giving up its ownership; and the number of keys is
      the number of these, off from the counter only by threads between the two updates. */
  lemma KeysAreAccounted(states: seq<State>, steps: seq<Step>, k: nat, u: string)
    requires IsRun(states, steps) && k <= |steps|
    ensures var s := states[k];
      && Keys(s.sources, Pushing)[u] + multiset(s.jobs)[u] + Keys(s.validators, Handling)[u] + (if u in s.dropped then 1 else 0)
           == (if u in s.queued then 1 else 0)
      && Keys(s.validators, Owning)[u] == (if u in s.pending then 1 else 0)
      && |s.queued| == |Keys(s.sources, Pushing)| + |s.jobs| + |Keys(s.validators, Handling)| + |s.dropped|
      && s.queuedCount == |s.queued| - Number(s.sources, Uncounted) + Number(s.validators, Overcounted)
  {
    RunKeeps(states, steps, k);
    hide Keys, Number, Do;
    var s := states[k];
    QueuedPointwise(s);
    KeysSize(s);
    assert Keys(s.validators, Owning)[u] == multiset(s.pending)[u];
  }

  lemma KeysSize(s: State)
    requires QueuedOK(s)
    ensures |s.queued| == |Keys(s.sources, Pushing)| + |s.jobs| + |Keys(s.validators, Handling)| + |s.dropped|
  {
    hide Keys;
    assert |multiset(s.queued)| == |s.queued| && |multiset(s.dropped)| == |s.dropped| && |multiset(s.jobs)| == |s.jobs|;
  }

  /** When a validator releases its key, the key is there: it never releases another thread's. */
  lemma ReleasesOwnKey(s: State, j: nat)
    requires Inv(s) && j < |s.validators| && s.validators[j].Finished?
    ensures s.validators[j].uri in s.queued && s.validators[j].uri in s.pending
    ensures forall i :: 0 <= i < |s.validators| && i != j && !s.validators[i].Waiting? && !s.validators[i].Took? ==>
      s.validators[i].uri != s.validators[j].uri
  {
    HandledOnce(s, j);
    OwnedKey(s, j);
    forall i | 0 <= i < |s.validators| && i != j && !s.validators[i].Waiting? && !s.validators[i].Took?
      ensures s.validators[i].uri != s.validators[j].uri
    {
      if i < j { OwnersDiffer(s, i, j); } else { OwnersDiffer(s, j, i); }
    }
  }

  lemma OwnersDiffer(s: State, i: nat, j: nat)
    requires PendingOK(s) && i < j < |s.validators|
    requires Owning(s.validators[i]) != multiset{} && Owning(s.validators[j]) != multiset{}
    ensures s.validators[i].uri != s.validators[j].uri
  {
    var u := s.validators[j].uri;
    assert multiset(s.pending)[u] <= 1;
    if s.validators[i].uri == u {
      TwoKeys(s.validators, i, j, Owning, u);
    }
  }

  // ---- semaphores ----

  lemma {:induction false} ActiveHoldCandidate(threads: seq<Validator>)
    ensures Number(threads, IsActive) <= Number(threads, HoldsCandidate)
  {
    if threads != [] {
      ActiveHoldCandidate(threads[1..]);
    }
  }

  /** Candidate and routine checks together never exceed the workers, candidates never the unreserved
      ones; a routine check that asks for a slot gets it at once while fewer than `reserved` routine
      checks hold one; and giving a slot back never blocks. */
  lemma SlotsAreBounded(states: seq<State>, steps: seq<Step>, k: nat)
    requires IsRun(states, steps) && k <= |steps|
    ensures var s := states[k];
      && Number(s.validators, IsActive) + Number(s.routines, IsProbing) <= s.workers
      && Number(s.validators, IsActive) <= Number(s.validators, HoldsCandidate) <= s.workers - s.reserved
      && (Number(s.routines, IsProbing) < s.reserved ==>
            forall i :: 0 <= i < |s.routines| && s.routines[i].AwaitsSlot? ==> Do(s, Enter(i)).Some?)
      && (forall j :: 0 <= j < |s.validators| && s.validators[j].Active? ==> Do(s, GiveSlot(j)).Some?)
      && (forall j :: 0 <= j < |s.validators| && s.validators[j].Leaving? ==> Do(s, GiveCandidate(j)).Some?)
      && (forall i :: 0 <= i < |s.routines| && s.routines[i].Probing? ==> Do(s, Leave(i)).Some?)
  {
    RunKeeps(states, steps, k);
    StateBounded(states[k]);
    hide Number, Inv, Do;
  }

  lemma StateBounded(s: State)
    requires Inv(s)
    ensures Number(s.validators, IsActive) + Number(s.routines, IsProbing) <= s.workers
    ensures Number(s.validators, IsActive) <= Number(s.validators, HoldsCandidate) <= s.workers - s.reserved
    ensures Number(s.routines, IsProbing) < s.reserved ==>
      forall i :: 0 <= i < |s.routines| && s.routines[i].AwaitsSlot? ==> Do(s, Enter(i)).Some?
    ensures forall j :: 0 <= j < |s.validators| && s.validators[j].Active? ==> Do(s, GiveSlot(j)).Some?
    ensures forall j :: 0 <= j < |s.validators| && s.validators[j].Leaving? ==> Do(s, GiveCandidate(j)).Some?
    ensures forall i :: 0 <= i < |s.routines| && s.routines[i].Probing? ==> Do(s, Leave(i)).Some?
  {
    InvParts(s);
    ActiveHoldCandidate(s.validators);
    HoldersHold(s);
    assert s.slots == Number(s.validators, IsActive) + Number(s.routines, IsProbing) <= s.workers;
    assert Number(s.validators, HoldsCandidate) <= s.workers - s.reserved;
    SlotStepsEnabled(s);
    hide Number, Inv, ConfigOK, SlotsOK, QueuedOK, PendingOK, CountOK, VerifyOK, Do;
  }

  lemma SlotStepsEnabled(s: State)
    ensures forall i :: 0 <= i < |s.routines| && s.routines[i].AwaitsSlot? && s.slots < s.workers ==> Do(s, Enter(i)).Some?
    ensures forall j :: 0 <= j < |s.validators| && s.validators[j].Active? && s.slots > 0 ==> Do(s, GiveSlot(j)).Some?
    ensures forall j :: 0 <= j < |s.validators| && s.validators[j].Leaving? && s.candidateSlots > 0 ==> Do(s, GiveCandidate(j)).Some?
    ensures forall i :: 0 <= i < |s.routines| && s.routines[i].Probing? && s.slots > 0 ==> Do(s, Leave(i)).Some?
  {}

  lemma HoldersHold(s: State)
    requires Inv(s)
    ensures forall j :: 0 <= j < |s.validators| && s.validators[j].Active? ==> s.slots > 0
    ensures forall j :: 0 <= j < |s.validators| && s.validators[j].Leaving? ==> s.candidateSlots > 0
    ensures forall i :: 0 <= i < |s.routines| && s.routines[i].Probing? ==> s.slots > 0
  {
    hide Keys, QueuedOK, PendingOK, CountOK, VerifyOK;
    forall j | 0 <= j < |s.validators| && s.validators[j].Active? ensures s.slots > 0 {
      NumberMove(s.validators, j, s.validators[j], IsActive);
    }
    forall j | 0 <= j < |s.validators| && s.validators[j].Leaving? ensures s.candidateSlots > 0 {
      NumberMove(s.validators, j, s.validators[j], HoldsCandidate);
    }
    forall i | 0 <= i < |s.routines| && s.routines[i].Probing? ensures s.slots > 0 {
      NumberMove(s.routines, i, s.routines[i], IsProbing);
    }
  }

  // ---- draining ----

  /** Steps that take up nothing new. */
  predicate IsWork(step: Step) {
    !step.Claim? && !step.ClaimDue?
  }

  ghost predicate Busy(s: State) {
    || (exists i :: 0 <= i < |s.sources| && !s.sources[i].Resting?)
    || s.jobs != [] || s.verifyJobs != [] || !s.verifier.NoPass?
    || (exists j :: 0 <= j < |s.validators| && !s.validators[j].Waiting?)
    || (exists k :: 0 <= k < |s.routines| && !s.routines[k].Free?)
  }

  lemma {:induction false} SomeHolder<P>(threads: seq<P>, weight: P -> nat)
    requires Number(threads, weight) > 0
    ensures exists i :: 0 <= i < |threads| && weight(threads[i]) > 0
  {
    if weight(threads[0]) == 0 {
      SomeHolder(threads[1..], weight);
      var i :| 0 <= i < |threads[1..]| && weight(threads[1..][i]) > 0;
      assert threads[i + 1] == threads[1..][i];
    }
  }

  /** A full validation semaphore has a holder, and a holder can always finish. */
  lemma SlotTaken(s: State) returns (step: Step)
    requires Inv(s) && s.slots > 0
    ensures IsWork(step) && Do(s, step).Some?
  {
    HoldersHold(s);
    if Number(s.validators, IsActive) > 0 {
      SomeHolder(s.validators, IsActive);
      var j :| 0 <= j < |s.validators| && IsActive(s.validators[j]) > 0;
      step := GiveSlot(j);
    } else {
      SomeHolder(s.routines, IsProbing);
      var i :| 0 <= i < |s.routines| && IsProbing(s.routines[i]) > 0;
      step := Leave(i);
    }
  }

  lemma ValidatorProgress(s: State, j: nat) returns (step: Step)
    requires Inv(s) && j < |s.validators| && !s.validators[j].Waiting?
    ensures IsWork(step) && Do(s, step).Some?
  {
    HoldersHold(s);
    SlotStepsEnabled(s);
    hide Inv;
    match s.validators[j]
    case WantsCandidate(_) => step := CandidateProgress(s, j);
    case WantsSlot(_) => step := SlotProgress(s, j);
    case Active(_) => step := GiveSlot(j);
    case Leaving(_) => step := GiveCandidate(j);
    case _ => step := FreeProgress(s, j);
  }

  lemma FreeProgress(s: State, j: nat) returns (step: Step)
    requires j < |s.validators|
    requires var pc := s.validators[j];
      pc.Took? || pc.Checking? || pc.Finished? || pc.Uncounting? || pc.Disowning?
    ensures IsWork(step) && Do(s, step).Some?
  {
    match s.validators[j]
    case Took(_) => step := Own(j);
    case Checking(_) => step := Ask(j);
    case Finished(_) => step := Forget(j);
    case Uncounting(_) => step := Uncount(j);
    case Disowning(_) => step := Disown(j);
  }

  lemma SlotProgress(s: State, j: nat) returns (step: Step)
    requires Inv(s) && j < |s.validators| && s.validators[j].WantsSlot?
    ensures IsWork(step) && Do(s, step).Some?
  {
    hide QueuedOK, PendingOK, CountOK, SlotsOK, VerifyOK;
    if s.slots < s.workers { step := GetSlot(j); } else { step := SlotTaken(s); }
  }

  /** When no candidate slot is free, some validator holds one, and it is not waiting for another. */
  lemma CandidateProgress(s: State, j: nat) returns (step: Step)
    requires Inv(s) && j < |s.validators| && s.validators[j].WantsCandidate?
    ensures IsWork(step) && Do(s, step).Some?
  {
    InvParts(s);
    HoldersHold(s);
    if s.candidateSlots < s.workers - s.reserved {
      step := GetCandidate(j);
    } else {
      SomeHolder(s.validators, HoldsCandidate);
      hide Inv, QueuedOK, PendingOK, CountOK, SlotsOK, VerifyOK, Number;
      var i :| 0 <= i < |s.validators| && HoldsCandidate(s.validators[i]) > 0;
      if s.validators[i].Active? { step := GiveSlot(i); }
      else if s.validators[i].Leaving? { step := GiveCandidate(i); }
      else { step := SlotProgress(s, i); }
    }
  }

  lemma RoutineProgress(s: State, k: nat) returns (step: Step)
    requires Inv(s) && k < |s.routines| && !s.routines[k].Free?
    ensures IsWork(step) && Do(s, step).Some?
  {
    HoldersHold(s);
    match s.routines[k]
    case Received(_) => step := Queue(k);
    case Probing(_) => step := Leave(k);
    case Released(_) => step := Release(k);
    case AwaitsSlot(_) => if s.slots < s.workers { step := Enter(k); } else { step := SlotTaken(s); }
  }

  /** No state with work left is stuck: whatever each thread waits for, some thread can take a step that
      takes up nothing new. */
  lemma NeverStuck(s: State) returns (step: Step)
    requires Inv(s) && Busy(s)
    ensures IsWork(step) && Do(s, step).Some?
  {
    hide Number, Keys, QueuedOK, PendingOK, CountOK, SlotsOK, VerifyOK;
    if j :| 0 <= j < |s.validators| && !s.validators[j].Waiting? {
      step := ValidatorProgress(s, j);
    } else if k :| 0 <= k < |s.routines| && !s.routines[k].Free? {
      step := RoutineProgress(s, k);
    } else if s.jobs != [] {
      step := Take(0);
    } else if s.verifyJobs != [] {
      step := Receive(0);
    } else if !s.verifier.NoPass? {
      step := Enqueue;
    } else {
      var i :| 0 <= i < |s.sources| && !s.sources[i].Resting?;
      step := if s.sources[i].Claimed? then Count(i) else Push(i);
    }
  }

  function SourceWork(pc: Source): (r: nat) {
    match pc case Resting => 0 case Claimed(_) => 13 case Counted(_) => 12
  }

  function ValidatorWork(pc: Validator): (r: nat) {
    match pc
    case Waiting => 0 case Took(_) => 10 case Checking(_) => 9 case WantsCandidate(_) => 8 case WantsSlot(_) => 7
    case Active(_) => 6 case Leaving(_) => 5 case Finished(_) => 4 case Uncounting(_) => 3 case Disowning(_) => 2
  }

  function RoutineWork(pc: Routine): (r: nat) {
    match pc case Free => 0 case Received(_) => 4 case AwaitsSlot(_) => 3 case Probing(_) => 2 case Released(_) => 1
  }

  /** An upper bound on the steps left when nothing new is taken up. */
  function WorkLeft(s: State): (r: nat) {
    Number(s.sources, SourceWork) + 11 * |s.jobs| + Number(s.validators, ValidatorWork)
    + (if s.verifier.NoPass? then 0 else 6) + 5 * |s.verifyJobs| + Number(s.routines, RoutineWork)
  }

  lemma WorkShrinks(s: State, step: Step)
    requires IsWork(step) && Do(s, step).Some?
    ensures WorkLeft(Do(s, step).value) < WorkLeft(s)
  {
    hide Number;
    if OfSource(step) { SourceShrinks(s, step); }
    else if OfRoutine(step) { RoutineShrinks(s, step); }
    else if MovesKey(step) { KeyStepShrinks(s, step); }
    else { SlotStepShrinks(s, step); }
  }

  lemma SourceShrinks(s: State, step: Step)
    requires IsWork(step) && DoSource(s, step).Some?
    ensures WorkLeft(DoSource(s, step).value) < WorkLeft(s)
  {
    NumberMove(s.sources, step.i, DoSource(s, step).value.sources[step.i], SourceWork);
    hide Number;
  }

  lemma KeyStepShrinks(s: State, step: Step)
    requires DoKeys(s, step).Some?
    ensures WorkLeft(DoKeys(s, step).value) < WorkLeft(s)
  {
    KeyStepMoves(s, step);
    NumberMove(s.validators, step.j, DoKeys(s, step).value.validators[step.j], ValidatorWork);
    hide Number, DoKeys, ValidatorWork, SourceWork, RoutineWork;
  }

  /** One validator moves on, or one job becomes a validator's: the rest of the work is as before. */
  lemma KeyStepMoves(s: State, step: Step)
    requires DoKeys(s, step).Some?
    ensures var t, j := DoKeys(s, step).value, step.j;
      && j < |s.validators| && t.validators == s.validators[j := t.validators[j]]
      && t.sources == s.sources && t.verifier == s.verifier && t.verifyJobs == s.verifyJobs && t.routines == s.routines
      && ValidatorWork(t.validators[j]) + 11 * |t.jobs| < ValidatorWork(s.validators[j]) + 11 * |s.jobs|
  {
    hide Number;
  }

  lemma SlotStepShrinks(s: State, step: Step)
    requires DoSlots(s, step).Some?
    ensures WorkLeft(DoSlots(s, step).value) < WorkLeft(s)
  {
    NumberMove(s.validators, step.j, DoSlots(s, step).value.validators[step.j], ValidatorWork);
    hide Number;
  }

  lemma RoutineShrinks(s: State, step: Step)
    requires IsWork(step) && DoRoutine(s, step).Some?
    ensures WorkLeft(DoRoutine(s, step).value) < WorkLeft(s)
  {
    if !step.NoLongerDue? && !step.Enqueue? {
      NumberMove(s.routines, step.k, DoRoutine(s, step).value.routines[step.k], RoutineWork);
    }
    hide Number;
  }

  /** From any reachable state, a run that takes up nothing new ends within WorkLeft steps, and it can
      only end with every thread at rest. */
  lemma {:induction false} WorkDrains(states: seq<State>, steps: seq<Step>)
    requires IsRun(states, steps) && forall i :: 0 <= i < |steps| ==> IsWork(steps[i])
    ensures |steps| + WorkLeft(states[|steps|]) <= WorkLeft(states[0])
    ensures (forall step :: IsWork(step) ==> Do(states[|steps|], step).None?) ==> !Busy(states[|steps|])
    decreases |steps|
  {
    hide Inv, Do, WorkLeft, Busy;
    var n := |steps|;
    RunKeeps(states, steps, n);
    if Busy(states[n]) {
      var step := NeverStuck(states[n]);
    }
    if n > 0 {
      var s, t := states[..n], steps[..n - 1];
      assert forall i :: 0 <= i < |t| ==> Do(s[i], t[i]) == Some(s[i + 1]);
      WorkDrains(s, t);
      assert Do(states[n - 1], steps[n - 1]) == Some(states[n]);
      WorkShrinks(states[n - 1], steps[n - 1]);
    }
  }

  /** With every thread at rest, every slot, every pending key and every routine key is free, and the keys
      left in queuedCandidates are exactly the dropped ones. */
  lemma AtRestOnlyDroppedRemain(s: State)
    requires Inv(s) && !Busy(s)
    ensures s.queued == s.dropped && s.queuedCount == |s.dropped|
    ensures s.pending == {} && s.pendingVerify == {} && s.slots == 0 && s.candidateSlots == 0
  {
    NoKeys(s.sources, Pushing);
    NoKeys(s.validators, Handling);
    NoKeys(s.validators, Owning);
    NoKeys(s.routines, Verifying);
    NoNumber(s.sources, Uncounted);
    NoNumber(s.validators, Overcounted);
    NoNumber(s.validators, HoldsCandidate);
    NoNumber(s.validators, IsActive);
    NoNumber(s.routines, IsProbing);
    hide Keys, Number;
    assert multiset(s.queued) == multiset(s.dropped);
    assert forall u :: u in s.queued <==> u in multiset(s.queued);
    assert forall u :: u in s.dropped <==> u in multiset(s.dropped);
    assert multiset(s.pending) == multiset{} && multiset(s.pendingVerify) == multiset{};
    assert forall u :: u in s.pending <==> u in multiset(s.pending);
    assert forall u :: u in s.pendingVerify <==> u in multiset(s.pendingVerify);
  }

  // ---- dropped candidates ----

  lemma DroppedOnce(s: State, u: string)
    requires QueuedOK(s) && u in s.dropped
    ensures u in s.queued && u !in Keys(s.sources, Pushing) && u !in s.jobs && u !in Keys(s.validators, Handling)
  {
    QueuedPointwise(s);
    hide Keys, QueuedOK;
    assert multiset(s.dropped)[u] == 1;
  }

  lemma StepKeepsDropped(s: State, step: Step)
    requires Do(s, step).Some?
    ensures s.dropped <= Do(s, step).value.dropped
  {}

  /** A dropped candidate is never validated again: its key is never released, so no source can push it
      and no validator can take it, however long the process runs. */
  lemma {:induction false} DroppedForever(states: seq<State>, steps: seq<Step>, i: nat, k: nat, u: string)
    requires IsRun(states, steps) && i <= k <= |steps| && u in states[i].dropped
    ensures u in states[k].dropped && u in states[k].queued
    ensures u !in states[k].jobs && u !in Keys(states[k].sources, Pushing) && u !in Keys(states[k].validators, Handling)
    ensures forall n :: Do(states[k], Claim(n, u)).Some? ==> Do(states[k], Claim(n, u)).value == states[k]
  {
    hide Inv, Do, QueuedOK, Keys;
    RunKeeps(states, steps, k);
    if k > i {
      DroppedForever(states, steps, i, k - 1, u);
      assert Do(states[k - 1], steps[k - 1]) == Some(states[k]);
      StepKeepsDropped(states[k - 1], steps[k - 1]);
    }
    InvParts(states[k]);
    DroppedOnce(states[k], u);
    ClaimRefused(states[k], u);
  }

  lemma ClaimRefused(s: State, u: string)
    requires u in s.queued
    ensures forall n :: Do(s, Claim(n, u)).Some? ==> Do(s, Claim(n, u)).value == s
  {}

  /** A job is dropped exactly when its validator takes it while another is between releasing the same
      candidate's key and giving up its ownership. */
  lemma DroppedExactlyWhen(s: State, j: nat)
    requires Inv(s) && j < |s.validators| && s.validators[j].Took?
    ensures Do(s, Own(j)).Some?
    ensures var u := s.validators[j].uri;
      Do(s, Own(j)).value.dropped != s.dropped <==>
        exists i :: 0 <= i < |s.validators| && LettingGo(s.validators[i], u)
  {
    InvParts(s);
    HandledOnce(s, j);
    hide Inv, QueuedOK, PendingOK, CountOK, SlotsOK, VerifyOK, Keys;
    var u := s.validators[j].uri;
    if u in s.pending {
      var i := OwnerLetsGo(s, j);
    } else {
      forall i | 0 <= i < |s.validators| ensures !LettingGo(s.validators[i], u) {
        if LettingGo(s.validators[i], u) {
          OwnedKey(s, i);
        }
      }
    }
  }

  predicate LettingGo(pc: Validator, u: string) {
    pc == Uncounting(u) || pc == Disowning(u)
  }

  /** The owner of a key whose job was just taken has itself released the key. */
  lemma OwnerLetsGo(s: State, j: nat) returns (i: nat)
    requires QueuedOK(s) && PendingOK(s) && j < |s.validators| && s.validators[j].Took? && s.validators[j].uri in s.pending
    ensures i < |s.validators| && LettingGo(s.validators[i], s.validators[j].uri)
  {
    var u := s.validators[j].uri;
    PendingHasOwner(s, u);
    hide Keys, QueuedOK, PendingOK;
    i := OwnerOf(s.validators, u);
    if Handling(s.validators[i]) != multiset{} {
      if i < j { HandlersDiffer(s, i, j); } else { HandlersDiffer(s, j, i); }
    }
  }

  lemma HandlersDiffer(s: State, i: nat, j: nat)
    requires QueuedOK(s) && i < j < |s.validators|
    requires Handling(s.validators[i]) != multiset{} && Handling(s.validators[j]) != multiset{}
    ensures s.validators[i].uri != s.validators[j].uri
  {
    var u := s.validators[j].uri;
    QueuedPointwise(s);
    hide QueuedOK;
    assert multiset(s.queued)[u] <= 1;
    if s.validators[i].uri == u {
      TwoKeys(s.validators, i, j, Handling, u);
    }
  }

  lemma PendingHasOwner(s: State, u: string)
    requires PendingOK(s) && u in s.pending
    ensures u in Keys(s.validators, Owning)
  {
    hide Keys;
    assert multiset(s.pending)[u] == 1;
  }

  lemma {:induction false} OwnerOf(threads: seq<Validator>, u: string) returns (i: nat)
    requires u in Keys(threads, Owning)
    ensures i < |threads| && Owning(threads[i]) == multiset{u} && threads[i].uri == u
  {
    if u in Owning(threads[0]) {
      i := 0;
    } else {
      i := OwnerOf(threads[1..], u);
      i := i + 1;
    }
  }

  // ---- the drop does happen ----

  function RunFrom(s: State, steps: seq<Step>): (r: Option<State>)
    decreases |steps|
  {
    if steps == [] then Some(s)
    else
      var before := RunFrom(s, steps[..|steps| - 1]);
      if before.None? then None else Do(before.value, steps[|steps| - 1])
  }

  lemma RunOn(start: State, steps: seq<Step>, s: State, step: Step)
    requires RunFrom(start, steps) == Some(s)
    ensures RunFrom(start, steps + [step]) == Do(s, step)
  {
    hide Do;
    assert (steps + [step])[..|steps|] == steps;
  }

  /** With two workers: a validator rejects a candidate and releases its key, the source pushes it again,
      and the other validator takes it before the first has given up its ownership. The run ends with
      every thread at rest and the key still held. */
  lemma DropIsReachable() returns (steps: seq<Step>, s: State)
    ensures RunFrom(Start(2, 1, 1), steps) == Some(s)
    ensures !Busy(s) && s.dropped == s.queued == {"u"} && s.queuedCount == 1
  {
    var start := Start(2, 1, 1);
    assert start.validators == [Waiting, Waiting] && start.routines == [Free, Free];
    hide Do, Busy;
    steps, s := PushAgain(start, [], start);
    steps, s := FirstCheck(start, steps, s);
    steps, s := PushAgain(start, steps, s);
    steps, s := SecondCheck(start, steps, s);
    AllAtRest(s);
  }

  lemma AllAtRest(s: State)
    requires s.sources == [Resting] && s.validators == [Waiting, Waiting] && s.routines == [Free, Free]
    requires s.jobs == [] && s.verifyJobs == [] && s.verifier == NoPass
    ensures !Busy(s)
  {}

  /** The parts of the state the run leaves alone. */
  predicate SameRest(s: State, r: State) {
    && r.workers == s.workers == 2 && r.reserved == s.reserved && r.verifier == s.verifier
    && r.verifyJobs == s.verifyJobs && r.routines == s.routines
  }

  lemma PushAgain(start: State, before: seq<Step>, s: State) returns (steps: seq<Step>, r: State)
    requires RunFrom(start, before) == Some(s)
    requires s.workers == 2 && s.sources == [Resting] && s.jobs == [] && s.queued == {} && s.queuedCount == 0
    ensures RunFrom(start, steps) == Some(r) && SameRest(s, r)
    ensures r.sources == [Resting] && r.jobs == ["u"] && r.queued == {"u"} && r.queuedCount == 1
    ensures r.validators == s.validators && r.pending == s.pending && r.dropped == s.dropped
  {
    hide Do, RunFrom;
    RunOn(start, before, s, Claim(0, "u"));
    ClaimOne(s);
    var a := Do(s, Claim(0, "u")).value;
    RunOn(start, before + [Claim(0, "u")], a, Count(0));
    CountOne(a);
    var b := Do(a, Count(0)).value;
    RunOn(start, before + [Claim(0, "u")] + [Count(0)], b, Push(0));
    PushOne(b);
    r := Do(b, Push(0)).value;
    steps := before + [Claim(0, "u")] + [Count(0)] + [Push(0)];
  }

  lemma ClaimOne(s: State)
    requires s.sources == [Resting] && s.queued == {}
    ensures Do(s, Claim(0, "u")) == Some(s.(sources := [Claimed("u")], queued := {"u"}))
  {
    assert s.sources[0 := Claimed("u")] == [Claimed("u")] && s.queued + {"u"} == {"u"};
  }

  lemma CountOne(s: State)
    requires s.sources == [Claimed("u")]
    ensures Do(s, Count(0)) == Some(s.(sources := [Counted("u")], queuedCount := s.queuedCount + 1))
  {
    assert s.sources[0 := Counted("u")] == [Counted("u")];
  }

  lemma PushOne(s: State)
    requires s.sources == [Counted("u")] && s.jobs == [] && s.workers == 2
    ensures Do(s, Push(0)) == Some(s.(sources := [Resting], jobs := ["u"]))
  {
    assert s.sources[0 := Resting] == [Resting] && s.jobs + ["u"] == ["u"];
  }

  lemma TakeOne(s: State, j: nat)
    requires j < |s.validators| && s.validators[j] == Waiting && s.jobs == ["u"]
    ensures Do(s, Take(j)) == Some(MoveValidator(s, j, Took("u")).(jobs := []))
  {
    assert s.jobs[1..] == [];
  }

  lemma OwnOne(s: State, j: nat)
    requires j < |s.validators| && s.validators[j] == Took("u")
    ensures Do(s, Own(j)) ==
      if "u" in s.pending then Some(MoveValidator(s, j, Waiting).(dropped := s.dropped + {"u"}))
      else Some(MoveValidator(s, j, Checking("u")).(pending := s.pending + {"u"}))
  {}

  lemma RejectOne(s: State, j: nat)
    requires j < |s.validators| && s.validators[j] == Checking("u")
    ensures Do(s, Reject(j)) == Some(MoveValidator(s, j, Finished("u")))
  {}

  lemma ForgetOne(s: State, j: nat)
    requires j < |s.validators| && s.validators[j] == Finished("u") && "u" in s.queued
    ensures Do(s, Forget(j)) == Some(MoveValidator(s, j, Uncounting("u")).(queued := s.queued - {"u"}))
  {}

  lemma UncountOne(s: State, j: nat)
    requires j < |s.validators| && s.validators[j] == Uncounting("u")
    ensures Do(s, Uncount(j)) == Some(MoveValidator(s, j, Disowning("u")).(queuedCount := s.queuedCount - 1))
  {}

  lemma DisownOne(s: State, j: nat)
    requires j < |s.validators| && s.validators[j] == Disowning("u")
    ensures Do(s, Disown(j)) == Some(MoveValidator(s, j, Waiting).(pending := s.pending - {"u"}))
  {}

  lemma FirstCheck(start: State, before: seq<Step>, s: State) returns (steps: seq<Step>, r: State)
    requires RunFrom(start, before) == Some(s)
    requires s.workers == 2 && s.validators == [Waiting, Waiting]
    requires s.jobs == ["u"] && s.queued == {"u"} && s.queuedCount == 1 && s.pending == {}
    ensures RunFrom(start, steps) == Some(r) && SameRest(s, r)
    ensures r.sources == s.sources && r.jobs == [] && r.queued == {} && r.queuedCount == 0
    ensures r.validators == [Disowning("u"), Waiting] && r.pending == {"u"} && r.dropped == s.dropped
  {
    hide Do, RunFrom;
    RunOn(start, before, s, Take(0));
    TakeOne(s, 0);
    var a := Do(s, Take(0)).value;
    RunOn(start, before + [Take(0)], a, Own(0));
    OwnOne(a, 0);
    var b := Do(a, Own(0)).value;
    RunOn(start, before + [Take(0)] + [Own(0)], b, Reject(0));
    RejectOne(b, 0);
    var c := Do(b, Reject(0)).value;
    steps, r := LetGo(start, before + [Take(0)] + [Own(0)] + [Reject(0)], c);
  }

  lemma LetGo(start: State, before: seq<Step>, s: State) returns (steps: seq<Step>, r: State)
    requires RunFrom(start, before) == Some(s)
    requires s.workers == 2 && s.validators == [Finished("u"), Waiting] && s.queued == {"u"} && s.queuedCount == 1
    ensures RunFrom(start, steps) == Some(r) && SameRest(s, r)
    ensures r.sources == s.sources && r.jobs == s.jobs && r.queued == {} && r.queuedCount == 0
    ensures r.validators == [Disowning("u"), Waiting] && r.pending == s.pending && r.dropped == s.dropped
  {
    hide Do, RunFrom;
    RunOn(start, before, s, Forget(0));
    ForgetOne(s, 0);
    var a := Do(s, Forget(0)).value;
    RunOn(start, before + [Forget(0)], a, Uncount(0));
    UncountOne(a, 0);
    r := Do(a, Uncount(0)).value;
    steps := before + [Forget(0)] + [Uncount(0)];
  }

  lemma SecondCheck(start: State, before: seq<Step>, s: State) returns (steps: seq<Step>, r: State)
    requires RunFrom(start, before) == Some(s)
    requires s.workers == 2 && s.validators == [Disowning("u"), Waiting]
    requires s.jobs == ["u"] && s.pending == {"u"} && s.dropped == {}
    ensures RunFrom(start, steps) == Some(r) && SameRest(s, r)
    ensures r.sources == s.sources && r.jobs == [] && r.queued == s.queued && r.queuedCount == s.queuedCount
    ensures r.validators == [Waiting, Waiting] && r.pending == {} && r.dropped == {"u"}
  {
    hide Do, RunFrom;
    RunOn(start, before, s, Take(1));
    TakeOne(s, 1);
    var a := Do(s, Take(1)).value;
    RunOn(start, before + [Take(1)], a, Own(1));
    OwnOne(a, 1);
    var b := Do(a, Own(1)).value;
    RunOn(start, before + [Take(1)] + [Own(1)], b, Disown(0));
    DisownOne(b, 0);
    r := Do(b, Disown(0)).value;
    steps := before + [Take(1)] + [Own(1)] + [Disown(0)];
  }

  // ---- blocking and order ----

  /** In every reachable state a thread waits only for what is used up: a source while twice as many jobs as workers are
      queued, the periodic pass while as many rows as workers are, a validator while all candidate slots are held by other
      validators, and anyone while all validation slots are held. */
  lemma BlockedExactlyWhen(s: State, i: nat)
    requires Inv(s)
    ensures i < |s.sources| && s.sources[i].Counted? ==> (Do(s, Push(i)).None? <==> |s.jobs| == 2 * s.workers)
    ensures s.verifier.Enqueuing? ==> (Do(s, Enqueue).None? <==> |s.verifyJobs| == s.workers)
    ensures i < |s.validators| && s.validators[i].WantsCandidate? ==>
      (Do(s, GetCandidate(i)).None? <==> Number(s.validators, HoldsCandidate) == s.workers - s.reserved)
    ensures i < |s.validators| && s.validators[i].WantsSlot? ==>
      (Do(s, GetSlot(i)).None? <==> Number(s.validators, IsActive) + Number(s.routines, IsProbing) == s.workers)
    ensures i < |s.routines| && s.routines[i].AwaitsSlot? ==>
      (Do(s, Enter(i)).None? <==> Number(s.validators, IsActive) + Number(s.routines, IsProbing) == s.workers)
  {
    hide Number, Keys, QueuedOK, PendingOK, CountOK, VerifyOK;
  }

  /** The jobs sent and the jobs taken in the first k steps, each in order. */
  function Sent(states: seq<State>, steps: seq<Step>, k: nat): (uris: seq<string>)
    requires |states| == |steps| + 1 && k <= |steps|
  {
    if k == 0 then []
    else
      var s, step := states[k - 1], steps[k - 1];
      Sent(states, steps, k - 1) + (if step.Push? && step.i < |s.sources| && s.sources[step.i].Counted? then [s.sources[step.i].uri] else [])
  }

  function Taken(states: seq<State>, steps: seq<Step>, k: nat): (uris: seq<string>)
    requires |states| == |steps| + 1 && k <= |steps|
  {
    if k == 0 then []
    else
      var t, step := states[k], steps[k - 1];
      Taken(states, steps, k - 1) + (if step.Take? && step.j < |t.validators| && t.validators[step.j].Took? then [t.validators[step.j].uri] else [])
  }

  /** Jobs are taken in the order they were sent. */
  lemma {:induction false} FirstInFirstOut(states: seq<State>, steps: seq<Step>, k: nat)
    requires |states| == |steps| + 1 && k <= |steps|
    requires forall i :: 0 <= i < |steps| ==> Do(states[i], steps[i]) == Some(states[i + 1])
    ensures states[0].jobs + Sent(states, steps, k) == Taken(states, steps, k) + states[k].jobs
  {
    hide Do;
    if k > 0 {
      FirstInFirstOut(states, steps, k - 1);
      assert Do(states[k - 1], steps[k - 1]) == Some(states[k]);
      JobsMove(states[k - 1], steps[k - 1], states[k]);
      var all, sent := states[0].jobs, Sent(states, steps, k - 1);
      var last := if steps[k - 1].Push? then [states[k - 1].sources[steps[k - 1].i].uri] else [];
      assert all + (sent + last) == (all + sent) + last;
    }
  }

  lemma JobsMove(s: State, step: Step, t: State)
    requires Do(s, step) == Some(t)
    ensures step.Push? ==> step.i < |s.sources| && s.sources[step.i].Counted? && t.jobs == s.jobs + [s.sources[step.i].uri]
    ensures step.Take? ==> step.j < |t.validators| && t.validators[step.j].Took? && s.jobs == [t.validators[step.j].uri] + t.jobs
    ensures !step.Push? && !step.Take? ==> t.jobs == s.jobs
  {}

  /** The rows the periodic pass queued and those the workers took. */
  function Enqueued(states: seq<State>, steps: seq<Step>, k: nat): (uris: seq<string>)
    requires |states| == |steps| + 1 && k <= |steps|
  {
    if k == 0 then []
    else
      var s := states[k - 1];
      Enqueued(states, steps, k - 1) + (if steps[k - 1].Enqueue? && s.verifier.Enqueuing? then [s.verifier.uri] else [])
  }

  function Dequeued(states: seq<State>, steps: seq<Step>, n: nat): (uris: seq<string>)
    requires |states| == |steps| + 1 && n <= |steps|
  {
    if n == 0 then []
    else
      var t, step := states[n], steps[n - 1];
      Dequeued(states, steps, n - 1) + (if step.Receive? && step.k < |t.routines| && t.routines[step.k].Received? then [t.routines[step.k].uri] else [])
  }

  /** Rows are checked in the order the periodic pass queued them. */
  lemma {:induction false} RowsInOrder(states: seq<State>, steps: seq<Step>, n: nat)
    requires |states| == |steps| + 1 && n <= |steps|
    requires forall i :: 0 <= i < |steps| ==> Do(states[i], steps[i]) == Some(states[i + 1])
    ensures states[0].verifyJobs + Enqueued(states, steps, n) == Dequeued(states, steps, n) + states[n].verifyJobs
  {
    hide Do;
    if n > 0 {
      RowsInOrder(states, steps, n - 1);
      assert Do(states[n - 1], steps[n - 1]) == Some(states[n]);
      RowsMove(states[n - 1], steps[n - 1], states[n]);
      var all, queued := states[0].verifyJobs, Enqueued(states, steps, n - 1);
      var last := if steps[n - 1].Enqueue? then [states[n - 1].verifier.uri] else [];
      assert all + (queued + last) == (all + queued) + last;
    }
  }

  lemma RowsMove(s: State, step: Step, t: State)
    requires Do(s, step) == Some(t)
    ensures step.Enqueue? ==> s.verifier.Enqueuing? && t.verifyJobs == s.verifyJobs + [s.verifier.uri]
    ensures step.Receive? ==> step.k < |t.routines| && t.routines[step.k].Received? && s.verifyJobs == [t.routines[step.k].uri] + t.verifyJobs
    ensures !step.Enqueue? && !step.Receive? ==> t.verifyJobs == s.verifyJobs
  {}
}
