/**
 Run and Stop as a protocol between any number of callers.  Sections under the mutex are single
 steps, everything else interleaves.  A run's context, its done channel and its goroutines are
 named after the caller of Run.
 */
module RunStop {
  import opened Wrappers

  type Caller = nat

  /** Where a call of Run is.  spawned counts goroutines started, live those not yet exited. */
  datatype RunPc =
    | NotCalled
    | Rejected
    | Starting(spawned: nat, live: nat)
    | Polling(live: nat)
    | Draining(live: nat)
    | Drained
    | Cleared
    | Closed
  {
    /** The call owns the instance: between taking and clearing the shared fields. */
    predicate Owns() {
      Starting? || Polling? || Draining? || Drained?
    }

    function Live(): nat {
      match this
      case Starting(_, live) => live
      case Polling(live) => live
      case Draining(live) => live
      case _ => 0
    }

    function WithLive(n: nat): RunPc {
      match this
      case Starting(spawned, _) => Starting(spawned, n)
      case Polling(_) => Polling(n)
      case Draining(_) => Draining(n)
      case other => other
    }
  }

  /** Where a call of Stop is.  observed is the run whose channels it read, if any. */
  datatype StopPc =
    | NotStopping
    | Read(cancel: Option<Caller>, done: Option<Caller>)
    | Awaiting(done: Option<Caller>)
    | ReturnedNil(observed: Option<Caller>)
    | ReturnedErr

  datatype State = State(
    runCancel: Option<Caller>,
    runDone: Option<Caller>,
    runs: map<Caller, RunPc>,
    stops: map<Caller, StopPc>,
    cancelled: set<Caller>,
    closes: multiset<Caller>
  )

  const INITIAL := State(None, None, map[], map[], {}, multiset{})

  function RunOf(s: State, r: Caller): RunPc {
    if r in s.runs then s.runs[r] else NotCalled
  }

  function StopOf(s: State, c: Caller): StopPc {
    if c in s.stops then s.stops[c] else NotStopping
  }

  datatype Step =
    | Register(r: Caller)
    | Spawn(r: Caller)
    | BeginPolling(r: Caller)
    | Exit(r: Caller)
    | EndPolling(r: Caller)
    | WaitGroupDone(r: Caller)
    | Clear(r: Caller)
    | Close(r: Caller)
    | CancelParent(r: Caller)
    | ReadFields(c: Caller)
    | CallCancel(c: Caller)
    | ReturnNil(c: Caller)
    | ReturnErr(c: Caller)

  /** Whether a step can be taken; total is the number of goroutines a run starts. */
  predicate Enabled(s: State, step: Step, total: nat) {
    match step
    case Register(r) => RunOf(s, r).NotCalled?
    case Spawn(r) => RunOf(s, r).Starting? && RunOf(s, r).spawned < total
    case BeginPolling(r) => RunOf(s, r).Starting? && RunOf(s, r).spawned == total
    case Exit(r) => RunOf(s, r).Live() > 0 && r in s.cancelled
    case EndPolling(r) => RunOf(s, r).Polling? && r in s.cancelled
    case WaitGroupDone(r) => RunOf(s, r).Draining? && RunOf(s, r).live == 0
    case Clear(r) => RunOf(s, r).Drained?
    case Close(r) => RunOf(s, r).Cleared?
    case CancelParent(r) => true
    case ReadFields(c) => StopOf(s, c).NotStopping?
    case CallCancel(c) => StopOf(s, c).Read?
    case ReturnNil(c) =>
      StopOf(s, c).Awaiting? && (StopOf(s, c).done.Some? ==> s.closes[StopOf(s, c).done.value] > 0)
    case ReturnErr(c) => StopOf(s, c).Awaiting? && StopOf(s, c).done.Some?
  }

  function SetRun(s: State, r: Caller, pc: RunPc): State {
    s.(runs := s.runs[r := pc])
  }

  function SetStop(s: State, c: Caller, pc: StopPc): State {
    s.(stops := s.stops[c := pc])
  }

  function Next(s: State, step: Step, total: nat): State
    requires Enabled(s, step, total)
  {
    match step
    case Register(r) =>
      if s.runDone.Some? then SetRun(s, r, Rejected).(cancelled := s.cancelled + {r})
      else SetRun(s, r, Starting(0, 0)).(runCancel := Some(r), runDone := Some(r))
    case Spawn(r) => SetRun(s, r, Starting(RunOf(s, r).spawned + 1, RunOf(s, r).live + 1))
    case BeginPolling(r) => SetRun(s, r, Polling(RunOf(s, r).live))
    case Exit(r) => SetRun(s, r, RunOf(s, r).WithLive(RunOf(s, r).Live() - 1))
    case EndPolling(r) => SetRun(s, r, Draining(RunOf(s, r).live))
    case WaitGroupDone(r) => SetRun(s, r, Drained)
    case Clear(r) => SetRun(s, r, Cleared).(runCancel := None, runDone := None)
    case Close(r) => SetRun(s, r, Closed).(cancelled := s.cancelled + {r}, closes := s.closes + multiset{r})
    case CancelParent(r) => s.(cancelled := s.cancelled + {r})
    case ReadFields(c) => SetStop(s, c, Read(s.runCancel, s.runDone))
    case CallCancel(c) =>
      var seen := StopOf(s, c);
      SetStop(s, c, Awaiting(seen.done)).(
        cancelled := if seen.cancel.Some? then s.cancelled + {seen.cancel.value} else s.cancelled)
    case ReturnNil(c) => SetStop(s, c, ReturnedNil(StopOf(s, c).done))
    case ReturnErr(c) => SetStop(s, c, ReturnedErr)
  }

  ghost predicate Taken(states: seq<State>, steps: seq<Step>, total: nat, i: nat)
    requires i < |steps| && |states| == |steps| + 1
  {
    Enabled(states[i], steps[i], total) && states[i + 1] == Next(states[i], steps[i], total)
  }

  ghost predicate IsRun(states: seq<State>, steps: seq<Step>, total: nat) {
    && |states| == |steps| + 1
    && states[0] == INITIAL
    && forall i: nat :: i < |steps| ==> Taken(states, steps, total, i)
  }

  // ----- Safety -----

  /** The run a Stop saw: none, or one that owns the instance or has gone past owning it. */
  predicate Seen(s: State, d: Option<Caller>) {
    d.Some? ==> RunOf(s, d.value).Owns() || RunOf(s, d.value).Cleared? || RunOf(s, d.value).Closed?
  }

  predicate StopConsistent(s: State, pc: StopPc) {
    match pc
    case Read(cancel, done) => cancel == done && Seen(s, done)
    case Awaiting(done) => Seen(s, done) && (done.Some? ==> done.value in s.cancelled)
    case ReturnedNil(observed) => observed.Some? ==> RunOf(s, observed.value).Closed?
    case _ => true
  }

  ghost predicate RunSafe(s: State, total: nat, r: Caller) {
    var pc := RunOf(s, r);
    && (pc.Owns() <==> s.runDone == Some(r))
    && s.closes[r] == (if pc.Closed? then 1 else 0)
    && pc.Live() <= total
    && (pc.Starting? ==> pc.live <= pc.spawned <= total)
  }

  ghost predicate Safe(s: State, total: nat) {
    && s.runCancel == s.runDone
    && (forall r: Caller :: RunSafe(s, total, r))
    && (forall c: Caller :: StopConsistent(s, StopOf(s, c)))
  }

  lemma RunSafeStep(s: State, step: Step, total: nat, r: Caller)
    requires Safe(s, total) && Enabled(s, step, total)
    ensures RunSafe(Next(s, step, total), total, r)
  {
    assert RunSafe(s, total, r);
    if s.runDone.Some? { assert RunSafe(s, total, s.runDone.value); }
    if step.Clear? { assert RunSafe(s, total, step.r); }
  }

  /** What a Stop observed stays observed, and a closed run stays closed. */
  lemma SeenStays(s: State, step: Step, total: nat, d: Option<Caller>)
    requires Seen(s, d) && Enabled(s, step, total)
    ensures Seen(Next(s, step, total), d)
    ensures d.Some? && RunOf(s, d.value).Closed? ==> RunOf(Next(s, step, total), d.value).Closed?
    ensures s.cancelled <= Next(s, step, total).cancelled
  {
  }

  lemma StopConsistentStep(s: State, step: Step, total: nat, c: Caller)
    requires Safe(s, total) && Enabled(s, step, total)
    ensures var after := Next(s, step, total); StopConsistent(after, StopOf(after, c))
  {
    var pc := StopOf(s, c);
    assert StopConsistent(s, pc);
    match pc {
      case NotStopping =>
        if s.runDone.Some? { assert RunSafe(s, total, s.runDone.value); }
        SeenStays(s, step, total, s.runDone);
      case Read(_, done) => SeenStays(s, step, total, done);
      case Awaiting(done) =>
        SeenStays(s, step, total, done);
        if done.Some? { assert RunSafe(s, total, done.value); }
      case ReturnedNil(observed) => SeenStays(s, step, total, observed);
      case ReturnedErr =>
    }
  }

  lemma SafeStep(s: State, step: Step, total: nat)
    requires Safe(s, total) && Enabled(s, step, total)
    ensures Safe(Next(s, step, total), total)
  {
    var after := Next(s, step, total);
    forall r: Caller
      ensures RunSafe(after, total, r)
    {
      RunSafeStep(s, step, total, r);
    }
    forall c: Caller
      ensures StopConsistent(after, StopOf(after, c))
    {
      StopConsistentStep(s, step, total, c);
    }
  }

  lemma {:induction false} SafeAlong(states: seq<State>, steps: seq<Step>, total: nat, i: nat)
    requires IsRun(states, steps, total) && i <= |steps|
    ensures Safe(states[i], total)
  {
    if i > 0 {
      SafeAlong(states, steps, total, i - 1);
      assert Taken(states, steps, total, i - 1);
      SafeStep(states[i - 1], steps[i - 1], total);
    }
  }

  /**
   At any moment of any run, at most one call of Run is starting, polling or draining, both fields
   are its own, and no other call has a goroutine alive.
   */
  lemma OneRunAlive(states: seq<State>, steps: seq<Step>, total: nat, i: nat, a: Caller, b: Caller)
    requires IsRun(states, steps, total) && i <= |steps|
    requires RunOf(states[i], a).Owns()
    ensures states[i].runCancel == states[i].runDone == Some(a)
    ensures RunOf(states[i], b).Owns() || RunOf(states[i], b).Live() > 0 ==> a == b
  {
    SafeAlong(states, steps, total, i);
    assert RunSafe(states[i], total, a) && RunSafe(states[i], total, b);
  }

  /** A done channel is closed at most once, and only when neither its poller nor a goroutine is left. */
  lemma ClosedOnceAfterExit(states: seq<State>, steps: seq<Step>, total: nat, i: nat, r: Caller)
    requires IsRun(states, steps, total) && i <= |steps|
    ensures states[i].closes[r] <= 1
    ensures states[i].closes[r] == 1 ==>
              !RunOf(states[i], r).Owns() && RunOf(states[i], r).Live() == 0 && states[i].runDone != Some(r)
  {
    SafeAlong(states, steps, total, i);
    assert RunSafe(states[i], total, r);
  }

  /**
   A Stop that has returned nil saw no active run, or a run that has since exited completely; a
   Stop that reads the fields and sees no run does so when no run polls or has a goroutine alive.
   */
  lemma StopNilMeansEnded(states: seq<State>, steps: seq<Step>, total: nat, i: nat, c: Caller)
    requires IsRun(states, steps, total) && i <= |steps|
    ensures StopOf(states[i], c).ReturnedNil? && StopOf(states[i], c).observed.Some? ==>
              var r := StopOf(states[i], c).observed.value;
              RunOf(states[i], r).Closed? && states[i].closes[r] == 1
    ensures i < |steps| && steps[i] == ReadFields(c) && StopOf(states[i + 1], c) == Read(None, None) ==>
              forall r: Caller :: !RunOf(states[i], r).Owns() && RunOf(states[i], r).Live() == 0
  {
    SafeAlong(states, steps, total, i);
    assert StopConsistent(states[i], StopOf(states[i], c));
    if i < |steps| { assert Taken(states, steps, total, i); }
    if StopOf(states[i], c).ReturnedNil? && StopOf(states[i], c).observed.Some? {
      assert RunSafe(states[i], total, StopOf(states[i], c).observed.value);
    }
    forall r: Caller | states[i].runDone.None?
      ensures !RunOf(states[i], r).Owns() && RunOf(states[i], r).Live() == 0
    {
      assert RunSafe(states[i], total, r);
    }
  }

  // ----- Runs start -----

  /** A step of the run itself, once registered. */
  predicate StepOf(step: Step, r: Caller) {
    match step
    case Spawn(q) => q == r
    case BeginPolling(q) => q == r
    case Exit(q) => q == r
    case EndPolling(q) => q == r
    case WaitGroupDone(q) => q == r
    case Clear(q) => q == r
    case Close(q) => q == r
    case _ => false
  }

  /** A first call of Run takes the instance exactly when no run is registered, and is rejected otherwise. */
  lemma RegisterIff(s: State, r: Caller, total: nat)
    requires RunOf(s, r).NotCalled?
    ensures Enabled(s, Register(r), total)
    ensures var after := Next(s, Register(r), total);
            && (RunOf(after, r).Owns() <==> s.runDone.None?)
            && (RunOf(after, r).Rejected? <==> s.runDone.Some?)
            && (s.runDone.Some? ==> after.runDone == s.runDone && after.runCancel == s.runCancel)
            && (r in after.cancelled <==> r in s.cancelled || s.runDone.Some?)
  {
  }

  lemma OneMoreStep(states: seq<State>, steps: seq<Step>, total: nat, step: Step)
    requires IsRun(states, steps, total) && Enabled(states[|steps|], step, total)
    ensures IsRun(states + [Next(states[|steps|], step, total)], steps + [step], total)
  {
    var more, longer := states + [Next(states[|steps|], step, total)], steps + [step];
    forall i: nat | i < |longer|
      ensures Taken(more, longer, total, i)
    {
      if i < |steps| { assert Taken(states, steps, total, i); }
    }
  }

  /** From n goroutines on, a run that only its own call drives has started them all after total - n steps. */
  lemma {:induction false} StartsGoroutines(states: seq<State>, steps: seq<Step>, total: nat, r: Caller, n: nat)
    returns (later: seq<State>, own: seq<Step>)
    requires IsRun(states, steps, total) && n <= total && RunOf(states[|steps|], r) == Starting(n, n)
    ensures IsRun(later, steps + own, total) && |own| == total - n
    ensures forall k :: 0 <= k < |own| ==> own[k] == Spawn(r)
    ensures RunOf(later[|steps + own|], r) == Starting(total, total)
    decreases total - n
  {
    if n == total {
      later, own := states, [];
      assert steps + own == steps;
    } else {
      OneMoreStep(states, steps, total, Spawn(r));
      later, own := StartsGoroutines(
        states + [Next(states[|steps|], Spawn(r), total)], steps + [Spawn(r)], total, r, n + 1);
      assert steps + [Spawn(r)] + own == steps + ([Spawn(r)] + own);
      own := [Spawn(r)] + own;
    }
  }

  /**
   Whenever no call owns the instance, be it at the beginning or after any number of runs, a fresh
   call of Run can register, start all its goroutines and poll, in total + 2 steps of its own.
   */
  lemma FreeInstanceStarts(states: seq<State>, steps: seq<Step>, total: nat, r: Caller)
    returns (later: seq<State>, own: seq<Step>)
    requires IsRun(states, steps, total) && RunOf(states[|steps|], r).NotCalled?
    requires forall q: Caller :: !RunOf(states[|steps|], q).Owns()
    ensures IsRun(later, steps + own, total) && |own| == total + 2
    ensures own[0] == Register(r) && forall k :: 0 < k < |own| ==> StepOf(own[k], r)
    ensures RunOf(later[|steps + own|], r) == Polling(total)
  {
    var s := states[|steps|];
    SafeAlong(states, steps, total, |steps|);
    assert s.runDone.Some? ==> RunSafe(s, total, s.runDone.value);
    OneMoreStep(states, steps, total, Register(r));
    var spawns;
    later, spawns := StartsGoroutines(
      states + [Next(s, Register(r), total)], steps + [Register(r)], total, r, 0);
    OneMoreStep(later, steps + [Register(r)] + spawns, total, BeginPolling(r));
    later := later + [Next(later[|steps + [Register(r)] + spawns|], BeginPolling(r), total)];
    own := [Register(r)] + spawns + [BeginPolling(r)];
    assert steps + [Register(r)] + spawns + [BeginPolling(r)] == steps + own;
  }

  // ----- Goroutines and cancellation accounted for -----

  /** How often the step is among the first n. */
  function Times(steps: seq<Step>, n: nat, step: Step): nat
    requires n <= |steps|
  {
    if n == 0 then 0 else Times(steps, n - 1, step) + if steps[n - 1] == step then 1 else 0
  }

  /** Goroutines started and exited, and whether the poller has returned, as the stage of a run has it. */
  predicate Accounted(pc: RunPc, total: nat, spawned: nat, exited: nat, polled: nat) {
    match pc
    case NotCalled => spawned == 0 && exited == 0 && polled == 0
    case Rejected => spawned == 0 && exited == 0 && polled == 0
    case Starting(n, live) => spawned == n && exited + live == n && polled == 0
    case Polling(live) => spawned == total && exited + live == total && polled == 0
    case Draining(live) => spawned == total && exited + live == total && polled == 1
    case Drained => spawned == total && exited == total && polled == 1
    case Cleared => spawned == total && exited == total && polled == 1
    case Closed => spawned == total && exited == total && polled == 1
  }

  /** At every moment, what a run has started and what has come back is what its stage says. */
  lemma {:induction false} GoroutinesAccounted(states: seq<State>, steps: seq<Step>, total: nat, i: nat, r: Caller)
    requires IsRun(states, steps, total) && i <= |steps|
    ensures Accounted(RunOf(states[i], r), total,
                      Times(steps, i, Spawn(r)), Times(steps, i, Exit(r)), Times(steps, i, EndPolling(r)))
  {
    if i > 0 {
      GoroutinesAccounted(states, steps, total, i - 1, r);
      assert Taken(states, steps, total, i - 1);
      SafeAlong(states, steps, total, i - 1);
      AccountedStep(states[i - 1], steps[i - 1], total, r,
                    Times(steps, i - 1, Spawn(r)), Times(steps, i - 1, Exit(r)), Times(steps, i - 1, EndPolling(r)));
    }
  }

  lemma AccountedStep(s: State, step: Step, total: nat, r: Caller, spawned: nat, exited: nat, polled: nat)
    requires Safe(s, total) && Enabled(s, step, total) && Accounted(RunOf(s, r), total, spawned, exited, polled)
    ensures Accounted(RunOf(Next(s, step, total), r), total,
                      spawned + (if step == Spawn(r) then 1 else 0),
                      exited + (if step == Exit(r) then 1 else 0),
                      polled + (if step == EndPolling(r) then 1 else 0))
  {
    assert RunSafe(s, total, r);
  }

  /** So a closed channel means that the poller and each of the total goroutines was started and has returned. */
  lemma ClosedMeansAllReturned(states: seq<State>, steps: seq<Step>, total: nat, i: nat, r: Caller)
    requires IsRun(states, steps, total) && i <= |steps| && states[i].closes[r] > 0
    ensures Times(steps, i, Spawn(r)) == Times(steps, i, Exit(r)) == total
    ensures Times(steps, i, EndPolling(r)) == 1
  {
    SafeAlong(states, steps, total, i);
    assert RunSafe(states[i], total, r);
    GoroutinesAccounted(states, steps, total, i, r);
  }

  /** Step k cancels r: its parent, a Stop that read r, its own rejection or its own end. */
  ghost predicate Cancels(s: State, step: Step, r: Caller) {
    || step == CancelParent(r)
    || (step.CallCancel? && StopOf(s, step.c).Read? && StopOf(s, step.c).cancel == Some(r))
    || (step == Register(r) && s.runDone.Some?)
    || step == Close(r)
  }

  /** A run's context is cancelled exactly when something did so: no Stop cancels a run it did not read. */
  lemma {:induction false} CancelledIff(states: seq<State>, steps: seq<Step>, total: nat, i: nat, r: Caller)
    requires IsRun(states, steps, total) && i <= |steps|
    ensures r in states[i].cancelled <==> exists k :: 0 <= k < i && Cancels(states[k], steps[k], r)
  {
    if i > 0 {
      CancelledIff(states, steps, total, i - 1, r);
      assert Taken(states, steps, total, i - 1);
    }
  }

  /** A goroutine or the poller of a run returns only once the run is cancelled. */
  lemma {:induction false} ReturnsOnlyCancelled(states: seq<State>, steps: seq<Step>, total: nat, i: nat, r: Caller)
    requires IsRun(states, steps, total) && i <= |steps|
    requires Times(steps, i, Exit(r)) > 0 || Times(steps, i, EndPolling(r)) > 0
    ensures r in states[i].cancelled
  {
    assert Taken(states, steps, total, i - 1);
    if steps[i - 1] != Exit(r) && steps[i - 1] != EndPolling(r) {
      ReturnsOnlyCancelled(states, steps, total, i - 1, r);
    }
  }

  /**
   A parent context can be cancelled at any time.  A live goroutine can return from then on at any
   stage of the run, and so can the poller; before that neither can.
   */
  lemma ReturnsOnceCancelled(s: State, r: Caller, total: nat)
    ensures Enabled(s, CancelParent(r), total)
    ensures Next(s, CancelParent(r), total) == s.(cancelled := s.cancelled + {r})
    ensures RunOf(s, r).Live() > 0 ==>
              && (Enabled(s, Exit(r), total) <==> r in s.cancelled)
              && (r in s.cancelled ==>
                   var pc := RunOf(Next(s, Exit(r), total), r);
                   pc.Live() == RunOf(s, r).Live() - 1 && pc.WithLive(RunOf(s, r).Live()) == RunOf(s, r))
    ensures RunOf(s, r).Polling? ==> (Enabled(s, EndPolling(r), total) <==> r in s.cancelled)
  {
  }

  /**
   A Stop is never stuck: it can read, then cancel, and then return nil exactly when it saw no run or
   the run it saw has closed its channel, and its context's error whenever it saw a run.
   */
  lemma StopCanReturn(s: State, c: Caller, total: nat)
    ensures match StopOf(s, c)
            case NotStopping =>
              && Enabled(s, ReadFields(c), total)
              && StopOf(Next(s, ReadFields(c), total), c) == Read(s.runCancel, s.runDone)
            case Read(_, done) =>
              && Enabled(s, CallCancel(c), total)
              && StopOf(Next(s, CallCancel(c), total), c) == Awaiting(done)
            case Awaiting(done) =>
              && (Enabled(s, ReturnNil(c), total) <==> done.None? || s.closes[done.value] > 0)
              && (Enabled(s, ReturnErr(c), total) <==> done.Some?)
              && (done.None? ==> StopOf(Next(s, ReturnNil(c), total), c) == ReturnedNil(None))
              && (done.Some? ==> StopOf(Next(s, ReturnErr(c), total), c) == ReturnedErr)
            case _ => true
  {
  }

  // ----- Stop does not wait for ever -----

  /** How many steps of its own a run that owns the instance is away from closing its channel. */
  function Remaining(pc: RunPc, total: nat): nat {
    match pc
    case Starting(spawned, live) => (if spawned < total then 2 * (total - spawned) else 0) + live + 5
    case Polling(live) => live + 4
    case Draining(live) => live + 3
    case Drained => 2
    case Cleared => 1
    case _ => 0
  }

  /** The step a cancelled run can take next. */
  function NextStepOf(s: State, r: Caller, total: nat): Step {
    match RunOf(s, r)
    case Starting(spawned, _) => if spawned < total then Spawn(r) else BeginPolling(r)
    case Polling(_) => EndPolling(r)
    case Draining(live) => if live > 0 then Exit(r) else WaitGroupDone(r)
    case Drained => Clear(r)
    case _ => Close(r)
  }

  /** Once cancelled, a run that has not closed its channel always has a step of its own to take. */
  lemma CancelledRunCanStep(s: State, r: Caller, total: nat)
    requires Safe(s, total) && r in s.cancelled && (RunOf(s, r).Owns() || RunOf(s, r).Cleared?)
    ensures StepOf(NextStepOf(s, r, total), r) && Enabled(s, NextStepOf(s, r, total), total)
  {
    assert RunSafe(s, total, r);
  }

  /**
   Each step of its own brings it closer to closing, and no step of anyone else takes it back or
   un-cancels it.  So a Stop that awaits it is released after finitely many of its steps.
   */
  lemma CancelledRunEnds(s: State, r: Caller, step: Step, total: nat)
    requires Safe(s, total) && r in s.cancelled && (RunOf(s, r).Owns() || RunOf(s, r).Cleared?)
    requires Enabled(s, step, total)
    ensures var after := Next(s, step, total);
            && r in after.cancelled
            && (if StepOf(step, r) then Remaining(RunOf(after, r), total) < Remaining(RunOf(s, r), total)
                else RunOf(after, r) == RunOf(s, r))
            && (Remaining(RunOf(after, r), total) == 0 ==> after.closes[r] == 1)
  {
    assert RunSafe(s, total, r);
    if step.Clear? { assert RunSafe(s, total, step.r); }
  }

  /** The steps of run r among the first n. */
  function StepsOf(steps: seq<Step>, n: nat, r: Caller): nat
    requires n <= |steps|
  {
    if n == 0 then 0 else StepsOf(steps, n - 1, r) + if StepOf(steps[n - 1], r) then 1 else 0
  }

  /** Registered, and closed or on its way there. */
  predicate Begun(pc: RunPc) {
    pc.Owns() || pc.Cleared? || pc.Closed?
  }

  lemma CountDownStep(s: State, r: Caller, step: Step, total: nat)
    requires Safe(s, total) && r in s.cancelled && Begun(RunOf(s, r)) && Enabled(s, step, total)
    ensures var pc := RunOf(Next(s, step, total), r);
            && r in Next(s, step, total).cancelled && Begun(pc)
            && (pc.Closed? || (!RunOf(s, r).Closed? &&
                 Remaining(pc, total) + (if StepOf(step, r) then 1 else 0) <= Remaining(RunOf(s, r), total)))
  {
    if !RunOf(s, r).Closed? { CancelledRunEnds(s, r, step, total); }
  }

  /** From state i on, a cancelled run is closed or has used up that many of its remaining steps. */
  lemma {:induction false} CancelledRunCountsDown(states: seq<State>, steps: seq<Step>, total: nat,
                                                  i: nat, j: nat, r: Caller)
    requires IsRun(states, steps, total) && i <= j <= |steps|
    requires r in states[i].cancelled && Begun(RunOf(states[i], r))
    ensures r in states[j].cancelled && Begun(RunOf(states[j], r))
    ensures RunOf(states[j], r).Closed? ||
              StepsOf(steps, j, r) - StepsOf(steps, i, r) + Remaining(RunOf(states[j], r), total)
              <= Remaining(RunOf(states[i], r), total)
    decreases j
  {
    if i < j {
      CancelledRunCountsDown(states, steps, total, i, j - 1, r);
      CountDownAt(states, steps, total, j - 1, r);
    }
  }

  lemma CountDownAt(states: seq<State>, steps: seq<Step>, total: nat, k: nat, r: Caller)
    requires IsRun(states, steps, total) && k < |steps|
    requires r in states[k].cancelled && Begun(RunOf(states[k], r))
    ensures r in states[k + 1].cancelled && Begun(RunOf(states[k + 1], r))
    ensures RunOf(states[k + 1], r).Closed? || (!RunOf(states[k], r).Closed? &&
              Remaining(RunOf(states[k + 1], r), total) + StepsOf(steps, k + 1, r)
              <= Remaining(RunOf(states[k], r), total) + StepsOf(steps, k, r))
  {
    SafeAlong(states, steps, total, k);
    assert Taken(states, steps, total, k);
    CountDownStep(states[k], r, steps[k], total);
  }

  /** A run that a waiting Stop observed is closed once it has taken 2 * total + 6 more steps of its own. */
  lemma StopReleasedWithin(states: seq<State>, steps: seq<Step>, total: nat, i: nat, j: nat, c: Caller)
    requires IsRun(states, steps, total) && i <= j <= |steps|
    requires StopOf(states[i], c).Awaiting? && StopOf(states[i], c).done.Some?
    requires StepsOf(steps, j, StopOf(states[i], c).done.value)
             >= StepsOf(steps, i, StopOf(states[i], c).done.value) + 2 * total + 6
    ensures RunOf(states[j], StopOf(states[i], c).done.value).Closed?
    ensures states[j].closes[StopOf(states[i], c).done.value] == 1
  {
    var r := StopOf(states[i], c).done.value;
    SafeAlong(states, steps, total, i);
    SafeAlong(states, steps, total, j);
    assert StopConsistent(states[i], StopOf(states[i], c));
    assert RunSafe(states[i], total, r) && RunSafe(states[j], total, r);
    CancelledRunCountsDown(states, steps, total, i, j, r);
  }
}
