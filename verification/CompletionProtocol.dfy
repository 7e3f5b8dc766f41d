/** The counting protocol of a completion object as interleaved steps:
    dancex11/scheduler/completion_base.h and completion_counter_base.cpp.

    One thread accepts futures, waits and collects; any number of other threads set future values.
    `mutex_` guards the list of completed events and the condition; the counter has a lock of its
    own, which is only held for one access, so an access to the counter is one step. */
module CompletionProtocol {
  import opened Collections

  type Future = nat

  /** Where a call of `update` for a future stands. */
  datatype UpdatePc =
    | Called               // entered, wants the mutex
    | Locked               // holds the mutex
    | Pushed               // has appended the future to the completed events
    | Decremented(zero: bool)  // has decremented the counter and seen whether it became zero
    | Signalled            // has broadcast on the condition
    | Done                 // has released the mutex

  /** Where the accepting and waiting thread stands. */
  datatype WaiterPc =
    | Running
    | InAttach(f: Future)  // the value was set before: `attach` itself is running `update`
    | Attached(f: Future)  // about to increment the counter
    | Testing              // holds the mutex, about to test the counter
    | Parked               // blocked on the condition
    | Woken                // a broadcast arrived, wants the mutex back
    | TimedOut             // the timeout expired, wants the mutex back
    | Leaving(result: bool)  // holds the mutex, about to return

  datatype Owner = Nobody | Waiter | Update(f: Future)

  datatype State = State(
    valueSet: set<Future>,
    observed: set<Future>,
    updates: map<Future, UpdatePc>,
    mutex: Owner,
    count: nat,
    completed: seq<Future>,
    handedOut: seq<Future>,
    waiter: WaiterPc)

  datatype Step =
    | SetValue(f: Future)
    | Attach(f: Future) | AttachReturns | Increment
    | Lock(f: Future) | Push(f: Future) | Decrement(f: Future) | Broadcast(f: Future) | Unlock(f: Future)
    | WaitLock | Test | Timeout | Relock | Leave
    | Collect

  const Init := State({}, {}, map[], Nobody, 0, [], [], Running)

  predicate At(s: State, f: Future, pc: UpdatePc) {
    f in s.updates && s.updates[f] == pc
  }

  predicate Enabled(s: State, step: Step) {
    match step
    case SetValue(f) => f !in s.valueSet
    case Attach(f) => s.waiter.Running? && f !in s.observed
    case AttachReturns => s.waiter.InAttach? && At(s, s.waiter.f, Done)
    case Increment => s.waiter.Attached?
    case Lock(f) => At(s, f, Called) && s.mutex.Nobody?
    case Push(f) => At(s, f, Locked)
    case Decrement(f) => At(s, f, Pushed)
    case Broadcast(f) => At(s, f, Decremented(true))
    case Unlock(f) => At(s, f, Decremented(false)) || At(s, f, Signalled)
    case WaitLock => s.waiter.Running? && s.mutex.Nobody?
    case Test => s.waiter.Testing?
    case Timeout => s.waiter.Parked?
    case Relock => (s.waiter.Woken? || s.waiter.TimedOut?) && s.mutex.Nobody?
    case Leave => s.waiter.Leaving?
    case Collect => s.waiter.Running? && s.mutex.Nobody?
  }

  function Apply(s: State, step: Step): State
    requires Enabled(s, step)
  {
    match step
    case SetValue(f) =>
      s.(valueSet := s.valueSet + {f},
         updates := if f in s.observed then s.updates[f := Called] else s.updates)
    case Attach(f) =>
      if f in s.valueSet
      then s.(observed := s.observed + {f}, updates := s.updates[f := Called], waiter := InAttach(f))
      else s.(observed := s.observed + {f}, waiter := Attached(f))
    case AttachReturns => s.(waiter := Attached(s.waiter.f))
    case Increment => s.(count := (s.count + 1) % U32, waiter := Running)
    case Lock(f) => s.(mutex := Update(f), updates := s.updates[f := Locked])
    case Push(f) => s.(completed := s.completed + [f], updates := s.updates[f := Pushed])
    case Decrement(f) =>
      var count := (s.count + U32 - 1) % U32;
      s.(count := count, updates := s.updates[f := Decremented(count == 0)])
    case Broadcast(f) =>
      s.(updates := s.updates[f := Signalled], waiter := if s.waiter.Parked? then Woken else s.waiter)
    case Unlock(f) => s.(mutex := Nobody, updates := s.updates[f := Done])
    case WaitLock => s.(mutex := Waiter, waiter := Testing)
    case Test =>
      if s.count == 0 then s.(waiter := Leaving(true)) else s.(waiter := Parked, mutex := Nobody)
    case Timeout => s.(waiter := TimedOut)
    case Relock => s.(waiter := Leaving(s.waiter.Woken?), mutex := Waiter)
    case Leave => s.(waiter := Running, mutex := Nobody)
    case Collect => s.(handedOut := s.handedOut + s.completed, completed := [])
  }

  ghost predicate Execution(states: seq<State>, steps: seq<Step>) {
    && |states| == |steps| + 1
    && states[0] == Init
    && forall i :: 0 <= i < |steps| ==>
                   Enabled(states[i], steps[i]) && states[i + 1] == Apply(states[i], steps[i])
  }

  // ------------------------------------------------------------------ invariants

  /** The futures whose decrement has happened. */
  function Retired(s: State): set<Future> {
    set f | f in s.updates && (s.updates[f].Decremented? || s.updates[f].Signalled? || s.updates[f].Done?)
  }

  /** The futures whose increment has happened. */
  function Counted(s: State): set<Future> {
    if s.waiter.InAttach? || s.waiter.Attached? then s.observed - {s.waiter.f} else s.observed
  }

  /** The accepted futures whose completion has not been counted. */
  function Outstanding(s: State): set<Future> {
    s.observed - Retired(s)
  }

  predicate Holding(pc: UpdatePc) {
    !pc.Called? && !pc.Done?
  }

  ghost predicate MutexInv(s: State) {
    && (s.mutex.Waiter? <==> s.waiter.Testing? || s.waiter.Leaving?)
    && (forall f :: f in s.updates ==> (Holding(s.updates[f]) <==> s.mutex == Update(f)))
    && (s.mutex.Update? ==> s.mutex.f in s.updates)
    && s.updates.Keys == s.observed * s.valueSet
    && (s.waiter.InAttach? || s.waiter.Attached? ==> s.waiter.f in s.observed)
  }

  ghost predicate CountInv(s: State) {
    s.count == (|Counted(s)| - |Retired(s)|) % U32
  }

  ghost predicate ParkInv(s: State) {
    s.waiter.Parked? ==>
      && (forall f :: f in s.updates && s.updates[f].Decremented? ==> (s.updates[f].zero <==> s.count == 0))
      && (s.count == 0 ==> exists f :: At(s, f, Decremented(true)))
  }

  ghost predicate Inv(s: State) {
    MutexInv(s) && CountInv(s) && ParkInv(s)
  }

  lemma MutexStep(s: State, step: Step)
    requires MutexInv(s) && Enabled(s, step)
    ensures MutexInv(Apply(s, step))
  {
  }

  lemma RetiredStep(s: State, step: Step)
    requires MutexInv(s) && Enabled(s, step)
    ensures Retired(Apply(s, step)) == Retired(s) + (if step.Decrement? then {step.f} else {})
    ensures step.Decrement? ==> step.f !in Retired(s)
  {
    var s' := Apply(s, step);
    assert forall f :: f in s'.updates && f in s.updates && s'.updates[f] != s.updates[f] ==> !step.Attach? && f == step.f;
  }

  lemma CountedStep(s: State, step: Step)
    requires MutexInv(s) && Enabled(s, step)
    ensures Counted(Apply(s, step)) == Counted(s) + (if step.Increment? then {s.waiter.f} else {})
    ensures step.Increment? ==> s.waiter.f !in Counted(s)
  {
  }

  lemma SizesStep(s: State, step: Step)
    requires MutexInv(s) && Enabled(s, step)
    ensures |Counted(Apply(s, step))| == |Counted(s)| + (if step.Increment? then 1 else 0)
    ensures |Retired(Apply(s, step))| == |Retired(s)| + (if step.Decrement? then 1 else 0)
  {
    CountedStep(s, step);
    RetiredStep(s, step);
  }

  lemma CountStep(s: State, step: Step)
    requires MutexInv(s) && CountInv(s) && Enabled(s, step)
    ensures CountInv(Apply(s, step))
  {
    SizesStep(s, step);
    CounterStep(s, step);
    Wrap(|Counted(s)| - |Retired(s)|);
  }

  lemma CounterStep(s: State, step: Step)
    requires Enabled(s, step)
    ensures Apply(s, step).count == if step.Increment? then (s.count + 1) % U32
                                    else if step.Decrement? then (s.count + U32 - 1) % U32
                                    else s.count
  {
  }

  lemma Wrap(d: int)
    ensures (d % U32 + 1) % U32 == (d + 1) % U32
    ensures (d % U32 + U32 - 1) % U32 == (d - 1) % U32
  {
  }

  lemma ParkStep(s: State, step: Step)
    requires Inv(s) && Enabled(s, step)
    ensures ParkInv(Apply(s, step))
  {
    var s' := Apply(s, step);
    if s'.waiter.Parked? && s'.count == 0 {
      if step.Decrement? {
        assert At(s', step.f, Decremented(true));
      } else {
        var f :| At(s, f, Decremented(true));
        assert At(s', f, Decremented(true));
      }
    }
  }

  lemma {:induction false} ExecutionInv(states: seq<State>, steps: seq<Step>, i: nat)
    requires Execution(states, steps) && i < |states|
    ensures Inv(states[i])
  {
    if i > 0 {
      ExecutionInv(states, steps, i - 1);
      MutexStep(states[i - 1], steps[i - 1]);
      CountStep(states[i - 1], steps[i - 1]);
      ParkStep(states[i - 1], steps[i - 1]);
    }
  }

  // ------------------------------------------------------------------ theorems

  /** No lost wake-up: as long as the waiter is parked and no broadcast is on its way, some accepted
      future is still outstanding.  No bound on the number of futures is needed. */
  lemma NoLostWakeUp(states: seq<State>, steps: seq<Step>, i: nat)
    requires Execution(states, steps) && i < |states|
    requires states[i].waiter.Parked? && forall f :: !At(states[i], f, Decremented(true))
    ensures Outstanding(states[i]) != {}
  {
    ExecutionInv(states, steps, i);
    var s := states[i];
    assert s.count != 0 && Counted(s) == s.observed && Retired(s) != s.observed;
    var f :| f in s.observed && f !in Retired(s);
    assert f in Outstanding(s);
  }

  predicate IsUpdateStep(step: Step) {
    step.Lock? || step.Push? || step.Decrement? || step.Broadcast? || step.Unlock?
  }

  /** Once every accepted future has its value, a parked waiter never hangs: some `update` can go on. */
  lemma ParkedWaiterIsServed(states: seq<State>, steps: seq<Step>, i: nat) returns (step: Step)
    requires Execution(states, steps) && i < |states|
    requires states[i].waiter.Parked? && states[i].observed <= states[i].valueSet
    ensures IsUpdateStep(step) && Enabled(states[i], step)
  {
    ExecutionInv(states, steps, i);
    var s := states[i];
    if g :| At(s, g, Decremented(true)) {
      step := Broadcast(g);
    } else {
      NoLostWakeUp(states, steps, i);
      var f :| f in Outstanding(s);
      var g := if s.mutex.Update? then s.mutex.f else f;
      var pc := s.updates[g];
      step := if pc.Called? then Lock(g) else if pc.Locked? then Push(g) else if pc.Pushed? then Decrement(g)
              else Unlock(g);
    }
  }

  predicate IsLetThrough(pc: WaiterPc) {
    pc.Woken? || pc == Leaving(true)
  }

  /** When the waiter is let through, everything accepted has completed. */
  ghost predicate LetThroughInv(s: State) {
    IsLetThrough(s.waiter) ==> Outstanding(s) == {}
  }

  /** The waiter is let through when the counter is zero. */
  lemma ComesThrough(s: State, step: Step)
    requires Inv(s) && Enabled(s, step) && IsLetThrough(Apply(s, step).waiter)
    ensures !step.Attach?
    ensures IsLetThrough(s.waiter) || ((s.waiter.Parked? || s.waiter.Testing?) && s.count == 0)
  {
  }

  lemma LetThroughStep(s: State, step: Step)
    requires Inv(s) && LetThroughInv(s) && Enabled(s, step)
    requires |Outstanding(s)| < U32
    ensures LetThroughInv(Apply(s, step))
  {
    hide Apply, Enabled, MutexInv, CountInv, ParkInv, Outstanding;
    if IsLetThrough(Apply(s, step).waiter) {
      ComesThrough(s, step);
      StaysOutstanding(s, step);
      if !IsLetThrough(s.waiter) {
        CountIsOutstanding(s);
      }
    }
  }

  /** Only the waiter's own attach adds to what is outstanding. */
  lemma StaysOutstanding(s: State, step: Step)
    requires MutexInv(s) && Enabled(s, step) && !step.Attach?
    ensures Outstanding(Apply(s, step)) <= Outstanding(s)
  {
    hide Retired, MutexInv;
    RetiredStep(s, step);
  }

  /** No premature wake-up: in every execution that never has 2^32 futures outstanding, a waiter that
      is woken by a broadcast, or returns true, has no accepted future outstanding. */
  lemma {:induction false} NoPrematureWakeUp(states: seq<State>, steps: seq<Step>, i: nat)
    requires Execution(states, steps) && i < |states|
    requires forall j :: 0 <= j < i ==> |Outstanding(states[j])| < U32
    ensures LetThroughInv(states[i])
  {
    if i > 0 {
      NoPrematureWakeUp(states, steps, i - 1);
      ExecutionInv(states, steps, i - 1);
      LetThroughStep(states[i - 1], steps[i - 1]);
    }
  }

  // ------------------------------------------------------------------ when exactly a waiter is let through

  /** The steps that decide about a waiter: its own test of the counter, and a decrement while it is parked. */
  predicate Decides(s: State, step: Step) {
    step.Test? || (step.Decrement? && s.waiter.Parked?)
  }

  /** The test returns true, or the decrement announces a broadcast. */
  predicate LetsThrough(s: State, step: Step)
    requires Enabled(s, step) && Decides(s, step)
  {
    var s' := Apply(s, step);
    if step.Test? then s'.waiter == Leaving(true) else At(s', step.f, Decremented(true))
  }

  lemma CountIsOutstanding(s: State)
    requires MutexInv(s) && CountInv(s) && (s.waiter.Testing? || s.waiter.Leaving? || s.waiter.Parked?)
    ensures s.count == |Outstanding(s)| % U32
  {
    assert Counted(s) == s.observed && Retired(s) <= s.observed;
    assert s.observed == Outstanding(s) + Retired(s);
    assert |s.observed| == |Outstanding(s)| + |Retired(s)|;
  }

  /** Without any bound: the waiter is let through exactly when the number of outstanding futures is a
      multiple of 2^32, so prematurely exactly when that multiple is positive; and a broadcast finds
      it parked only then. */
  lemma LetThroughExactly(states: seq<State>, steps: seq<Step>, i: nat)
    requires Execution(states, steps) && i < |steps|
    ensures var s, s', step := states[i], states[i + 1], steps[i];
            && (Decides(s, step) ==> (LetsThrough(s, step) <==> |Outstanding(s')| % U32 == 0))
            && (Decides(s, step) ==> (LetsThrough(s, step) && Outstanding(s') != {}
                                      <==> |Outstanding(s')| % U32 == 0 && |Outstanding(s')| >= U32))
            && (step.Broadcast? && s.waiter.Parked? ==> |Outstanding(s)| % U32 == 0)
  {
    var s, s', step := states[i], states[i + 1], steps[i];
    ExecutionInv(states, steps, i);
    ExecutionInv(states, steps, i + 1);
    if Decides(s, step) {
      CountIsOutstanding(s');
      assert LetsThrough(s, step) <==> s'.count == 0;
    }
    if step.Broadcast? && s.waiter.Parked? {
      CountIsOutstanding(s);
      assert s.updates[step.f].zero;
    }
  }

  // ------------------------------------------------------------------ what a wait returns

  lemma StillWaiting(s: State, step: Step)
    requires Enabled(s, step) && (s.waiter.Woken? || s.waiter.TimedOut?)
    ensures Apply(s, step).waiter == if step.Relock? then Leaving(s.waiter.Woken?) else s.waiter
  {
  }

  /** A wait that a broadcast has woken returns true, one whose timeout has expired returns false, however long it takes
      to get the mutex back and whatever happens meanwhile. */
  lemma {:induction false} WaitReturns(states: seq<State>, steps: seq<Step>, i: nat, j: nat)
    requires Execution(states, steps) && i < j < |states|
    requires states[i].waiter.Woken? || states[i].waiter.TimedOut?
    requires forall k :: i <= k < j ==> !states[k].waiter.Leaving?
    ensures states[j].waiter == states[i].waiter || states[j].waiter == Leaving(states[i].waiter.Woken?)
    decreases j
  {
    if j > i + 1 {
      WaitReturns(states, steps, i, j - 1);
    }
    StillWaiting(states[j - 1], steps[j - 1]);
  }

  /** Until then the wait can go on, or an update that holds the mutex can. */
  lemma WaitGoesOn(states: seq<State>, steps: seq<Step>, i: nat) returns (step: Step)
    requires Execution(states, steps) && i < |states|
    requires states[i].waiter.Woken? || states[i].waiter.TimedOut?
    ensures (step.Relock? || IsUpdateStep(step)) && Enabled(states[i], step)
  {
    ExecutionInv(states, steps, i);
    var s := states[i];
    if s.mutex.Nobody? {
      step := Relock;
    } else {
      var f := s.mutex.f;
      var pc := s.updates[f];
      step := if pc.Locked? then Push(f) else if pc.Pushed? then Decrement(f)
              else if pc == Decremented(true) then Broadcast(f) else Unlock(f);
    }
  }

  // ------------------------------------------------------------------ the completed events

  ghost predicate ListInv(s: State) {
    var all := s.handedOut + s.completed;
    && (forall i, j :: 0 <= i < j < |all| ==> all[i] != all[j])
    && (forall f :: f in all <==> f in s.updates && !s.updates[f].Called? && !s.updates[f].Locked?)
  }

  lemma ListStep(s: State, step: Step)
    requires MutexInv(s) && ListInv(s) && Enabled(s, step)
    ensures ListInv(Apply(s, step))
  {
    var s' := Apply(s, step);
    var all, all' := s.handedOut + s.completed, s'.handedOut + s'.completed;
    if step.Push? {
      assert all' == all + [step.f];
    } else {
      assert all' == all;
    }
  }

  lemma {:induction false} ExecutionListInv(states: seq<State>, steps: seq<Step>, i: nat)
    requires Execution(states, steps) && i < |states|
    ensures ListInv(states[i])
  {
    if i > 0 {
      ExecutionListInv(states, steps, i - 1);
      ExecutionInv(states, steps, i - 1);
      ListStep(states[i - 1], steps[i - 1]);
    }
  }

  /** When a wait returns true, the completed events together with those handed out before are exactly
      the accepted futures, each once. */
  lemma EachFutureOnce(states: seq<State>, steps: seq<Step>, i: nat)
    requires Execution(states, steps) && i < |states|
    requires forall j :: 0 <= j < i ==> |Outstanding(states[j])| < U32
    requires states[i].waiter == Leaving(true)
    ensures var all := states[i].handedOut + states[i].completed;
            && (forall f :: f in all <==> f in states[i].observed)
            && (forall j, k :: 0 <= j < k < |all| ==> all[j] != all[k])
  {
    NoPrematureWakeUp(states, steps, i);
    ExecutionInv(states, steps, i);
    ExecutionListInv(states, steps, i);
    var s := states[i];
    forall f | f in s.observed
      ensures f in s.handedOut + s.completed
    {
      assert f !in Outstanding(s) && f in Retired(s);
    }
  }

  // ------------------------------------------------------------------ why the bound is needed

  function Accepted(n: nat): State {
    Init.(observed := Below(n), count := n % U32)
  }

  lemma AcceptOne(n: nat)
    ensures Enabled(Accepted(n), Attach(n))
    ensures var s := Apply(Accepted(n), Attach(n)); Enabled(s, Increment) && Apply(s, Increment) == Accepted(n + 1)
  {
    Wrap(n);
  }

  lemma {:induction false} AcceptMany(n: nat) returns (states: seq<State>, steps: seq<Step>)
    ensures Execution(states, steps) && states[|states| - 1] == Accepted(n)
  {
    states, steps := [Init], [];
    if n > 0 {
      states, steps := AcceptMany(n - 1);
      AcceptOne(n - 1);
      states, steps := Extend(states, steps, Attach(n - 1));
      states, steps := Extend(states, steps, Increment);
    }
  }

  lemma Extend(states: seq<State>, steps: seq<Step>, step: Step) returns (states': seq<State>, steps': seq<Step>)
    requires Execution(states, steps) && Enabled(states[|states| - 1], step)
    ensures Execution(states', steps') && states'[|states'| - 1] == Apply(states[|states| - 1], step)
  {
    states', steps' := states + [Apply(states[|states| - 1], step)], steps + [step];
  }

  /** With 2^32 futures outstanding, or any multiple of it, the 32 bit counter is zero again and a wait
      returns at once. */
  lemma WrappedCounterLetsThrough(n: nat) returns (states: seq<State>, steps: seq<Step>)
    requires n % U32 == 0
    ensures Execution(states, steps)
    ensures var last := states[|states| - 1]; last.waiter == Leaving(true) && |Outstanding(last)| == n
  {
    states, steps := AcceptMany(n);
    states, steps := Extend(states, steps, WaitLock);
    states, steps := Extend(states, steps, Test);
    assert Outstanding(states[|states| - 1]) == Below(n);
    BelowSize(n);
  }
}
