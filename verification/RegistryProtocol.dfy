/** The locking of artifact registries as interleaved steps of any number of threads that install and remove
    artifacts: tools/artifact_installation/artifact_installation_impl.cpp and artifact_installation_impl.h.

    `artifacts_lock_` guards the map from names to registries and the locking of registries; a guard is given up
    without that lock, first by clearing `locked_` and then by a broadcast on the condition. */
module RegistryProtocol {
  import opened Collections

  type Name = nat
  type Id = nat
  type Thread = nat

  datatype Op = Install | Remove

  /** Where a thread stands; `id` is the registry it refers to. */
  datatype Pc =
    | Idle
    | WantLock(op: Op, name: Name)            // wants artifacts_lock_
    | Looking(op: Op, name: Name)             // holds it, about to look the name up
    | Found(op: Op, name: Name, id: Id)       // holds it, about to test locked_
    | Free(op: Op, name: Name, id: Id)        // holds it, has seen the registry unlocked
    | Leaving(op: Op, name: Name, id: Id)     // holds it, has locked the registry
    | Parked(op: Op, name: Name)              // waits on the condition
    | Owning(op: Op, name: Name, id: Id)      // has the guard
    | WantErase(name: Name, id: Id)           // the count is zero; wants artifacts_lock_
    | Erasing(name: Name, id: Id)             // holds it, about to erase the name
    | LeavingErase(name: Name, id: Id)        // holds it, has erased the name
    | Unlocking(erased: bool, name: Name, id: Id)  // in the destructor of the guard
    | Broadcasting(erased: bool, name: Name, id: Id)  // has cleared locked_, about to broadcast
    | Deleting(id: Id)                        // removes the versions and deletes the registry

  datatype Registry = Registry(locked: bool, count: nat)

  datatype State = State(artifacts: map<Name, Id>, heap: map<Id, Registry>, lock: Option<Thread>, pc: seq<Pc>)

  datatype Step =
    | Begin(t: Thread, op: Op, name: Name)
    | Acquire(t: Thread)
    | Lookup(t: Thread, newId: Id)
    | Test(t: Thread)
    | SetLocked(t: Thread)
    | Release(t: Thread)
    | Wake(t: Thread)
    | Work(t: Thread, success: bool)
    | AcquireErase(t: Thread)
    | Erase(t: Thread)
    | ReleaseErase(t: Thread)
    | Unlock(t: Thread)
    | Broadcast(t: Thread)
    | Delete(t: Thread)

  function Init(threads: nat): State {
    State(map[], map[], None, seq(threads, _ => Idle))
  }

  predicate Enabled(s: State, step: Step) {
    && step.t < |s.pc|
    && var pc := s.pc[step.t];
       match step
       case Begin(_, _, _) => pc.Idle?
       case Acquire(_) => pc.WantLock? && s.lock.None?
       case Lookup(_, newId) => pc.Looking? && newId !in s.heap
       case Test(_) => pc.Found? && pc.id in s.heap
       case SetLocked(_) => pc.Free? && pc.id in s.heap
       case Release(_) => pc.Leaving?
       case Wake(_) => pc.Parked?
       case Work(_, _) => pc.Owning? && pc.id in s.heap
       case AcquireErase(_) => pc.WantErase? && s.lock.None?
       case Erase(_) => pc.Erasing?
       case ReleaseErase(_) => pc.LeavingErase?
       case Unlock(_) => pc.Unlocking? && pc.id in s.heap
       case Broadcast(_) => pc.Broadcasting?
       case Delete(_) => pc.Deleting?
  }

  function Goto(s: State, t: Thread, pc: Pc): State
    requires t < |s.pc|
  {
    s.(pc := s.pc[t := pc])
  }

  function Apply(s: State, step: Step): State
    requires Enabled(s, step)
  {
    var t, pc := step.t, s.pc[step.t];
    match step
    case Begin(_, op, name) => Goto(s, t, WantLock(op, name))
    case Acquire(_) => Goto(s.(lock := Some(t)), t, Looking(pc.op, pc.name))
    case Lookup(_, newId) =>
      if pc.name in s.artifacts then Goto(s, t, Found(pc.op, pc.name, s.artifacts[pc.name]))
      // a removal of an unknown artifact raises PlanError
      else if pc.op == Remove then Goto(s.(lock := None), t, Idle)
      // a new registry is created locked
      else Goto(s.(artifacts := s.artifacts[pc.name := newId], heap := s.heap[newId := Registry(true, 0)]), t,
                Leaving(pc.op, pc.name, newId))
    case Test(_) =>
      if s.heap[pc.id].locked then Goto(s.(lock := None), t, Parked(pc.op, pc.name))
      else Goto(s, t, Free(pc.op, pc.name, pc.id))
    case SetLocked(_) =>
      Goto(s.(heap := s.heap[pc.id := s.heap[pc.id].(locked := true)]), t, Leaving(pc.op, pc.name, pc.id))
    case Release(_) => Goto(s.(lock := None), t, Owning(pc.op, pc.name, pc.id))
    // after every wait the map is consulted again
    case Wake(_) => Goto(s, t, WantLock(pc.op, pc.name))
    case Work(_, success) =>
      var r := s.heap[pc.id];
      if pc.op == Install then
        Goto(if success then s.(heap := s.heap[pc.id := r.(count := (r.count + 1) % U32)]) else s, t, Unlocking(false, pc.name, pc.id))
      else if r.count == 0 then Goto(s, t, Unlocking(false, pc.name, pc.id))
      else Goto(s.(heap := s.heap[pc.id := r.(count := r.count - 1)]), t,
                if r.count == 1 then WantErase(pc.name, pc.id) else Unlocking(false, pc.name, pc.id))
    case AcquireErase(_) => Goto(s.(lock := Some(t)), t, Erasing(pc.name, pc.id))
    case Erase(_) => Goto(s.(artifacts := s.artifacts - {pc.name}), t, LeavingErase(pc.name, pc.id))
    case ReleaseErase(_) => Goto(s.(lock := None), t, Unlocking(true, pc.name, pc.id))
    case Unlock(_) =>
      Goto(s.(heap := s.heap[pc.id := s.heap[pc.id].(locked := false)]), t, Broadcasting(pc.erased, pc.name, pc.id))
    case Broadcast(_) => Goto(s, t, if pc.erased then Deleting(pc.id) else Idle)
    case Delete(_) => Goto(s.(heap := s.heap - {pc.id}), t, Idle)
  }

  /** `steps` lead from `s` to `s'`. */
  ghost predicate Leads(s: State, steps: seq<Step>, s': State)
    decreases |steps|
  {
    if steps == [] then s == s'
    else Enabled(s, steps[0]) && Leads(Apply(s, steps[0]), steps[1..], s')
  }

  ghost predicate Reachable(threads: nat, s: State) {
    exists steps :: Leads(Init(threads), steps, s)
  }

  // ------------------------------------------------------------------ who has what

  predicate HoldsLock(pc: Pc) {
    pc.Looking? || pc.Found? || pc.Free? || pc.Leaving? || pc.Erasing? || pc.LeavingErase?
  }

  /** The thread owns the guard of registry `id`. */
  predicate Owns(pc: Pc, id: Id) {
    && (pc.Leaving? || pc.Owning? || pc.WantErase? || pc.Erasing? || pc.LeavingErase? || pc.Unlocking?)
    && pc.id == id
  }

  /** The thread has erased registry `id` from the map. */
  predicate Erased(pc: Pc, id: Id) {
    && (pc.LeavingErase? || (pc.Unlocking? && pc.erased) || (pc.Broadcasting? && pc.erased) || pc.Deleting?)
    && pc.id == id
  }

  /** The next step of the thread reads or writes registry `id`. */
  predicate Touches(pc: Pc, id: Id) {
    && (pc.Found? || pc.Free? || pc.Owning? || pc.Unlocking? || pc.Broadcasting? || pc.Deleting?)
    && pc.id == id
  }

  /** The broadcast that follows the clearing of `locked_`. */
  predicate Trailing(pc: Pc) {
    pc.Broadcasting? && !pc.erased
  }

  /** The thread came to its registry through the map and has not erased it. */
  predicate Mapped(pc: Pc) {
    || pc.Found? || pc.Free? || pc.Leaving? || pc.Owning? || pc.WantErase? || pc.Erasing?
    || (pc.Unlocking? && !pc.erased)
  }

  ghost predicate LockInv(s: State) {
    forall t :: 0 <= t < |s.pc| ==> (HoldsLock(s.pc[t]) <==> s.lock == Some(t))
  }

  /** The map is one-to-one, and what threads got from it and have not erased is still in it. */
  ghost predicate MapInv(s: State) {
    && (forall n :: n in s.artifacts ==> s.artifacts[n] in s.heap)
    && (forall n, m :: n in s.artifacts && m in s.artifacts && n != m ==> s.artifacts[n] != s.artifacts[m])
  }

  ghost predicate MappedInv(s: State) {
    forall t :: 0 <= t < |s.pc| && Mapped(s.pc[t]) ==>
                  s.pc[t].name in s.artifacts && s.artifacts[s.pc[t].name] == s.pc[t].id
  }

  /** What is owned is locked. */
  ghost predicate OwnerInv(s: State) {
    forall t, id: Id :: 0 <= t < |s.pc| && Owns(s.pc[t], id) ==> id in s.heap && s.heap[id].locked
  }

  /** What was seen unlocked under the lock of the map still is. */
  ghost predicate FreeInv(s: State) {
    forall t :: 0 <= t < |s.pc| && s.pc[t].Free? ==> s.pc[t].id in s.heap && !s.heap[s.pc[t].id].locked
  }

  ghost predicate SoleOwner(s: State) {
    forall t, u, id: Id :: 0 <= t < |s.pc| && 0 <= u < |s.pc| && Owns(s.pc[t], id) && Owns(s.pc[u], id) ==> t == u
  }

  ghost predicate Owned(s: State, id: Id) {
    exists t :: 0 <= t < |s.pc| && Owns(s.pc[t], id)
  }

  ghost predicate LockedInv(s: State) {
    forall id: Id :: id in s.heap && s.heap[id].locked ==> Owned(s, id)
  }

  ghost predicate InMap(s: State, id: Id) {
    exists n :: n in s.artifacts && s.artifacts[n] == id
  }

  ghost predicate HasEraser(s: State, id: Id) {
    exists t :: 0 <= t < |s.pc| && Erased(s.pc[t], id)
  }

  /** What is erased is in no entry of the map, and one thread has erased it. */
  ghost predicate ErasedInv(s: State) {
    && (forall t, id: Id :: 0 <= t < |s.pc| && Erased(s.pc[t], id) ==> id in s.heap && !InMap(s, id))
    && (forall t, u, id: Id :: 0 <= t < |s.pc| && 0 <= u < |s.pc| && Erased(s.pc[t], id) && Erased(s.pc[u], id) ==> t == u)
  }

  ghost predicate KeptInv(s: State) {
    forall id: Id :: id in s.heap ==> InMap(s, id) || HasEraser(s, id)
  }

  ghost predicate Inv(s: State) {
    && LockInv(s) && MapInv(s) && MappedInv(s) && OwnerInv(s) && FreeInv(s) && SoleOwner(s) && LockedInv(s)
    && ErasedInv(s) && KeptInv(s)
  }

  lemma LockStep(s: State, step: Step)
    requires LockInv(s) && Enabled(s, step)
    ensures LockInv(Apply(s, step))
  {
  }

  lemma MapStep(s: State, step: Step)
    requires MapInv(s) && MappedInv(s) && ErasedInv(s) && Enabled(s, step)
    ensures MapInv(Apply(s, step))
  {
  }

  /** Nobody else came through the map to the registry that is being erased. */
  lemma EraserIsAlone(s: State, t: Thread, u: Thread)
    requires LockInv(s) && MapInv(s) && MappedInv(s) && SoleOwner(s)
    requires t < |s.pc| && u < |s.pc| && t != u && s.pc[t].Erasing? && Mapped(s.pc[u])
    ensures s.pc[u].name != s.pc[t].name
  {
    assert HoldsLock(s.pc[t]) && Owns(s.pc[t], s.pc[t].id);
    if s.pc[u].id == s.pc[t].id {
      assert HoldsLock(s.pc[u]) || Owns(s.pc[u], s.pc[t].id);
    }
  }

  predicate IsMappedTo(s: State, pc: Pc) {
    Mapped(pc) ==> pc.name in s.artifacts && s.artifacts[pc.name] == pc.id
  }

  lemma MappedOwn(s: State, step: Step)
    requires MappedInv(s) && Enabled(s, step)
    ensures IsMappedTo(Apply(s, step), Apply(s, step).pc[step.t])
  {
  }

  lemma MappedOther(s: State, step: Step, u: Thread)
    requires LockInv(s) && MapInv(s) && MappedInv(s) && SoleOwner(s) && Enabled(s, step) && u < |s.pc| && u != step.t
    ensures IsMappedTo(Apply(s, step), s.pc[u])
  {
    hide LockInv, MapInv, SoleOwner;
    if step.Erase? && Mapped(s.pc[u]) {
      EraserIsAlone(s, step.t, u);
    }
  }

  lemma MappedStep(s: State, step: Step)
    requires LockInv(s) && MapInv(s) && MappedInv(s) && SoleOwner(s) && Enabled(s, step)
    ensures MappedInv(Apply(s, step))
  {
    hide LockInv, MapInv, SoleOwner, Enabled, Apply;
    var s' := Apply(s, step);
    OthersStay(s, step);
    forall u | 0 <= u < |s'.pc|
      ensures IsMappedTo(s', s'.pc[u])
    {
      if u == step.t {
        MappedOwn(s, step);
      } else {
        MappedOther(s, step, u);
      }
    }
  }

  /** Nobody owns or has seen unlocked the registry that is being deleted. */
  lemma DeletedIsUnused(s: State, t: Thread, u: Thread)
    requires MappedInv(s) && ErasedInv(s)
    requires t < |s.pc| && u < |s.pc| && s.pc[t].Deleting?
    ensures !Owns(s.pc[u], s.pc[t].id) && (s.pc[u].Free? ==> s.pc[u].id != s.pc[t].id)
  {
    var id := s.pc[t].id;
    assert Erased(s.pc[t], id);
    if Mapped(s.pc[u]) {
      assert InMap(s, s.pc[u].id);
    } else if Owns(s.pc[u], id) {
      assert Erased(s.pc[u], id);
    }
  }

  lemma OwnerStep(s: State, step: Step)
    requires MappedInv(s) && OwnerInv(s) && SoleOwner(s) && ErasedInv(s) && Enabled(s, step)
    ensures OwnerInv(Apply(s, step))
  {
    var t := step.t;
    if step.Delete? {
      forall u | 0 <= u < |s.pc|
        ensures !Owns(s.pc[u], s.pc[t].id)
      {
        DeletedIsUnused(s, t, u);
      }
    } else if step.Unlock? {
      assert Owns(s.pc[t], s.pc[t].id);
    }
  }

  lemma FreeStep(s: State, step: Step)
    requires LockInv(s) && MappedInv(s) && FreeInv(s) && ErasedInv(s) && Enabled(s, step)
    ensures FreeInv(Apply(s, step))
  {
    var t := step.t;
    if step.Delete? {
      forall u | 0 <= u < |s.pc|
        ensures s.pc[u].Free? ==> s.pc[u].id != s.pc[t].id
      {
        DeletedIsUnused(s, t, u);
      }
    } else if step.SetLocked? {
      assert HoldsLock(s.pc[t]);
      assert forall u :: 0 <= u < |s.pc| && s.pc[u].Free? ==> HoldsLock(s.pc[u]);
    }
  }

  /** A step makes its thread the owner only of what nobody owned. */
  lemma NewOwner(s: State, step: Step, u: Thread, id: Id)
    requires OwnerInv(s) && FreeInv(s) && SoleOwner(s) && Enabled(s, step) && u < |s.pc| && u != step.t
    requires Owns(Apply(s, step).pc[step.t], id)
    ensures !Owns(s.pc[u], id)
  {
    assert Owns(s.pc[step.t], id) || (s.pc[step.t].Free? && s.pc[step.t].id == id) || id !in s.heap;
  }

  lemma SoleStep(s: State, step: Step)
    requires OwnerInv(s) && FreeInv(s) && SoleOwner(s) && Enabled(s, step)
    ensures SoleOwner(Apply(s, step))
  {
    hide Enabled;
    var s' := Apply(s, step);
    OthersStay(s, step);
    forall t, u, id: Id | 0 <= t < |s'.pc| && 0 <= u < |s'.pc| && Owns(s'.pc[t], id) && Owns(s'.pc[u], id)
      ensures t == u
    {
      if t == step.t && u != step.t {
        NewOwner(s, step, u, id);
      } else if u == step.t && t != step.t {
        NewOwner(s, step, t, id);
      }
    }
  }

  lemma OthersStay(s: State, step: Step)
    requires Enabled(s, step)
    ensures step.t < |s.pc| == |Apply(s, step).pc|
    ensures forall u :: 0 <= u < |s.pc| && u != step.t ==> Apply(s, step).pc[u] == s.pc[u]
  {
  }

  /** What is locked after a step has an owner. */
  lemma LockedStep(s: State, step: Step)
    requires OwnerInv(s) && LockedInv(s) && Enabled(s, step)
    ensures LockedInv(Apply(s, step))
  {
    var s' := Apply(s, step);
    forall id: Id | id in s'.heap && s'.heap[id].locked
      ensures Owned(s', id)
    {
      LockedIsOwned(s, step, id);
    }
  }

  lemma LockedIsOwned(s: State, step: Step, id: Id)
    requires LockedInv(s) && Enabled(s, step)
    requires var s' := Apply(s, step); id in s'.heap && s'.heap[id].locked
    ensures Owned(Apply(s, step), id)
  {
    var s', t := Apply(s, step), step.t;
    OthersStay(s, step);
    if id in s.heap && s.heap[id].locked {
      assert Owned(s, id);
      var u :| 0 <= u < |s.pc| && Owns(s.pc[u], id);
      assert Owns(s'.pc[u], id);
    } else {
      assert Owns(s'.pc[t], id);
    }
  }

  // ------------------------------------------------------------------ erased registries

  lemma ErasedStep(s: State, step: Step)
    requires LockInv(s) && MapInv(s) && MappedInv(s) && ErasedInv(s) && Enabled(s, step)
    ensures ErasedInv(Apply(s, step))
  {
    hide Apply, Enabled, MapInv, MappedInv, LockInv;
    var s' := Apply(s, step);
    OthersStay(s, step);
    forall u, id: Id | 0 <= u < |s'.pc| && Erased(s'.pc[u], id)
      ensures id in s'.heap && !InMap(s', id)
    {
      ErasedStays(s, step, u, id);
    }
    forall u, w, id: Id | 0 <= u < |s'.pc| && 0 <= w < |s'.pc| && Erased(s'.pc[u], id) && Erased(s'.pc[w], id)
      ensures u == w
    {
      ErasedStays(s, step, u, id);
    }
  }

  lemma ErasedStays(s: State, step: Step, u: Thread, id: Id)
    requires MapInv(s) && MappedInv(s) && ErasedInv(s) && Enabled(s, step)
    requires u < |s.pc| && Erased(Apply(s, step).pc[u], id)
    ensures var s' := Apply(s, step);
            id in s'.heap && !InMap(s', id) && forall w :: 0 <= w < |s'.pc| && Erased(s'.pc[w], id) ==> w == u
  {
    var s', t := Apply(s, step), step.t;
    OthersStay(s, step);
    if step.Erase? && u == t {
      // it was in the map until now
      assert Mapped(s.pc[t]) && InMap(s, id);
    } else {
      assert Erased(s.pc[u], id);
      assert step.Erase? ==> InMap(s, s.pc[t].id);
    }
  }

  lemma KeptStep(s: State, step: Step)
    requires MapInv(s) && MappedInv(s) && ErasedInv(s) && KeptInv(s) && Enabled(s, step)
    ensures KeptInv(Apply(s, step))
  {
    var s' := Apply(s, step);
    forall id: Id | id in s'.heap
      ensures InMap(s', id) || HasEraser(s', id)
    {
      KeptStays(s, step, id);
    }
  }

  lemma KeptStays(s: State, step: Step, id: Id)
    requires MapInv(s) && MappedInv(s) && ErasedInv(s) && KeptInv(s) && Enabled(s, step) && id in Apply(s, step).heap
    ensures InMap(Apply(s, step), id) || HasEraser(Apply(s, step), id)
  {
    var s', t := Apply(s, step), step.t;
    OthersStay(s, step);
    if id !in s.heap {
      assert s'.artifacts[s.pc[t].name] == id;
    } else if InMap(s, id) {
      var n :| n in s.artifacts && s.artifacts[n] == id;
      if step.Erase? && n == s.pc[t].name {
        assert Erased(s'.pc[t], id);
      } else {
        assert n in s'.artifacts && s'.artifacts[n] == id;
      }
    } else {
      var u :| 0 <= u < |s.pc| && Erased(s.pc[u], id);
      assert Erased(s'.pc[u], id);
    }
  }

  // ------------------------------------------------------------------ all runs

  lemma InitInv(threads: nat)
    ensures Inv(Init(threads))
  {
  }

  lemma InvStep(s: State, step: Step)
    requires Inv(s) && Enabled(s, step)
    ensures Inv(Apply(s, step))
  {
    hide Apply, LockInv, MapInv, MappedInv, OwnerInv, FreeInv, SoleOwner, LockedInv, ErasedInv, KeptInv;
    LockStep(s, step);
    MapStep(s, step);
    MappedStep(s, step);
    OwnerStep(s, step);
    FreeStep(s, step);
    SoleStep(s, step);
    LockedStep(s, step);
    ErasedStep(s, step);
    KeptStep(s, step);
  }

  lemma {:induction false} InvLeads(s: State, steps: seq<Step>, s': State)
    requires Inv(s) && Leads(s, steps, s')
    ensures Inv(s')
    decreases |steps|
  {
    hide Inv, Apply;
    if steps != [] {
      InvStep(s, steps[0]);
      InvLeads(Apply(s, steps[0]), steps[1..], s');
    }
  }

  lemma ReachableInv(threads: nat, s: State)
    requires Reachable(threads, s)
    ensures Inv(s)
  {
    hide Inv, Leads;
    var steps :| Leads(Init(threads), steps, s);
    InitInv(threads);
    InvLeads(Init(threads), steps, s);
  }

  /** A registry is locked exactly when a thread owns its guard, and never do two threads own one registry. */
  lemma OwnershipIsExclusive(threads: nat, s: State, id: Id)
    requires Reachable(threads, s)
    ensures id in s.heap ==> (s.heap[id].locked <==> Owned(s, id))
    ensures Owned(s, id) ==> id in s.heap
    ensures forall t, u :: 0 <= t < |s.pc| && 0 <= u < |s.pc| && Owns(s.pc[t], id) && Owns(s.pc[u], id) ==> t == u
  {
    ReachableInv(threads, s);
  }

  /** Whoever is about to touch a registry, other than with the broadcast after clearing `locked_`, touches one that
      exists; and if it is erased, the toucher is the one thread that erased it. */
  lemma ErasedIsTouchedByEraserOnly(threads: nat, s: State, id: Id, t: Thread)
    requires Reachable(threads, s) && t < |s.pc| && Touches(s.pc[t], id) && !Trailing(s.pc[t])
    ensures id in s.heap
    ensures !InMap(s, id) ==> Erased(s.pc[t], id)
    ensures !InMap(s, id) ==> forall u :: 0 <= u < |s.pc| && Erased(s.pc[u], id) ==> u == t
  {
    ReachableInv(threads, s);
    if Mapped(s.pc[t]) {
      assert s.artifacts[s.pc[t].name] == id;
    } else {
      assert Erased(s.pc[t], id);
    }
  }

  // ------------------------------------------------------------------ operations are carried out

  /** The thread is on its way to the guard of the registry of `name`, or has it. */
  predicate Pursues(pc: Pc, op: Op, name: Name) {
    && (pc.WantLock? || pc.Looking? || pc.Found? || pc.Free? || pc.Leaving? || pc.Parked? || pc.Owning?)
    && pc.op == op && pc.name == name
  }

  /** The step carries out the operation of thread `t`, or refuses to remove what is not there. */
  predicate CarriesOut(s: State, step: Step, t: Thread, op: Op, name: Name) {
    && step.t == t && t < |s.pc|
    && ((step.Work? && s.pc[t].Owning?) || (step.Lookup? && op == Remove && name !in s.artifacts))
  }

  lemma PursuesStep(s: State, step: Step, t: Thread, op: Op, name: Name)
    requires Enabled(s, step) && t < |s.pc| && Pursues(s.pc[t], op, name) && !CarriesOut(s, step, t, op, name)
    ensures t < |Apply(s, step).pc| && Pursues(Apply(s, step).pc[t], op, name)
  {
    OthersStay(s, step);
  }

  /** A thread that has begun an operation does nothing else until it is carried out, however often it has to wait. */
  lemma {:induction false} NotForgotten(s: State, steps: seq<Step>, s': State, t: Thread, op: Op, name: Name)
    returns (k: nat, at: State)
    requires Leads(s, steps, s') && t < |s.pc| && Pursues(s.pc[t], op, name)
    requires t < |s'.pc| && !Pursues(s'.pc[t], op, name)
    ensures k < |steps| && Leads(s, steps[..k], at) && Enabled(at, steps[k]) && CarriesOut(at, steps[k], t, op, name)
    ensures Pursues(at.pc[t], op, name)
    decreases |steps|
  {
    hide Apply, Enabled, Pursues, CarriesOut;
    if CarriesOut(s, steps[0], t, op, name) {
      k, at := 0, s;
      assert steps[..0] == [];
    } else {
      PursuesStep(s, steps[0], t, op, name);
      k, at := NotForgotten(Apply(s, steps[0]), steps[1..], s', t, op, name);
      k := k + 1;
      assert steps[..k][0] == steps[0] && steps[..k][1..] == steps[1..][..k - 1];
    }
  }

  // ------------------------------------------------------------------ the broadcast after unlocking

  lemma {:induction false} OneMoreStep(s: State, steps: seq<Step>, s': State, step: Step)
    requires Leads(s, steps, s') && Enabled(s', step)
    ensures Leads(s, steps + [step], Apply(s', step))
    decreases |steps|
  {
    hide Apply, Enabled;
    if steps == [] {
      assert [step][1..] == [] && [] + [step] == [step];
    } else {
      OneMoreStep(Apply(s, steps[0]), steps[1..], s', step);
      assert (steps + [step])[1..] == steps[1..] + [step];
    }
  }

  // What threads may do is a relation between threads, operations and artifact names.

  ghost predicate Permitted(permits: (Thread, Op, Name) -> bool, step: Step) {
    step.Begin? ==> permits(step.t, step.op, step.name)
  }

  /** Some run in which threads begin nothing but what they may leads to `s`. */
  ghost predicate ReachableBy(threads: nat, permits: (Thread, Op, Name) -> bool, s: State) {
    exists steps :: Leads(Init(threads), steps, s) && forall k :: 0 <= k < |steps| ==> Permitted(permits, steps[k])
  }

  lemma StartReachable(threads: nat, permits: (Thread, Op, Name) -> bool)
    ensures ReachableBy(threads, permits, Init(threads))
  {
    assert Leads(Init(threads), [], Init(threads));
  }

  lemma Then(threads: nat, permits: (Thread, Op, Name) -> bool, s: State, step: Step) returns (s': State)
    requires ReachableBy(threads, permits, s) && Enabled(s, step) && Permitted(permits, step)
    ensures s' == Apply(s, step) && ReachableBy(threads, permits, s')
  {
    hide Apply, Enabled, Leads, Permitted;
    var steps :| Leads(Init(threads), steps, s) && forall k :: 0 <= k < |steps| ==> Permitted(permits, steps[k]);
    OneMoreStep(Init(threads), steps, s, step);
    s' := Apply(s, step);
  }

  /** Thread `t` owns the guard of the registry it found in the map. */
  predicate CanEnter(s: State, t: Thread, name: Name, id: Id, spare: Id) {
    && s.lock.None? && t < |s.pc| && s.pc[t].Idle? && spare !in s.heap
    && name in s.artifacts && s.artifacts[name] == id && id in s.heap && !s.heap[id].locked
  }

  lemma Finds(threads: nat, permits: (Thread, Op, Name) -> bool, s: State, t: Thread, op: Op, name: Name, id: Id, spare: Id)
    returns (s': State)
    requires ReachableBy(threads, permits, s) && CanEnter(s, t, name, id, spare) && permits(t, op, name)
    ensures ReachableBy(threads, permits, s')
    ensures s' == State(s.artifacts, s.heap, Some(t), s.pc[t := Found(op, name, id)])
  {
    hide ReachableBy;
    s' := Then(threads, permits, s, Begin(t, op, name));
    s' := Then(threads, permits, s', Acquire(t));
    s' := Then(threads, permits, s', Lookup(t, spare));
    assert s'.pc == s.pc[t := Found(op, name, id)];
  }

  lemma Enters(threads: nat, permits: (Thread, Op, Name) -> bool, s: State, t: Thread, op: Op, name: Name, id: Id, spare: Id)
    returns (s': State)
    requires ReachableBy(threads, permits, s) && CanEnter(s, t, name, id, spare) && permits(t, op, name)
    ensures ReachableBy(threads, permits, s')
    ensures s' == State(s.artifacts, s.heap[id := Registry(true, s.heap[id].count)], None, s.pc[t := Owning(op, name, id)])
  {
    hide ReachableBy;
    s' := Finds(threads, permits, s, t, op, name, id, spare);
    s' := Then(threads, permits, s', Test(t));
    s' := Then(threads, permits, s', SetLocked(t));
    s' := Then(threads, permits, s', Release(t));
    assert s'.pc == s.pc[t := Owning(op, name, id)];
  }

  lemma Unlocks(threads: nat, permits: (Thread, Op, Name) -> bool, s: State, t: Thread, op: Op, name: Name, id: Id, count: nat)
    returns (s': State)
    requires ReachableBy(threads, permits, s) && t < |s.pc| && s.pc[t] == Owning(op, name, id) && id in s.heap
    requires count > 0 && if op == Install then count == (s.heap[id].count + 1) % U32 else count + 1 == s.heap[id].count
    ensures ReachableBy(threads, permits, s')
    ensures s' == s.(heap := s.heap[id := Registry(false, count)], pc := s.pc[t := Broadcasting(false, name, id)])
  {
    hide ReachableBy;
    s' := Then(threads, permits, s, Work(t, true));
    s' := Then(threads, permits, s', Unlock(t));
    assert s'.pc == s.pc[t := Broadcasting(false, name, id)];
  }

  /** The first installation of `name`, up to the broadcast. */
  lemma Creates(threads: nat, permits: (Thread, Op, Name) -> bool, t: Thread, name: Name, id: Id) returns (s: State)
    requires t < threads && permits(t, Install, name)
    ensures ReachableBy(threads, permits, s)
    ensures s == State(map[name := id], map[id := Registry(true, 0)], None, Init(threads).pc[t := Owning(Install, name, id)])
  {
    hide ReachableBy;
    StartReachable(threads, permits);
    s := Then(threads, permits, Init(threads), Begin(t, Install, name));
    s := Then(threads, permits, s, Acquire(t));
    s := Then(threads, permits, s, Lookup(t, id));
    s := Then(threads, permits, s, Release(t));
    assert s.pc == Init(threads).pc[t := Owning(Install, name, id)];
  }

  /** The removal of the last installation: the registry is erased from the map and deleted. */
  lemma Erases(threads: nat, permits: (Thread, Op, Name) -> bool, s: State, t: Thread, name: Name, id: Id)
    returns (s': State)
    requires ReachableBy(threads, permits, s) && t < |s.pc| && s.pc[t] == Owning(Remove, name, id) && s.lock.None?
    requires id in s.heap && s.heap[id].count == 1
    ensures ReachableBy(threads, permits, s') && id in s'.heap
    ensures s'.artifacts == s.artifacts - {name} && s'.lock.None? && s'.pc == s.pc[t := Unlocking(true, name, id)]
  {
    hide ReachableBy;
    s' := Then(threads, permits, s, Work(t, true));
    s' := Then(threads, permits, s', AcquireErase(t));
    s' := Then(threads, permits, s', Erase(t));
    s' := Then(threads, permits, s', ReleaseErase(t));
    assert s'.pc == s.pc[t := Unlocking(true, name, id)];
  }

  lemma Deletes(threads: nat, permits: (Thread, Op, Name) -> bool, s: State, t: Thread, name: Name, id: Id)
    returns (s': State)
    requires ReachableBy(threads, permits, s) && t < |s.pc| && s.pc[t] == Unlocking(true, name, id) && id in s.heap
    ensures ReachableBy(threads, permits, s') && id !in s'.heap && s'.pc == s.pc[t := Idle]
  {
    hide ReachableBy;
    s' := Then(threads, permits, s, Unlock(t));
    s' := Then(threads, permits, s', Broadcast(t));
    s' := Then(threads, permits, s', Delete(t));
    assert s'.pc == s.pc[t := Idle];
  }

  /** The last installation is removed while thread `t` has not yet sent its broadcast. */
  lemma RemovedBefore(threads: nat, permits: (Thread, Op, Name) -> bool, s: State, t: Thread, u: Thread, name: Name, id: Id,
                      spare: Id) returns (s': State)
    requires ReachableBy(threads, permits, s) && permits(u, Remove, name)
    requires t < |s.pc| && t != u && s.pc[t] == Broadcasting(false, name, id)
    requires CanEnter(s, u, name, id, spare) && s.heap[id].count == 1
    ensures ReachableBy(threads, permits, s') && |s'.pc| == |s.pc| && s'.pc[t] == s.pc[t] && id !in s'.heap
  {
    hide ReachableBy;
    s' := Enters(threads, permits, s, u, Remove, name, id, spare);
    s' := Erases(threads, permits, s', u, name, id);
    s' := Deletes(threads, permits, s', u, name, id);
  }

  /** Thread `t` installs `name`, thread `u` removes it. */
  lemma LateInstaller(threads: nat, permits: (Thread, Op, Name) -> bool, t: Thread, u: Thread, name: Name, id: Id)
    returns (s: State)
    requires t < threads && u < threads && t != u && permits(t, Install, name) && permits(u, Remove, name)
    ensures ReachableBy(threads, permits, s) && |s.pc| == threads && s.pc[t] == Broadcasting(false, name, id) && id !in s.heap
  {
    hide ReachableBy;
    s := Creates(threads, permits, t, name, id);
    s := Unlocks(threads, permits, s, t, Install, name, id, 1);
    s := RemovedBefore(threads, permits, s, t, u, name, id, id + 1);
  }

  /** Thread `v` installs `name` twice; all threads are idle again. */
  lemma InstallsTwice(threads: nat, permits: (Thread, Op, Name) -> bool, v: Thread, name: Name, id: Id) returns (s: State)
    requires v < threads && permits(v, Install, name)
    ensures ReachableBy(threads, permits, s)
    ensures s == State(map[name := id], map[id := Registry(false, 2)], None, Init(threads).pc)
  {
    hide ReachableBy;
    s := Creates(threads, permits, v, name, id);
    s := Unlocks(threads, permits, s, v, Install, name, id, 1);
    s := Then(threads, permits, s, Broadcast(v));
    s := Enters(threads, permits, s, v, Install, name, id, id + 1);
    s := Unlocks(threads, permits, s, v, Install, name, id, 2);
    s := Then(threads, permits, s, Broadcast(v));
    assert s.pc == Init(threads).pc;
  }

  /** Thread `v` installs `name` twice, threads `t` and `u` remove it once each. */
  lemma LateRemover(threads: nat, permits: (Thread, Op, Name) -> bool, t: Thread, u: Thread, v: Thread, name: Name, id: Id)
    returns (s: State)
    requires t < threads && u < threads && v < threads && t != u
    requires permits(v, Install, name) && permits(t, Remove, name) && permits(u, Remove, name)
    ensures ReachableBy(threads, permits, s) && |s.pc| == threads && s.pc[t] == Broadcasting(false, name, id) && id !in s.heap
  {
    hide ReachableBy;
    s := InstallsTwice(threads, permits, v, name, id);
    s := Enters(threads, permits, s, t, Remove, name, id, id + 1);
    s := Unlocks(threads, permits, s, t, Remove, name, id, 1);
    s := RemovedBefore(threads, permits, s, t, u, name, id, id + 1);
  }

  /** Clearing `locked_` and broadcasting are two steps, so the broadcast can come when another thread has already
      deleted the registry. */
  lemma BroadcastCanBeLate() returns (s: State)
    ensures Reachable(2, s) && |s.pc| == 2 && s.pc[0] == Broadcasting(false, 7, 3) && 3 !in s.heap
  {
    s := LateInstaller(2, (t, op, name) => true, 0, 1, 7, 3);
  }

  // ------------------------------------------------------------------ exactly when a broadcast can be late

  /** The thread may do what it is doing; `Idle` and `Deleting` refer to no name. */
  ghost predicate Doing(permits: (Thread, Op, Name) -> bool, t: Thread, pc: Pc) {
    match pc
    case WantLock(op, name) => permits(t, op, name)
    case Looking(op, name) => permits(t, op, name)
    case Found(op, name, _) => permits(t, op, name)
    case Free(op, name, _) => permits(t, op, name)
    case Leaving(op, name, _) => permits(t, op, name)
    case Parked(op, name) => permits(t, op, name)
    case Owning(op, name, _) => permits(t, op, name)
    case WantErase(name, _) => permits(t, Remove, name)
    case Erasing(name, _) => permits(t, Remove, name)
    case LeavingErase(name, _) => permits(t, Remove, name)
    case Unlocking(_, name, _) => permits(t, Install, name) || permits(t, Remove, name)
    case Broadcasting(_, name, _) => permits(t, Install, name) || permits(t, Remove, name)
    case Deleting(_) => true
    case Idle => true
  }

  ghost predicate DoingInv(permits: (Thread, Op, Name) -> bool, s: State) {
    forall t :: 0 <= t < |s.pc| ==> Doing(permits, t, s.pc[t])
  }

  ghost predicate Installable(threads: nat, permits: (Thread, Op, Name) -> bool, name: Name) {
    exists v: Thread :: v < threads && permits(v, Install, name)
  }

  ghost predicate RemovableByOther(threads: nat, permits: (Thread, Op, Name) -> bool, t: Thread, name: Name) {
    exists u: Thread :: u < threads && u != t && permits(u, Remove, name)
  }

  /** What is in the map has an installer. */
  ghost predicate SourcesInv(threads: nat, permits: (Thread, Op, Name) -> bool, s: State) {
    && |s.pc| == threads
    && (forall n :: n in s.artifacts ==> Installable(threads, permits, n))
  }

  /** What a trailing broadcast refers to is still in the map, unless another thread can remove it. */
  ghost predicate TrailOf(threads: nat, permits: (Thread, Op, Name) -> bool, s: State, t: Thread, name: Name, id: Id) {
    || (name in s.artifacts && s.artifacts[name] == id)
    || (Installable(threads, permits, name) && RemovableByOther(threads, permits, t, name))
  }

  ghost predicate TrailInv(threads: nat, permits: (Thread, Op, Name) -> bool, s: State) {
    forall t :: 0 <= t < |s.pc| && Trailing(s.pc[t]) ==> TrailOf(threads, permits, s, t, s.pc[t].name, s.pc[t].id)
  }

  lemma DoingStep(permits: (Thread, Op, Name) -> bool, s: State, step: Step)
    requires DoingInv(permits, s) && Enabled(s, step) && Permitted(permits, step)
    ensures DoingInv(permits, Apply(s, step))
  {
  }

  lemma SourcesStep(threads: nat, permits: (Thread, Op, Name) -> bool, s: State, step: Step)
    requires SourcesInv(threads, permits, s) && DoingInv(permits, s) && Enabled(s, step)
    ensures SourcesInv(threads, permits, Apply(s, step))
  {
    OthersStay(s, step);
    var t := step.t;
    if step.Lookup? && s.pc[t].op == Install {
      assert Doing(permits, t, s.pc[t]) && Installable(threads, permits, s.pc[t].name);
    }
  }

  lemma TrailOfOther(threads: nat, permits: (Thread, Op, Name) -> bool, s: State, step: Step, t: Thread, name: Name, id: Id)
    requires MappedInv(s) && SourcesInv(threads, permits, s) && DoingInv(permits, s) && Enabled(s, step)
    requires TrailOf(threads, permits, s, t, name, id) && t != step.t
    ensures TrailOf(threads, permits, Apply(s, step), t, name, id)
  {
    if step.Erase? && s.pc[step.t].name == name {
      assert Doing(permits, step.t, s.pc[step.t]) && RemovableByOther(threads, permits, t, name);
      assert Mapped(s.pc[step.t]);
    }
  }

  lemma TrailStep(threads: nat, permits: (Thread, Op, Name) -> bool, s: State, step: Step)
    requires MappedInv(s) && SourcesInv(threads, permits, s) && DoingInv(permits, s) && TrailInv(threads, permits, s)
    requires Enabled(s, step)
    ensures TrailInv(threads, permits, Apply(s, step))
  {
    hide Installable, RemovableByOther, SourcesInv, DoingInv;
    var s', u := Apply(s, step), step.t;
    OthersStay(s, step);
    forall t | 0 <= t < |s'.pc| && Trailing(s'.pc[t])
      ensures TrailOf(threads, permits, s', t, s'.pc[t].name, s'.pc[t].id)
    {
      if t == u {
        assert Mapped(s.pc[t]);
      } else {
        TrailOfOther(threads, permits, s, step, t, s.pc[t].name, s.pc[t].id);
      }
    }
  }

  lemma MappedOf(s: State)
    requires Inv(s)
    ensures MapInv(s) && MappedInv(s)
  {
  }

  lemma {:induction false} TrailLeads(threads: nat, permits: (Thread, Op, Name) -> bool, s: State, steps: seq<Step>, s': State)
    requires Inv(s) && SourcesInv(threads, permits, s) && DoingInv(permits, s) && TrailInv(threads, permits, s)
    requires Leads(s, steps, s') && forall k :: 0 <= k < |steps| ==> Permitted(permits, steps[k])
    ensures Inv(s') && SourcesInv(threads, permits, s') && DoingInv(permits, s') && TrailInv(threads, permits, s')
    decreases |steps|
  {
    hide Inv, SourcesInv, DoingInv, TrailInv, Apply, Enabled, Permitted;
    if steps != [] {
      InvStep(s, steps[0]);
      SourcesStep(threads, permits, s, steps[0]);
      DoingStep(permits, s, steps[0]);
      MappedOf(s);
      TrailStep(threads, permits, s, steps[0]);
      TrailLeads(threads, permits, Apply(s, steps[0]), steps[1..], s');
    }
  }

  /** Thread `t` is about to broadcast on the condition of a registry that is deleted. */
  predicate IsLate(s: State, t: Thread) {
    t < |s.pc| && Trailing(s.pc[t]) && s.pc[t].id !in s.heap
  }

  lemma LateHasCause(threads: nat, permits: (Thread, Op, Name) -> bool, s: State, t: Thread)
    requires ReachableBy(threads, permits, s) && IsLate(s, t)
    ensures t < threads && (permits(t, Install, s.pc[t].name) || permits(t, Remove, s.pc[t].name))
    ensures Installable(threads, permits, s.pc[t].name) && RemovableByOther(threads, permits, t, s.pc[t].name)
  {
    hide Leads, Permitted;
    var steps :| Leads(Init(threads), steps, s) && forall k :: 0 <= k < |steps| ==> Permitted(permits, steps[k]);
    InitInv(threads);
    TrailLeads(threads, permits, Init(threads), steps, s);
    assert Doing(permits, t, s.pc[t]);
  }

  /** Some thread works on an artifact that can be installed and that another thread can remove. */
  ghost predicate IsShared(threads: nat, permits: (Thread, Op, Name) -> bool, t: Thread, name: Name) {
    && t < threads && (permits(t, Install, name) || permits(t, Remove, name))
    && Installable(threads, permits, name) && RemovableByOther(threads, permits, t, name)
  }

  /** A broadcast can come too late exactly when some artifact can be installed, some thread may remove it and
      another thread may install or remove it. */
  lemma LateExactlyWhenShared(threads: nat, permits: (Thread, Op, Name) -> bool)
    ensures (exists s, t: Thread :: ReachableBy(threads, permits, s) && IsLate(s, t))
       <==> (exists t: Thread, name: Name :: IsShared(threads, permits, t, name))
  {
    hide ReachableBy, Installable, RemovableByOther;
    if s, t: Thread :| ReachableBy(threads, permits, s) && IsLate(s, t) {
      LateHasCause(threads, permits, s, t);
      assert IsShared(threads, permits, t, s.pc[t].name);
    }
    if t: Thread, name: Name :| IsShared(threads, permits, t, name) {
      var s := LateRun(threads, permits, t, name);
      assert IsLate(s, t);
    }
  }

  lemma LateRun(threads: nat, permits: (Thread, Op, Name) -> bool, t: Thread, name: Name) returns (s: State)
    requires IsShared(threads, permits, t, name)
    ensures ReachableBy(threads, permits, s) && IsLate(s, t)
  {
    hide ReachableBy;
    var u: Thread :| u < threads && u != t && permits(u, Remove, name);
    if permits(t, Install, name) {
      s := LateInstaller(threads, permits, t, u, name, 0);
    } else {
      var v: Thread :| v < threads && permits(v, Install, name);
      s := LateRemover(threads, permits, t, u, v, name, 0);
    }
  }

  /** In particular, as long as nothing is removed every broadcast finds its registry. */
  lemma BroadcastsInTime(threads: nat, permits: (Thread, Op, Name) -> bool, s: State, t: Thread)
    requires ReachableBy(threads, permits, s) && forall u: Thread, name: Name :: !permits(u, Remove, name)
    ensures !IsLate(s, t)
  {
    hide ReachableBy;
    if IsLate(s, t) {
      LateHasCause(threads, permits, s, t);
    }
  }
}
