/** The order in which a whole deployment handles the instances of a plan, given the order of their types:
    dancex11/locality_deployment_handler/dancex11_locality_manager_impl.cpp. */
module DeploymentOrder {
  import opened Collections
  import opened DependencySorter
  import opened DeploymentPlan
  import opened LocalityEvents
  import opened LocalityManager
  import opened Scheduling
  import opened Words

  // ------------------------------------------------------------------ one phase

  lemma {:induction false} InstanceEventsAt(kind: Kind, plan: Plan, t: Word, insts: seq<nat>)
    requires forall k :: 0 <= k < |insts| ==> insts[k] < |plan.instance|
    ensures var events := InstanceEvents(kind, plan, t, insts);
            && |events| == |insts|
            && forall k :: 0 <= k < |insts| ==> events[k] == Event(kind, insts[k], plan.instance[insts[k]].name, t)
  {
    if insts != [] {
      InstanceEventsAt(kind, plan, t, insts[..|insts| - 1]);
    }
  }

  ghost predicate IsEventOf(kind: Kind, plan: Plan, e: Event) {
    e.ref < |plan.instance| && e == Event(kind, e.ref, plan.instance[e.ref].name, TypeOf(plan, e.ref))
  }

  /** The type of `e` stands before that of `f`, or both have one type and keep the plan order. */
  ghost predicate Before(types: seq<Word>, e: Event, f: Event) {
    exists a, b :: 0 <= a <= b < |types| && types[a] == e.instType && types[b] == f.instType && (a == b ==> e.ref < f.ref)
  }

  ghost predicate Follows(kind: Kind, plan: Plan, types: seq<Word>, events: seq<Event>) {
    && (forall p :: 0 <= p < |events| ==> IsEventOf(kind, plan, events[p]) && events[p].instType in types)
    && (forall p, q :: 0 <= p < q < |events| ==> Before(types, events[p], events[q]))
  }

  lemma TypeEventsFollow(kind: Kind, plan: Plan, t: Word)
    ensures Follows(kind, plan, [t], TypeEvents(kind, plan, t))
  {
    var insts, events := InstancesOfType(plan, t), TypeEvents(kind, plan, t);
    IndicesListed(InstanceTypes(plan), t, |plan.instance|);
    InstanceEventsAt(kind, plan, t, insts);
    forall p, q | 0 <= p < q < |events|
      ensures Before([t], events[p], events[q])
    {
      assert [t][0] == events[p].instType == events[q].instType;
    }
  }

  lemma BeforeInLonger(types: seq<Word>, t: Word, e: Event, f: Event)
    requires Before(types, e, f)
    ensures Before(types + [t], e, f)
  {
    var a, b :| 0 <= a <= b < |types| && types[a] == e.instType && types[b] == f.instType && (a == b ==> e.ref < f.ref);
    assert (types + [t])[a] == types[a] && (types + [t])[b] == types[b];
  }

  lemma AppendPhase(kind: Kind, plan: Plan, types: seq<Word>, t: Word, events: seq<Event>, more: seq<Event>)
    requires Follows(kind, plan, types, events) && Follows(kind, plan, [t], more)
    ensures Follows(kind, plan, types + [t], events + more)
  {
    var all, n := events + more, |events|;
    forall p, q | 0 <= p < q < |all|
      ensures Before(types + [t], all[p], all[q])
    {
      if q < n {
        BeforeInLonger(types, t, all[p], all[q]);
      } else if p < n {
        var a :| 0 <= a < |types| && types[a] == all[p].instType;
        assert more[q - n].instType in [t];
        assert (types + [t])[a] == all[p].instType && (types + [t])[|types|] == all[q].instType;
      } else {
        assert Before([t], more[p - n], more[q - n]);
        assert (types + [t])[|types|] == all[p].instType == all[q].instType;
      }
    }
  }

  lemma {:induction false} PhaseFollows(kind: Kind, plan: Plan, types: seq<Word>)
    ensures Follows(kind, plan, types, PhaseEvents(kind, plan, types))
  {
    if types != [] {
      var n := |types| - 1;
      PhaseFollows(kind, plan, types[..n]);
      TypeEventsFollow(kind, plan, types[n]);
      AppendPhase(kind, plan, types[..n], types[n], PhaseEvents(kind, plan, types[..n]), TypeEvents(kind, plan, types[n]));
      assert types[..n] + [types[n]] == types;
    }
  }

  lemma {:induction false} PhaseHandles(kind: Kind, plan: Plan, types: seq<Word>, i: nat) returns (p: nat)
    requires i < |plan.instance| && TypeOf(plan, i) in types
    ensures p < |PhaseEvents(kind, plan, types)| && PhaseEvents(kind, plan, types)[p].ref == i
  {
    var n := |types| - 1;
    if TypeOf(plan, i) == types[n] {
      IndicesListed(InstanceTypes(plan), types[n], |plan.instance|);
      InstanceEventsAt(kind, plan, types[n], InstancesOfType(plan, types[n]));
      var k :| 0 <= k < |InstancesOfType(plan, types[n])| && InstancesOfType(plan, types[n])[k] == i;
      p := |PhaseEvents(kind, plan, types[..n])| + k;
    } else {
      p := PhaseHandles(kind, plan, types[..n], i);
    }
  }

  ghost predicate Once(kind: Kind, i: nat, events: seq<Event>) {
    && (exists p :: 0 <= p < |events| && events[p].kind == kind && events[p].ref == i)
    && AtMostOnce(kind, i, events)
  }

  ghost predicate AtMostOnce(kind: Kind, i: nat, events: seq<Event>) {
    forall p, q :: 0 <= p < q < |events| && events[p].kind == kind && events[p].ref == i ==>
                     events[q].kind != kind || events[q].ref != i
  }

  /** The instances of listed types are handled once each, no other ones are. */
  lemma PhaseHandlesOnce(kind: Kind, plan: Plan, types: seq<Word>, i: nat)
    requires forall a, b :: 0 <= a < b < |types| ==> types[a] != types[b]
    requires i < |plan.instance|
    ensures var events := PhaseEvents(kind, plan, types);
            && (TypeOf(plan, i) in types ==> Once(kind, i, events))
            && (TypeOf(plan, i) !in types ==> forall p :: 0 <= p < |events| ==> events[p].ref != i)
  {
    var events := PhaseEvents(kind, plan, types);
    PhaseFollows(kind, plan, types);
    if TypeOf(plan, i) in types {
      var p := PhaseHandles(kind, plan, types, i);
      forall p, q | 0 <= p < q < |events| && events[p].ref == i
        ensures events[q].ref != i
      {
        assert Before(types, events[p], events[q]);
      }
    }
  }

  ghost predicate Respects(m: Deps, kind: Kind, backward: bool, events: seq<Event>) {
    forall p, q :: 0 <= p < |events| && 0 <= q < |events| && events[p].kind == kind && events[q].kind == kind
                   && events[p].instType in m && events[q].instType in m[events[p].instType] ==>
                     if backward then p < q else q < p
  }

  ghost predicate OrderFor(m: Deps, types: seq<Word>) {
    Enumerates(types, m.Keys) && DependenciesFirst(m, types)
  }

  lemma LaterIsNoDependency(m: Deps, types: seq<Word>, a: nat, b: nat)
    requires OrderFor(m, types) && a <= b < |types|
    ensures types[b] !in m[types[a]]
  {
    assert forall d :: d in m[types[a]] ==> d in types[..a];
  }

  /** Of two events whose types are ordered by the list, the one that depends on the other is not the first. */
  lemma DependentIsLater(m: Deps, types: seq<Word>, e: Event, f: Event)
    requires OrderFor(m, types) && Before(types, e, f) && e.instType in m
    ensures f.instType !in m[e.instType]
  {
    var a, b :| 0 <= a <= b < |types| && types[a] == e.instType && types[b] == f.instType && (a == b ==> e.ref < f.ref);
    LaterIsNoDependency(m, types, a, b);
  }

  lemma DependentIsSooner(m: Deps, types: seq<Word>, e: Event, f: Event)
    requires OrderFor(m, types) && Before(Reversed(types), e, f) && f.instType in m
    ensures e.instType !in m[f.instType]
  {
    var order := Reversed(types);
    var a, b :| 0 <= a <= b < |order| && order[a] == e.instType && order[b] == f.instType && (a == b ==> e.ref < f.ref);
    LaterIsNoDependency(m, types, |types| - 1 - b, |types| - 1 - a);
  }

  lemma NotItsOwn(m: Deps, types: seq<Word>, t: Word)
    requires OrderFor(m, types) && t in m
    ensures t !in m[t]
  {
    var a :| 0 <= a < |types| && types[a] == t;
    LaterIsNoDependency(m, types, a, a);
  }

  /** In the order of the types every instance comes after the instances its type depends on, in the reverse order
      before them. */
  lemma PhaseRespects(kind: Kind, plan: Plan, m: Deps, types: seq<Word>, backward: bool)
    requires OrderFor(m, types)
    ensures Respects(m, kind, backward, PhaseEvents(kind, plan, if backward then Reversed(types) else types))
  {
    hide OrderFor, Before;
    var order := if backward then Reversed(types) else types;
    var events := PhaseEvents(kind, plan, order);
    PhaseFollows(kind, plan, order);
    forall p, q | 0 <= p < |events| && 0 <= q < |events| && events[p].instType in m && events[q].instType in m[events[p].instType]
      ensures if backward then p < q else q < p
    {
      if p == q {
        NotItsOwn(m, types, events[p].instType);
      } else if backward && q < p {
        DependentIsSooner(m, types, events[q], events[p]);
      } else if !backward && p < q {
        DependentIsLater(m, types, events[p], events[q]);
      }
    }
  }

  // ------------------------------------------------------------------ a whole run

  /** Everything from startLaunch to destroyApplication. */
  function RunPhases(plan: Plan, order: seq<Word>): (phases: seq<seq<Event>>)
    ensures |phases| == 8
  {
    [PhaseEvents(InstallInstance, plan, order),
     ReferenceEvents(plan, |plan.connection|),
     ConnectEvents(plan, CollectedReferences(plan)),
     PhaseEvents(InstanceConfigured, plan, order),
     PhaseEvents(StartInstance, plan, order),
     PhaseEvents(PassivateInstance, plan, Reversed(order)),
     DisconnectEvents(plan, |plan.connection|),
     PhaseEvents(RemoveInstance, plan, Reversed(order))]
  }

  const RUN_KINDS := [InstallInstance, EndpointReference, ConnectInstance, InstanceConfigured, StartInstance,
                      PassivateInstance, DisconnectInstance, RemoveInstance]

  predicate Backward(kind: Kind) {
    kind == PassivateInstance || kind == RemoveInstance
  }

  predicate OfInstances(kind: Kind) {
    kind == InstallInstance || kind == InstanceConfigured || kind == StartInstance || Backward(kind)
  }

  /** Phase h consists of events of kind h only. */
  ghost predicate KindByKind(phases: seq<seq<Event>>, kinds: seq<Kind>) {
    |phases| == |kinds| && forall h :: 0 <= h < |phases| ==> AllOfKind(kinds[h], phases[h])
  }

  lemma RunKinds(plan: Plan, order: seq<Word>)
    ensures KindByKind(RunPhases(plan, order), RUN_KINDS)
  {
    hide AllOfKind, PhaseEvents, ReferenceEvents, ConnectEvents, DisconnectEvents, CollectedReferences;
    PhaseKinds(InstallInstance, plan, order);
    ReferenceKinds(plan, |plan.connection|);
    ConnectKinds(plan, CollectedReferences(plan));
    PhaseKinds(InstanceConfigured, plan, order);
    PhaseKinds(StartInstance, plan, order);
    PhaseKinds(PassivateInstance, plan, Reversed(order));
    DisconnectKinds(plan, |plan.connection|);
    PhaseKinds(RemoveInstance, plan, Reversed(order));
  }

  /** Two events of one kind in a trace were dispatched in one phase, in the same order. */
  lemma {:induction false} SameKindSamePhase(fails: (nat, Event) -> bool, first: nat, phases: seq<seq<Event>>, kinds: seq<Kind>,
                                             p: nat, q: nat)
    returns (h: nat, p': nat, q': nat)
    requires KindByKind(phases, kinds) && forall a, b :: 0 <= a < b < |kinds| ==> kinds[a] != kinds[b]
    requires var t := Trace(fails, first, phases); p < q < |t| && t[p].kind == t[q].kind
    ensures h < |phases| && p' < q' < |phases[h]|
    ensures var t := Trace(fails, first, phases); phases[h][p'] == t[p] && phases[h][q'] == t[q] && kinds[h] == t[p].kind
    decreases |phases|
  {
    var n := |phases[0]|;
    if q < n {
      h, p', q' := 0, p, q;
    } else {
      var rest := Trace(fails, first + n, phases[1..]);
      var at, _ := TraceAt(fails, first + n, phases[1..], q - n);
      assert kinds[0] != kinds[at + 1];
      h, p', q' := SameKindSamePhase(fails, first + n, phases[1..], kinds[1..], p - n, q - n);
      h := h + 1;
    }
  }

  lemma {:induction false} TraceAt(fails: (nat, Event) -> bool, first: nat, phases: seq<seq<Event>>, p: nat)
    returns (h: nat, p': nat)
    requires p < |Trace(fails, first, phases)|
    ensures h < |phases| && p' < |phases[h]| && phases[h][p'] == Trace(fails, first, phases)[p]
    decreases |phases|
  {
    if p < |phases[0]| {
      h, p' := 0, p;
    } else {
      h, p' := TraceAt(fails, first + |phases[0]|, phases[1..], p - |phases[0]|);
      h := h + 1;
    }
  }

  /** If nothing fails, every dispatched event is in the trace. */
  lemma {:induction false} TraceHolds(fails: (nat, Event) -> bool, first: nat, phases: seq<seq<Event>>, h: nat, p: nat)
    returns (q: nat)
    requires Succeeds(fails, first, phases) && h < |phases| && p < |phases[h]|
    ensures q < |Trace(fails, first, phases)| && Trace(fails, first, phases)[q] == phases[h][p]
    decreases |phases|
  {
    if h == 0 {
      q := p;
    } else {
      q := TraceHolds(fails, first + |phases[0]|, phases[1..], h - 1, p);
      q := q + |phases[0]|;
    }
  }

  /** A launch that is torn down: everything up to the start of the instances until a phase fails, and then stop and
      destroyApplication, whose phases can fail as well. */
  function TornDown(fails: (nat, Event) -> bool, plan: Plan, order: seq<Word>): seq<Event> {
    var launched := Trace(fails, 0, RunPhases(plan, order)[..5]);
    launched + Trace(fails, |launched|, RunPhases(plan, order)[5..])
  }

  /** All events of a run that ends with the first failed phase, or in which a failed launch is torn down. */
  ghost predicate IsRun(fails: (nat, Event) -> bool, plan: Plan, order: seq<Word>, trace: seq<Event>) {
    trace == Trace(fails, 0, RunPhases(plan, order)) || trace == TornDown(fails, plan, order)
  }

  lemma KindsInParts(phases: seq<seq<Event>>)
    requires KindByKind(phases, RUN_KINDS)
    ensures KindByKind(phases[..5], RUN_KINDS[..5]) && KindByKind(phases[5..], RUN_KINDS[5..])
    ensures forall a, b :: 0 <= a < b < |RUN_KINDS| ==> RUN_KINDS[a] != RUN_KINDS[b]
  {
  }

  lemma InRun(fails: (nat, Event) -> bool, plan: Plan, order: seq<Word>, t: seq<Event>, p: nat) returns (h: nat, p': nat)
    requires IsRun(fails, plan, order, t) && p < |t|
    ensures var phases := RunPhases(plan, order);
            h < |phases| && p' < |phases[h]| && phases[h][p'] == t[p]
  {
    hide RunPhases, Trace;
    var phases := RunPhases(plan, order);
    RunKinds(plan, order);
    if t == Trace(fails, 0, phases) {
      h, p' := TraceAt(fails, 0, phases, p);
    } else {
      var n := |Trace(fails, 0, phases[..5])|;
      if p < n {
        h, p' := TraceAt(fails, 0, phases[..5], p);
      } else {
        h, p' := TraceAt(fails, n, phases[5..], p - n);
        h := h + 5;
      }
    }
  }

  /** Two events of one kind in a run were dispatched in one phase, in the same order. */
  lemma SameKindInRun(fails: (nat, Event) -> bool, plan: Plan, order: seq<Word>, t: seq<Event>, p: nat, q: nat)
    returns (h: nat, p': nat, q': nat)
    requires IsRun(fails, plan, order, t) && p < q < |t| && t[p].kind == t[q].kind
    ensures var phases := RunPhases(plan, order);
            && h < |phases| == |RUN_KINDS| && p' < q' < |phases[h]|
            && phases[h][p'] == t[p] && phases[h][q'] == t[q] && RUN_KINDS[h] == t[p].kind
  {
    hide RunPhases, Trace, AllOfKind;
    var phases := RunPhases(plan, order);
    RunKinds(plan, order);
    KindsInParts(phases);
    h, p', q' := 0, 0, 0;
    if t == Trace(fails, 0, phases) {
      h, p', q' := SameKindSamePhase(fails, 0, phases, RUN_KINDS, p, q);
    } else {
      var n := |Trace(fails, 0, phases[..5])|;
      if q < n {
        h, p', q' := SameKindSamePhase(fails, 0, phases[..5], RUN_KINDS[..5], p, q);
      } else if p < n {
        KindsDiffer(fails, n, phases, p, q - n);
      } else {
        h, p', q' := SameKindSamePhase(fails, n, phases[5..], RUN_KINDS[5..], p - n, q - n);
        h := h + 5;
      }
    }
  }

  lemma KindsDiffer(fails: (nat, Event) -> bool, n: nat, phases: seq<seq<Event>>, p: nat, q: nat)
    requires KindByKind(phases, RUN_KINDS)
    requires p < |Trace(fails, 0, phases[..5])| && q < |Trace(fails, n, phases[5..])|
    ensures Trace(fails, 0, phases[..5])[p].kind != Trace(fails, n, phases[5..])[q].kind
  {
    hide Trace;
    var h, p' := TraceAt(fails, 0, phases[..5], p);
    var g, q' := TraceAt(fails, n, phases[5..], q);
    assert phases[h][p'].kind == RUN_KINDS[h] && phases[g + 5][q'].kind == RUN_KINDS[g + 5];
  }

  /** Over a whole run, whatever fails in it: no instance is installed, configured or started before an instance its
      type depends on, or passivated or removed after one. */
  lemma RunRespectsDependencies(fails: (nat, Event) -> bool, plan: Plan, m: Deps, types: seq<Word>, kind: Kind,
                                trace: seq<Event>)
    requires OrderFor(m, types) && OfInstances(kind) && IsRun(fails, plan, types, trace)
    ensures Respects(m, kind, Backward(kind), trace)
  {
    hide IsRun, OrderFor;
    forall p, q | 0 <= p < |trace| && 0 <= q < |trace| && trace[p].kind == kind && trace[q].kind == kind
                  && trace[p].instType in m && trace[q].instType in m[trace[p].instType]
      ensures if Backward(kind) then p < q else q < p
    {
      DependentInRun(fails, plan, m, types, trace, p, q);
    }
  }

  lemma DependentInRun(fails: (nat, Event) -> bool, plan: Plan, m: Deps, types: seq<Word>, t: seq<Event>, p: nat, q: nat)
    requires OrderFor(m, types) && IsRun(fails, plan, types, t)
    requires && p < |t| && q < |t| && t[p].kind == t[q].kind && OfInstances(t[p].kind)
             && t[p].instType in m && t[q].instType in m[t[p].instType]
    ensures if Backward(t[p].kind) then p < q else q < p
  {
    hide OrderFor, RunPhases, PhaseEvents, Reversed, IsRun;
    var kind := t[p].kind;
    PhaseRespects(kind, plan, m, types, Backward(kind));
    if p == q {
      NotItsOwn(m, types, t[p].instType);
    } else {
      var first, second := if p < q then p else q, if p < q then q else p;
      var h, p', q' := SameKindInRun(fails, plan, types, t, first, second);
      InstancePhase(plan, types, kind, h);
      assert Respects(m, kind, Backward(kind), RunPhases(plan, types)[h]);
    }
  }

  lemma InstancePhase(plan: Plan, types: seq<Word>, kind: Kind, h: nat)
    requires h < |RUN_KINDS| && RUN_KINDS[h] == kind && OfInstances(kind)
    ensures RunPhases(plan, types)[h] == PhaseEvents(kind, plan, if Backward(kind) then Reversed(types) else types)
  {
    hide PhaseEvents, ReferenceEvents, ConnectEvents, DisconnectEvents, Reversed;
  }

  lemma PhaseInstances(plan: Plan, m: Deps, types: seq<Word>, kind: Kind, i: nat)
    requires OrderFor(m, types) && i < |plan.instance|
    ensures var events := PhaseEvents(kind, plan, if Backward(kind) then Reversed(types) else types);
            && AtMostOnce(kind, i, events)
            && (TypeOf(plan, i) in m ==> Once(kind, i, events))
            && (TypeOf(plan, i) !in m ==> forall p :: 0 <= p < |events| ==> events[p].ref != i)
  {
    var order := if Backward(kind) then Reversed(types) else types;
    forall t
      ensures t in order <==> t in m
    {
      if t in m {
        var a :| 0 <= a < |types| && types[a] == t;
        assert order[if Backward(kind) then |types| - 1 - a else a] == t;
      }
    }
    PhaseHandlesOnce(kind, plan, order, i);
  }

  /** Each phase of a run handles an instance at most once. */
  lemma RunHandlesAtMostOnce(fails: (nat, Event) -> bool, plan: Plan, m: Deps, types: seq<Word>, kind: Kind, i: nat,
                             t: seq<Event>)
    requires OrderFor(m, types) && OfInstances(kind) && i < |plan.instance| && IsRun(fails, plan, types, t)
    ensures AtMostOnce(kind, i, t)
  {
    hide RunPhases, OrderFor, IsRun;
    PhaseInstances(plan, m, types, kind, i);
    forall p, q | 0 <= p < q < |t| && t[p].kind == kind && t[p].ref == i
      ensures t[q].kind != kind || t[q].ref != i
    {
      if t[q].kind == kind {
        var h, p', q' := SameKindInRun(fails, plan, types, t, p, q);
        InstancePhase(plan, types, kind, h);
      }
    }
  }

  /** A run in which nothing fails handles each instance of a listed type exactly once in every phase; no run handles
      any other instance. */
  lemma RunHandlesListed(fails: (nat, Event) -> bool, plan: Plan, m: Deps, types: seq<Word>, kind: Kind, i: nat,
                         t: seq<Event>)
    requires OrderFor(m, types) && OfInstances(kind) && i < |plan.instance| && IsRun(fails, plan, types, t)
    ensures TypeOf(plan, i) in m && Succeeds(fails, 0, RunPhases(plan, types)) ==> Once(kind, i, t)
    ensures TypeOf(plan, i) !in m ==> forall p :: 0 <= p < |t| && t[p].kind == kind ==> t[p].ref != i
  {
    hide RunPhases, OrderFor, AtMostOnce, Trace, IsRun, Succeeds;
    var phases := RunPhases(plan, types);
    RunKinds(plan, types);
    RunHandlesAtMostOnce(fails, plan, m, types, kind, i, t);
    PhaseInstances(plan, m, types, kind, i);
    if TypeOf(plan, i) in m {
      if Succeeds(fails, 0, phases) {
        NothingToTearDown(fails, plan, types, t);
        var h := PhaseNumber(kind);
        InstancePhase(plan, types, kind, h);
        var p :| 0 <= p < |phases[h]| && phases[h][p].kind == kind && phases[h][p].ref == i;
        var q := TraceHolds(fails, 0, phases, h, p);
      }
    } else {
      forall p | 0 <= p < |t| && t[p].kind == kind
        ensures t[p].ref != i
      {
        var h, p' := InRun(fails, plan, types, t, p);
        InstancePhase(plan, types, kind, h);
      }
    }
  }

  lemma NothingToTearDown(fails: (nat, Event) -> bool, plan: Plan, order: seq<Word>, t: seq<Event>)
    requires IsRun(fails, plan, order, t) && Succeeds(fails, 0, RunPhases(plan, order))
    ensures t == Trace(fails, 0, RunPhases(plan, order))
  {
    hide RunPhases, Trace, Succeeds;
    var phases := RunPhases(plan, order);
    RunKinds(plan, order);
    assert phases == phases[..5] + phases[5..];
    TraceAppend(fails, [], phases[..5], phases[5..]);
    assert [] + Trace(fails, 0, phases[..5]) == Trace(fails, 0, phases[..5]);
  }

  function PhaseNumber(kind: Kind): (h: nat)
    ensures h < |RUN_KINDS| && RUN_KINDS[h] == kind
  {
    match kind
    case InstallInstance => 0
    case EndpointReference => 1
    case ConnectInstance => 2
    case InstanceConfigured => 3
    case StartInstance => 4
    case PassivateInstance => 5
    case DisconnectInstance => 6
    case RemoveInstance => 7
  }

  lemma {:induction false} TraceAppend(fails: (nat, Event) -> bool, before: seq<Event>, a: seq<seq<Event>>, b: seq<seq<Event>>)
    ensures var mid := before + Trace(fails, |before|, a);
            && before + Trace(fails, |before|, a + b)
            == (if Succeeds(fails, |before|, a) then mid + Trace(fails, |mid|, b) else mid)
            && (Succeeds(fails, |before|, a + b) <==> Succeeds(fails, |before|, a) && Succeeds(fails, |mid|, b))
    decreases |a|
  {
    if a == [] {
      assert a + b == b && before + Trace(fails, |before|, a) == before;
    } else {
      FirstPhase(fails, before, a);
      FirstPhase(fails, before, a + b);
      assert (a + b)[0] == a[0] && (a + b)[1..] == a[1..] + b;
      TraceAppend(fails, before + a[0], a[1..], b);
    }
  }

  lemma LaunchInParts(plan: Plan, order: seq<Word>, startNow: bool, a: seq<seq<Event>>, b: seq<seq<Event>>, c: seq<seq<Event>>)
    requires a == LaunchPhases(plan, order) && b == FinishPhases(plan, order, CollectedReferences(plan), startNow)
    requires c == if startNow then [] else [PhaseEvents(StartInstance, plan, order)]
    ensures RunPhases(plan, order)[..5] == a + (b + c)
  {
    hide PhaseEvents, ReferenceEvents, ConnectEvents, DisconnectEvents, Reversed, CollectedReferences;
  }

  /** The launch as its callers make it: startLaunch, finishLaunch, and then start, unless finishLaunch is told to start;
      `launched` if startLaunch returned. */
  method LaunchPlan(manager: LocalityManager, order: seq<Word>, startNow: bool) returns (raised: Option<string>, launched: bool)
    requires manager.Idle() && manager.Prepared() && manager.scheduler.executed == []
    modifies manager`handlerOrder, manager.scheduler
    ensures manager.Idle() && manager.Prepared() && manager.handlerOrder == order
    ensures var fails, phases := manager.scheduler.fails, RunPhases(manager.plan, order)[..5];
            && manager.scheduler.executed == Trace(fails, 0, phases)
            && (raised.None? <==> Succeeds(fails, 0, phases))
            && (launched <==> Succeeds(fails, 0, LaunchPhases(manager.plan, order)))
            && Raises(fails, manager.scheduler.executed, 0, raised)
            && (raised.None? ==> launched)
  {
    hide LaunchPhases, FinishPhases, PhaseEvents, RunPhases, Raises, CollectedReferences;
    var scheduler := manager.scheduler;
    ghost var fails, plan := scheduler.fails, manager.plan;
    ghost var a, b := LaunchPhases(plan, order), FinishPhases(plan, order, CollectedReferences(plan), startNow);
    ghost var c := if startNow then [] else [PhaseEvents(StartInstance, plan, order)];
    LaunchInParts(plan, order, startNow, a, b, c);
    TraceAppend(fails, [], a, b + c);
    var provided;
    raised, provided := manager.StartLaunch(order);
    launched := raised.None?;
    if raised.None? {
      ghost var installed := scheduler.executed;
      TraceAppend(fails, installed, b, c);
      raised := manager.FinishLaunch(provided, startNow);
      RaisesLater(fails, installed, scheduler.executed, 0, raised);
      if raised.None? {
        ghost var finished := scheduler.executed;
        NoPhase(fails, finished);
        if !startNow {
          FirstPhase(fails, finished, c);
          NoPhase(fails, finished + c[0]);
          raised := manager.Start();
          RaisesLater(fails, finished, scheduler.executed, 0, raised);
        }
      }
    }
  }

  lemma NoPhase(fails: (nat, Event) -> bool, before: seq<Event>)
    ensures before + Trace(fails, |before|, []) == before && Succeeds(fails, |before|, [])
  {
  }

  /** Stop and, if that succeeds, destroyApplication. */
  method StopAndDestroy(manager: LocalityManager) returns (raised: Option<string>)
    requires manager.Idle() && manager.Prepared()
    modifies manager.scheduler
    ensures var scheduler, phases := manager.scheduler, RunPhases(manager.plan, manager.handlerOrder)[5..];
            && var first := |old(scheduler.executed)|;
            && scheduler.executed == old(scheduler.executed) + Trace(scheduler.fails, first, phases)
            && (raised.None? <==> Succeeds(scheduler.fails, first, phases))
            && Raises(scheduler.fails, scheduler.executed, first, raised)
  {
    hide DestroyPhases, PhaseEvents, RunPhases, Raises;
    var scheduler := manager.scheduler;
    ghost var phases, from := RunPhases(manager.plan, manager.handlerOrder)[5..], |scheduler.executed|;
    TearDownInParts(manager.plan, manager.handlerOrder);
    FirstPhase(scheduler.fails, scheduler.executed, phases);
    raised := manager.Stop();
    if raised.None? {
      ghost var stopped := scheduler.executed;
      raised := manager.DestroyApplication();
      RaisesLater(scheduler.fails, stopped, scheduler.executed, from, raised);
    }
  }

  lemma TearDownInParts(plan: Plan, order: seq<Word>)
    ensures var phases := RunPhases(plan, order)[5..];
            phases[0] == PhaseEvents(PassivateInstance, plan, Reversed(order)) && phases[1..] == DestroyPhases(plan, order)
  {
    hide PhaseEvents, ReferenceEvents, ConnectEvents, DisconnectEvents, Reversed, CollectedReferences;
  }

  /** The operations as the caller of the application invokes them; the first exception ends the run, and is that of the
      first event that failed. */
  method DeployAndTearDown(fails: (nat, Event) -> bool, plan: Plan, order: seq<Word>, startNow: bool)
    returns (trace: seq<Event>, raised: Option<string>)
    requires InRange(plan)
    ensures trace == Trace(fails, 0, RunPhases(plan, order))
    ensures raised.None? <==> Succeeds(fails, 0, RunPhases(plan, order))
    ensures Raises(fails, trace, 0, raised)
  {
    hide LaunchPhases, InRange, RunPhases, Raises;
    var manager := new LocalityManager(fails);
    manager.PreparePlan(plan);
    ghost var phases := RunPhases(plan, order);
    assert phases == phases[..5] + phases[5..];
    TraceAppend(fails, [], phases[..5], phases[5..]);
    assert [] + Trace(fails, 0, phases) == Trace(fails, 0, phases);
    assert [] + Trace(fails, 0, phases[..5]) == Trace(fails, 0, phases[..5]);
    var launched;
    raised, launched := LaunchPlan(manager, order, startNow);
    if raised.None? {
      ghost var started := manager.scheduler.executed;
      raised := StopAndDestroy(manager);
      RaisesLater(fails, started, manager.scheduler.executed, 0, raised);
    }
    trace := manager.scheduler.executed;
  }

  /** A launch whose application is stopped and destroyed if finishLaunch or start fails; the first exception ends the
      launch, and the first one after that the teardown. */
  method DeployOrTearDown(fails: (nat, Event) -> bool, plan: Plan, order: seq<Word>, startNow: bool)
    returns (trace: seq<Event>, raised: Option<string>)
    requires InRange(plan)
    ensures raised.None? <==> Succeeds(fails, 0, RunPhases(plan, order)[..5])
    ensures raised.None? || !Succeeds(fails, 0, LaunchPhases(plan, order)) ==> trace == Trace(fails, 0, RunPhases(plan, order)[..5])
    ensures raised.Some? && Succeeds(fails, 0, LaunchPhases(plan, order)) ==> trace == TornDown(fails, plan, order)
    ensures Raises(fails, Trace(fails, 0, RunPhases(plan, order)[..5]), 0, raised)
  {
    hide LaunchPhases, InRange, RunPhases, TornDown, Raises;
    var manager := new LocalityManager(fails);
    manager.PreparePlan(plan);
    var launched;
    raised, launched := LaunchPlan(manager, order, startNow);
    if raised.Some? && launched {
      ghost var until := manager.scheduler.executed;
      var _ := StopAndDestroy(manager);
      TearDownIs(fails, plan, order, until, manager.scheduler.executed);
    }
    trace := manager.scheduler.executed;
  }

  lemma TearDownIs(fails: (nat, Event) -> bool, plan: Plan, order: seq<Word>, launched: seq<Event>, all: seq<Event>)
    requires |RunPhases(plan, order)| >= 5 && launched == Trace(fails, 0, RunPhases(plan, order)[..5])
    requires all == launched + Trace(fails, |launched|, RunPhases(plan, order)[5..])
    ensures all == TornDown(fails, plan, order)
  {
  }

  // ------------------------------------------------------------------ with the sorter's order

  /** The order of the sorter's loop serves a deployment exactly when the map and the order of its keys
      have a schedule; the commented test would then have given the same order. */
  lemma WrittenOrderServes(m: Deps, keys: seq<Word>)
    requires Enumerates(keys, m.Keys)
    ensures var w, c := OrderOf(AsWritten, m, keys), OrderOf(AsCommented, m, keys);
            && (c.Order? ==> OrderFor(m, c.names))
            && (w.Order? && OrderFor(m, w.names) <==> exists names :: Schedule(m, keys, names))
            && (forall names :: Schedule(m, keys, names) ==> w == c == Order(names))
  {
    hide OrderOf, Schedule, DependenciesFirst;
    CommentedSorterIsCorrect(m, keys);
    WrittenSorterCounts(m, keys);
    WrittenIsRightExactlyWhenItAgrees(m, keys);
    WrittenIsRightExactlyWhenScheduled(m, keys);
  }

  lemma NotBefore(types: seq<Word>, x: nat, y: nat, e: Event, f: Event)
    requires forall a, b :: 0 <= a < b < |types| ==> types[a] != types[b]
    requires x < y < |types| && e.instType == types[x] && f.instType == types[y]
    ensures !Before(types, f, e)
  {
  }

  /** Events are placed as their types are. */
  lemma PlacedByType(kind: Kind, plan: Plan, types: seq<Word>, x: nat, y: nat, i: nat, j: nat) returns (p: nat, q: nat)
    requires forall a, b :: 0 <= a < b < |types| ==> types[a] != types[b]
    requires x < y < |types| && i < |plan.instance| && j < |plan.instance|
    requires types[x] == TypeOf(plan, i) && types[y] == TypeOf(plan, j)
    ensures var events := PhaseEvents(kind, plan, types);
            p < q < |events| && events[p].instType == types[x] && events[q].instType == types[y]
  {
    p := PhaseHandles(kind, plan, types, i);
    q := PhaseHandles(kind, plan, types, j);
    PhaseFollows(kind, plan, types);
    NotBefore(types, x, y, PhaseEvents(kind, plan, types)[p], PhaseEvents(kind, plan, types)[q]);
  }

  /** Where they differ, an instance can be installed before the one it depends on. */
  lemma InstalledTooEarly() returns (plan: Plan, m: Deps, keys: seq<Word>, p: nat, q: nat)
    ensures Enumerates(keys, m.Keys) && InRange(plan) && OrderOf(AsWritten, m, keys).Order?
    ensures var events := PhaseEvents(InstallInstance, plan, OrderOf(AsWritten, m, keys).names);
            && p < q < |events|
            && events[p].instType in m && events[q].instType in m[events[p].instType]
  {
    hide PhaseEvents, OrderOf, InRange, TypeOf;
    m := map[CcmHome := {CcmContainer}, CcmComponent := {}, CcmContainer := {}];
    keys := [CcmHome, CcmComponent, CcmContainer];
    ThreeSubjects(CcmHome, CcmComponent, CcmContainer, m);
    plan := HomeAndContainer();
    p, q := PlacedByType(InstallInstance, plan, [CcmComponent, CcmHome, CcmContainer], 1, 2, 0, 1);
  }

  lemma HomeAndContainer() returns (plan: Plan)
    ensures InRange(plan) && |plan.instance| == 2 && TypeOf(plan, 0) == CcmHome && TypeOf(plan, 1) == CcmContainer
  {
    plan := EmptyPlan.(
      implementation := [Implementation(Text("i"), [Property(ImplementationType, CcmHome)], []),
                         Implementation(Text("j"), [Property(ImplementationType, CcmContainer)], [])],
      instance := [Instance("x", "n", 0, []), Instance("y", "n", 1, [])]);
  }
}
