/** Whole deployments, phase after phase, also for connections:
    dancex11/locality_deployment_handler/dancex11_locality_manager_impl.cpp. */
module DeploymentRuns {
  import opened Collections
  import opened Connections
  import opened DependencySorter
  import opened DeploymentOrder
  import opened DeploymentPlan
  import opened LocalityEvents
  import opened Scheduling
  import opened Words

  // ------------------------------------------------------------------ the order of the phases

  /** Which phases two events of a trace belong to; a failure of the first keeps the second in its phase. */
  lemma {:induction false} PhasesOfTwo(fails: (nat, Event) -> bool, first: nat, phases: seq<seq<Event>>, p: nat, q: nat)
    returns (g: nat, h: nat, p': nat, q': nat)
    requires p < q < |Trace(fails, first, phases)|
    ensures g <= h < |phases| && p' < |phases[g]| && q' < |phases[h]|
    ensures phases[g][p'] == Trace(fails, first, phases)[p] && phases[h][q'] == Trace(fails, first, phases)[q]
    ensures fails(first + p, Trace(fails, first, phases)[p]) ==> g == h
    decreases |phases|
  {
    var n := |phases[0]|;
    if q < n {
      g, h, p', q' := 0, 0, p, q;
    } else if p < n {
      assert AllSucceed(fails, phases[0], first);
      h, q' := TraceAt(fails, first + n, phases[1..], q - n);
      g, h, p' := 0, h + 1, p;
    } else {
      g, h, p', q' := PhasesOfTwo(fails, first + n, phases[1..], p - n, q - n);
      g, h := g + 1, h + 1;
    }
  }

  /** A trace is in the order of the phases: installation, references, connections, configuration, start, passivation,
      disconnection, removal; and after an event that failed there are only events of its phase. */
  lemma RunInPhaseOrder(fails: (nat, Event) -> bool, plan: Plan, order: seq<Word>, p: nat, q: nat)
    requires p < q < |Trace(fails, 0, RunPhases(plan, order))|
    ensures var t := Trace(fails, 0, RunPhases(plan, order));
            && PhaseNumber(t[p].kind) <= PhaseNumber(t[q].kind)
            && (fails(p, t[p]) ==> t[p].kind == t[q].kind)
  {
    hide RunPhases, Trace;
    RunKinds(plan, order);
    var g, h, p', q' := PhasesOfTwo(fails, 0, RunPhases(plan, order), p, q);
    NumberOfKind(g);
    NumberOfKind(h);
  }

  lemma NumberOfKind(h: nat)
    requires h < |RUN_KINDS|
    ensures PhaseNumber(RUN_KINDS[h]) == h
  {
  }

  /** A phase before one that has begun has been worked off. */
  lemma {:induction false} EarlierPhaseDone(fails: (nat, Event) -> bool, first: nat, phases: seq<seq<Event>>, kinds: seq<Kind>,
                                            q: nat, h: nat, p: nat) returns (at: nat)
    requires KindByKind(phases, kinds) && forall a, b :: 0 <= a < b < |kinds| ==> kinds[a] != kinds[b]
    requires q < |Trace(fails, first, phases)| && h < |phases| && p < |phases[h]|
    requires exists g :: h <= g < |phases| && kinds[g] == Trace(fails, first, phases)[q].kind
    ensures at < |Trace(fails, first, phases)| && Trace(fails, first, phases)[at] == phases[h][p]
    decreases |phases|
  {
    var n := |phases[0]|;
    at := p;
    if h > 0 {
      var g :| h <= g < |phases| && kinds[g] == Trace(fails, first, phases)[q].kind;
      assert kinds[0] != kinds[g] && kinds[1..][g - 1] == kinds[g];
      at := EarlierPhaseDone(fails, first + n, phases[1..], kinds[1..], q - n, h - 1, p);
      at := at + n;
    }
  }

  /** As soon as a run has come to a phase, every event of this phase and those before it is in it. */
  lemma BegunIsDone(fails: (nat, Event) -> bool, plan: Plan, order: seq<Word>, q: nat, h: nat, p: nat) returns (at: nat)
    requires q < |Trace(fails, 0, RunPhases(plan, order))| && h < 8 && p < |RunPhases(plan, order)[h]|
    requires h <= PhaseNumber(Trace(fails, 0, RunPhases(plan, order))[q].kind)
    ensures var t := Trace(fails, 0, RunPhases(plan, order)); at < |t| && t[at] == RunPhases(plan, order)[h][p]
  {
    hide RunPhases, Trace, AllOfKind;
    var t := Trace(fails, 0, RunPhases(plan, order));
    RunKinds(plan, order);
    assert RUN_KINDS[PhaseNumber(t[q].kind)] == t[q].kind;
    at := EarlierPhaseDone(fails, 0, RunPhases(plan, order), RUN_KINDS, q, h, p);
  }

  /** When a run has come to a phase, each instance of a listed type has been handled once in it and in all before it,
      or will be before anything else. */
  lemma RunHandlesBegun(fails: (nat, Event) -> bool, plan: Plan, m: Deps, types: seq<Word>, kind: Kind, i: nat, q: nat)
    requires OrderFor(m, types) && OfInstances(kind) && i < |plan.instance| && TypeOf(plan, i) in m
    requires q < |Trace(fails, 0, RunPhases(plan, types))|
    requires PhaseNumber(kind) <= PhaseNumber(Trace(fails, 0, RunPhases(plan, types))[q].kind)
    ensures Once(kind, i, Trace(fails, 0, RunPhases(plan, types)))
  {
    hide RunPhases, OrderFor, AtMostOnce, Trace;
    var h, phases: seq<seq<Event>> := PhaseNumber(kind), RunPhases(plan, types);
    PhaseInstances(plan, m, types, kind, i);
    InstancePhase(plan, types, kind, h);
    var p :| 0 <= p < |phases[h]| && phases[h][p].kind == kind && phases[h][p].ref == i;
    var at := BegunIsDone(fails, plan, types, q, h, p);
    RunHandlesAtMostOnce(fails, plan, m, types, kind, i, Trace(fails, 0, phases));
  }

  // ------------------------------------------------------------------ connections

  predicate OfConnections(kind: Kind) {
    kind == EndpointReference || kind == ConnectInstance || kind == DisconnectInstance
  }

  /** What is done for connection `c`: its reference is fetched at the providing end, unless it is external; it is
      connected and disconnected at the receptacle. */
  predicate IsConnectionEvent(kind: Kind, plan: Plan, c: nat, e: Event) {
    && c < |plan.connection| && WellFormed(plan.connection[c])
    && if kind == EndpointReference then !IsExternal(plan.connection[c]) && e == ProviderEvent(plan, c)
       else e == ReceptacleEvent(kind, plan, c)
  }

  /** Every event is that of a connection, no connection has two, and every connection has one; but external ones no
      reference to fetch. */
  ghost predicate ConnectsEach(kind: Kind, plan: Plan, events: seq<Event>) {
    && (forall p :: 0 <= p < |events| ==> IsConnectionEvent(kind, plan, events[p].ref, events[p]))
    && (forall p, q :: 0 <= p < q < |events| ==> events[p].ref != events[q].ref)
    && (forall c: nat :: c < |plan.connection| && (kind == EndpointReference ==> !IsExternal(plan.connection[c])) ==>
                           HasRef(events, c))
  }

  ghost predicate HasRef(events: seq<Event>, c: nat) {
    exists p :: 0 <= p < |events| && events[p].ref == c
  }

  lemma ReferencesEach(plan: Plan)
    requires Connectable(plan)
    ensures ConnectsEach(EndpointReference, plan, ReferenceEvents(plan, |plan.connection|))
  {
    hide ReferenceEvents, TypeOf, IndicesOf, Provider, IsExternal;
    var n, s, events := |plan.connection|, Externals(plan), ReferenceEvents(plan, |plan.connection|);
    var ids := IndicesOf(s, false, n);
    ReferencesAt(plan, n);
    IndicesListed(s, false, n);
    forall c: nat | c < n && !IsExternal(plan.connection[c])
      ensures HasRef(events, c)
    {
      assert s[c] == false && c in ids;
      var p :| 0 <= p < |ids| && ids[p] == c;
      assert events[p].ref == c;
    }
  }

  lemma ConnectsAndDisconnectsEach(plan: Plan)
    requires Connectable(plan)
    ensures ConnectsEach(ConnectInstance, plan, ConnectEvents(plan, CollectedReferences(plan)))
    ensures ConnectsEach(DisconnectInstance, plan, DisconnectEvents(plan, |plan.connection|))
  {
    hide ConnectEvents, CollectedReferences, DisconnectEvents, TypeOf, Receptacle;
    var ids := ConnectedAndDisconnectedOnce(plan);
    var connects, disconnects := ConnectEvents(plan, CollectedReferences(plan)), DisconnectEvents(plan, |plan.connection|);
    forall c: nat | c < |plan.connection|
      ensures HasRef(connects, c) && HasRef(disconnects, c)
    {
      assert c in ids;
      var p :| 0 <= p < |ids| && ids[p] == c;
      assert connects[p].ref == c && disconnects[c].ref == c;
    }
  }

  lemma ConnectionPhase(plan: Plan, order: seq<Word>, kind: Kind)
    requires Connectable(plan) && OfConnections(kind)
    ensures ConnectsEach(kind, plan, RunPhases(plan, order)[PhaseNumber(kind)])
  {
    hide PhaseEvents, ReferenceEvents, ConnectEvents, DisconnectEvents, CollectedReferences, ConnectsEach, Reversed;
    ReferencesEach(plan);
    ConnectsAndDisconnectsEach(plan);
  }

  /** In a run, with whatever failures, also one in which a failed launch is torn down, no connection is handled twice by
      one kind of event, each event is at the right end, and no other event is of these kinds. */
  lemma RunConnectsAtMostOnce(fails: (nat, Event) -> bool, plan: Plan, order: seq<Word>, kind: Kind, t: seq<Event>)
    requires Connectable(plan) && OfConnections(kind) && IsRun(fails, plan, order, t)
    ensures forall c: nat :: AtMostOnce(kind, c, t)
    ensures forall p :: 0 <= p < |t| && t[p].kind == kind ==> IsConnectionEvent(kind, plan, t[p].ref, t[p])
  {
    hide RunPhases, IsRun, IsConnectionEvent;
    ConnectionPhase(plan, order, kind);
    RunKinds(plan, order);
    forall p, q | 0 <= p < q < |t| && t[p].kind == kind && t[q].kind == kind
      ensures t[p].ref != t[q].ref
    {
      var h, p', q' := SameKindInRun(fails, plan, order, t, p, q);
      NumberOfKind(h);
    }
    forall p | 0 <= p < |t| && t[p].kind == kind
      ensures IsConnectionEvent(kind, plan, t[p].ref, t[p])
    {
      var h, p' := InRun(fails, plan, order, t, p);
      NumberOfKind(h);
    }
  }

  /** When a run has come to a phase, each connection has been handled once in it and in all before it, or will be before
      anything else. */
  lemma RunConnectsBegun(fails: (nat, Event) -> bool, plan: Plan, order: seq<Word>, kind: Kind, c: nat, q: nat)
    requires Connectable(plan) && OfConnections(kind) && c < |plan.connection|
    requires kind == EndpointReference ==> !IsExternal(plan.connection[c])
    requires q < |Trace(fails, 0, RunPhases(plan, order))|
    requires PhaseNumber(kind) <= PhaseNumber(Trace(fails, 0, RunPhases(plan, order))[q].kind)
    ensures Once(kind, c, Trace(fails, 0, RunPhases(plan, order)))
  {
    hide RunPhases, IsConnectionEvent, Trace;
    var h, phases: seq<seq<Event>> := PhaseNumber(kind), RunPhases(plan, order);
    ConnectionPhase(plan, order, kind);
    RunKinds(plan, order);
    assert HasRef(phases[h], c);
    var p :| 0 <= p < |phases[h]| && phases[h][p].ref == c;
    var at := BegunIsDone(fails, plan, order, q, h, p);
    RunConnectsAtMostOnce(fails, plan, order, kind, Trace(fails, 0, phases));
  }

  /** A run without failures handles each connection once. */
  lemma RunConnectsEach(fails: (nat, Event) -> bool, plan: Plan, order: seq<Word>, kind: Kind, c: nat)
    requires Connectable(plan) && OfConnections(kind) && c < |plan.connection|
    requires kind == EndpointReference ==> !IsExternal(plan.connection[c])
    requires Succeeds(fails, 0, RunPhases(plan, order))
    ensures Once(kind, c, Trace(fails, 0, RunPhases(plan, order)))
  {
    hide RunPhases, IsConnectionEvent, Trace, Succeeds;
    var h, phases: seq<seq<Event>> := PhaseNumber(kind), RunPhases(plan, order);
    ConnectionPhase(plan, order, kind);
    RunKinds(plan, order);
    assert HasRef(phases[h], c);
    var p :| 0 <= p < |phases[h]| && phases[h][p].ref == c;
    var at := TraceHolds(fails, 0, phases, h, p);
    RunConnectsAtMostOnce(fails, plan, order, kind, Trace(fails, 0, phases));
  }
}
