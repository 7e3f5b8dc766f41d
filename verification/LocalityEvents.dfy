/** The events that the phases of a deployment consist of, in the order of dispatch:
    dancex11/locality_deployment_handler/dancex11_locality_manager_impl.cpp. */
module LocalityEvents {
  import opened Collections
  import opened DeploymentPlan
  import opened Scheduling
  import opened Words

  datatype Reference = Reference(name: string, external: bool)

  // ------------------------------------------------------------------ what a phase over the instances does

  function InstanceTypes(plan: Plan): (types: seq<Word>)
    ensures |types| == |plan.instance| && forall i :: 0 <= i < |types| ==> types[i] == TypeOf(plan, i)
  {
    seq(|plan.instance|, i requires 0 <= i < |plan.instance| => TypeOf(plan, i))
  }

  function InstanceEvents(kind: Kind, plan: Plan, t: Word, insts: seq<nat>): seq<Event>
    requires forall k :: 0 <= k < |insts| ==> insts[k] < |plan.instance|
  {
    if insts == [] then []
    else var last := |insts| - 1;
         InstanceEvents(kind, plan, t, insts[..last]) + [Event(kind, insts[last], plan.instance[insts[last]].name, t)]
  }

  lemma OneMoreInstance(kind: Kind, plan: Plan, t: Word, insts: seq<nat>, j: nat, before: seq<Event>)
    requires j < |insts| && forall k :: 0 <= k < |insts| ==> insts[k] < |plan.instance|
    ensures before + InstanceEvents(kind, plan, t, insts[..j + 1])
         == before + InstanceEvents(kind, plan, t, insts[..j]) + [Event(kind, insts[j], plan.instance[insts[j]].name, t)]
  {
    OneMore(insts, j);
  }

  /** The instances of type `t`, in plan order. */
  function InstancesOfType(plan: Plan, t: Word): seq<nat> {
    IndicesOf(InstanceTypes(plan), t, |plan.instance|)
  }

  function TypeEvents(kind: Kind, plan: Plan, t: Word): seq<Event>
  {
    IndicesListed(InstanceTypes(plan), t, |plan.instance|);
    InstanceEvents(kind, plan, t, InstancesOfType(plan, t))
  }

  /** Type by type, and within a type in plan order. */
  function PhaseEvents(kind: Kind, plan: Plan, types: seq<Word>): seq<Event>
  {
    if types == [] then []
    else PhaseEvents(kind, plan, types[..|types| - 1]) + TypeEvents(kind, plan, types[|types| - 1])
  }

  function Reversed(s: seq<Word>): (r: seq<Word>)
    ensures |r| == |s|
    ensures forall i :: 0 <= i < |s| ==> r[i] == s[|s| - 1 - i]
  {
    seq(|s|, i requires 0 <= i < |s| => s[|s| - 1 - i])
  }

  predicate AllSucceed(fails: (nat, Event) -> bool, events: seq<Event>, first: nat) {
    forall i :: 0 <= i < |events| ==> !fails(first + i, events[i])
  }

  /** What comes out of the events of `log` from position `from` on: nothing if none of them failed, otherwise what the
      first failed one was for. */
  ghost predicate Raises(fails: (nat, Event) -> bool, log: seq<Event>, from: nat, raised: Option<string>) {
    && (raised.None? <==> forall i: nat :: from <= i < |log| ==> !fails(i, log[i]))
    && (raised.Some? ==> exists i: nat :: from <= i < |log| && fails(i, log[i]) && log[i].name == raised.value
                                          && forall k: nat :: from <= k < i ==> !fails(k, log[k]))
  }

  /** Events that did not fail may come first. */
  lemma RaisesLater(fails: (nat, Event) -> bool, before: seq<Event>, log: seq<Event>, from: nat, raised: Option<string>)
    requires before <= log && from <= |before| && Raises(fails, before, from, None) && Raises(fails, log, |before|, raised)
    ensures Raises(fails, log, from, raised)
  {
    if raised.Some? {
      var i: nat :| |before| <= i < |log| && fails(i, log[i]) && log[i].name == raised.value
                    && forall k: nat :: |before| <= k < i ==> !fails(k, log[k]);
      assert forall k: nat :: from <= k < i ==> !fails(k, log[k]);
    }
  }

  /** The first exception among the results of events, called from position |before| on. */
  lemma ResultsRaise(fails: (nat, Event) -> bool, before: seq<Event>, events: seq<Event>, results: seq<EventResult>,
                     raised: Option<string>)
    requires |results| == |events|
    requires forall i :: 0 <= i < |events| ==> results[i] == EventResult(events[i].name, fails(|before| + i, events[i]))
    requires raised.None? <==> forall i :: 0 <= i < |results| ==> !results[i].failed
    requires raised.Some? ==> exists i :: 0 <= i < |results| && results[i] == EventResult(raised.value, true)
                                          && forall k :: 0 <= k < i ==> !results[k].failed
    ensures Raises(fails, before + events, |before|, raised)
    ensures raised.None? <==> AllSucceed(fails, events, |before|)
  {
    var log := before + events;
    assert forall i: nat :: |before| <= i < |log| ==> log[i] == events[i - |before|] && (fails(i, log[i]) <==> results[i - |before|].failed);
    if raised.Some? {
      var i :| 0 <= i < |results| && results[i] == EventResult(raised.value, true) && forall k :: 0 <= k < i ==> !results[k].failed;
      assert fails(|before| + i, log[|before| + i]) && log[|before| + i].name == raised.value;
    } else {
      assert forall i :: 0 <= i < |events| ==> !results[i].failed;
    }
  }

  // ------------------------------------------------------------------ what is done for the connections

  /** The events that fetch the references of the providing endpoints of one connection. */
  function EndpointEvents(plan: Plan, c: nat, n: nat): seq<Event>
    requires c < |plan.connection| && n <= |plan.connection[c].internalEndpoint|
  {
    if n == 0 then []
    else
      var ep := plan.connection[c].internalEndpoint[n - 1];
      if ep.provider then
        EndpointEvents(plan, c, n - 1)
        + [Event(EndpointReference, c, plan.connection[c].name, TypeOf(plan, ep.instanceRef))]
      else EndpointEvents(plan, c, n - 1)
  }

  function ConnectionReferences(plan: Plan, c: nat): seq<Event>
    requires c < |plan.connection|
  {
    if IsExternal(plan.connection[c]) then []
    else EndpointEvents(plan, c, |plan.connection[c].internalEndpoint|)
  }

  function ReferenceEvents(plan: Plan, n: nat): seq<Event>
    requires n <= |plan.connection|
  {
    if n == 0 then [] else ReferenceEvents(plan, n - 1) + ConnectionReferences(plan, n - 1)
  }

  function OpenReference(plan: Plan, c: nat): seq<Reference>
    requires c < |plan.connection|
  {
    if IsExternal(plan.connection[c]) then [Reference(plan.connection[c].name, true)] else []
  }

  function OpenReferences(plan: Plan, n: nat): seq<Reference>
    requires n <= |plan.connection|
  {
    if n == 0 then [] else OpenReferences(plan, n - 1) + OpenReference(plan, n - 1)
  }

  function EventReferences(events: seq<Event>): seq<Reference> {
    if events == [] then []
    else EventReferences(events[..|events| - 1]) + [Reference(events[|events| - 1].name, false)]
  }

  /** The endpoint on which a connect or disconnect is executed, if the connection is supported. */
  function ConnectingEndpoint(conn: Connection): (r: Option<nat>)
    ensures r.Some? ==> r.value < |conn.internalEndpoint|
  {
    var externals := |conn.externalReference| + |conn.externalEndpoint|;
    if |conn.internalEndpoint| == 2 then
      Some(if conn.internalEndpoint[1].provider then 0 else 1)
    else if |conn.internalEndpoint| == 1 && externals == 0 && conn.internalEndpoint[0].kind == Facet then None
    else if |conn.internalEndpoint| != 1 || externals > 1 then None
    else Some(0)
  }

  function ConnectionEvent(kind: Kind, plan: Plan, c: nat): seq<Event>
    requires c < |plan.connection|
  {
    match ConnectingEndpoint(plan.connection[c])
    case None => []
    case Some(j) =>
      [Event(kind, c, plan.connection[c].name, TypeOf(plan, plan.connection[c].internalEndpoint[j].instanceRef))]
  }

  /** The index under which a name ends up in the map from names to connections. */
  function LastNamed(plan: Plan, name: string, n: nat): (r: Option<nat>)
    requires n <= |plan.connection|
    ensures r.Some? ==> r.value < n && plan.connection[r.value].name == name
  {
    if n == 0 then None
    else if plan.connection[n - 1].name == name then Some(n - 1)
    else LastNamed(plan, name, n - 1)
  }

  function ConnectEvents(plan: Plan, refs: seq<Reference>): seq<Event>
  {
    if refs == [] then []
    else
      var c := LastNamed(plan, refs[|refs| - 1].name, |plan.connection|);
      ConnectEvents(plan, refs[..|refs| - 1])
      + (if c.Some? then ConnectionEvent(ConnectInstance, plan, c.value) else [])
  }

  function DisconnectEvents(plan: Plan, n: nat): seq<Event>
    requires n <= |plan.connection|
  {
    if n == 0 then []
    else DisconnectEvents(plan, n - 1) + ConnectionEvent(DisconnectInstance, plan, n - 1)
  }

  function CollectedReferences(plan: Plan): seq<Reference>
  {
    OpenReferences(plan, |plan.connection|) + EventReferences(ReferenceEvents(plan, |plan.connection|))
  }

  /** The results carry the names of the events, in the same order. */
  ghost predicate ResultsName(results: seq<EventResult>, events: seq<Event>) {
    |results| == |events| && forall i :: 0 <= i < |results| ==> results[i].id == events[i].name
  }

  lemma OneMoreEndpoint(plan: Plan, i: nat, e: nat, before: seq<Event>)
    requires i < |plan.connection| && e < |plan.connection[i].internalEndpoint|
    ensures var ep := plan.connection[i].internalEndpoint[e];
            var event := Event(EndpointReference, i, plan.connection[i].name, TypeOf(plan, ep.instanceRef));
            && (ep.provider ==> before + EndpointEvents(plan, i, e + 1) == before + EndpointEvents(plan, i, e) + [event])
            && (!ep.provider ==> before + EndpointEvents(plan, i, e + 1) == before + EndpointEvents(plan, i, e))
  {
  }

  lemma NextReferences(plan: Plan, i: nat)
    requires i < |plan.connection|
    ensures ReferenceEvents(plan, i + 1) == ReferenceEvents(plan, i) + ConnectionReferences(plan, i)
    ensures OpenReferences(plan, i + 1) == OpenReferences(plan, i) + OpenReference(plan, i)
  {
  }

  lemma NextDisconnect(plan: Plan, i: nat)
    requires i < |plan.connection|
    ensures DisconnectEvents(plan, i + 1) == DisconnectEvents(plan, i) + ConnectionEvent(DisconnectInstance, plan, i)
  {
  }

  // ------------------------------------------------------------------ kinds

  ghost predicate AllOfKind(kind: Kind, events: seq<Event>) {
    forall p :: 0 <= p < |events| ==> events[p].kind == kind
  }

  lemma {:induction false} EndpointKinds(plan: Plan, c: nat, n: nat)
    requires c < |plan.connection| && n <= |plan.connection[c].internalEndpoint|
    ensures AllOfKind(EndpointReference, EndpointEvents(plan, c, n))
  {
    if n > 0 {
      EndpointKinds(plan, c, n - 1);
    }
  }

  lemma {:induction false} ReferenceKinds(plan: Plan, n: nat)
    requires n <= |plan.connection|
    ensures AllOfKind(EndpointReference, ReferenceEvents(plan, n))
  {
    if n > 0 {
      ReferenceKinds(plan, n - 1);
      EndpointKinds(plan, n - 1, |plan.connection[n - 1].internalEndpoint|);
    }
  }

  lemma {:induction false} ConnectKinds(plan: Plan, refs: seq<Reference>)
    ensures AllOfKind(ConnectInstance, ConnectEvents(plan, refs))
  {
    if refs != [] {
      ConnectKinds(plan, refs[..|refs| - 1]);
    }
  }

  lemma {:induction false} DisconnectKinds(plan: Plan, n: nat)
    requires n <= |plan.connection|
    ensures AllOfKind(DisconnectInstance, DisconnectEvents(plan, n))
  {
    if n > 0 {
      DisconnectKinds(plan, n - 1);
    }
  }

  lemma {:induction false} InstanceKinds(kind: Kind, plan: Plan, t: Word, insts: seq<nat>)
    requires forall k :: 0 <= k < |insts| ==> insts[k] < |plan.instance|
    ensures AllOfKind(kind, InstanceEvents(kind, plan, t, insts))
  {
    if insts != [] {
      InstanceKinds(kind, plan, t, insts[..|insts| - 1]);
    }
  }

  lemma {:induction false} PhaseKinds(kind: Kind, plan: Plan, types: seq<Word>)
    ensures AllOfKind(kind, PhaseEvents(kind, plan, types))
  {
    if types != [] {
      var t := types[|types| - 1];
      PhaseKinds(kind, plan, types[..|types| - 1]);
      IndicesListed(InstanceTypes(plan), t, |plan.instance|);
      InstanceKinds(kind, plan, t, InstancesOfType(plan, t));
    }
  }

  /** No instance was started from position `from` on. */
  ghost predicate NothingStarted(log: seq<Event>, from: nat) {
    forall i: nat :: from <= i < |log| ==> log[i].kind != StartInstance
  }

  lemma NothingYet(log: seq<Event>)
    ensures NothingStarted(log, |log|)
  {
  }

  lemma StillNothingStarted(kind: Kind, log: seq<Event>, events: seq<Event>, from: nat)
    requires NothingStarted(log, from) && AllOfKind(kind, events) && kind != StartInstance
    ensures NothingStarted(log + events, from)
  {
    assert forall i: nat :: |log| <= i < |log + events| ==> (log + events)[i] == events[i - |log|];
  }

  // ------------------------------------------------------------------ operations as lists of phases

  /** What runs of a list of phases, the first event being the `first`-th of all: a phase is worked off
      to its end, and a phase with a failed event is the last one. */
  function Trace(fails: (nat, Event) -> bool, first: nat, phases: seq<seq<Event>>): seq<Event>
    decreases |phases|
  {
    if phases == [] then []
    else if !AllSucceed(fails, phases[0], first) then phases[0]
    else phases[0] + Trace(fails, first + |phases[0]|, phases[1..])
  }

  predicate Succeeds(fails: (nat, Event) -> bool, first: nat, phases: seq<seq<Event>>)
    decreases |phases|
  {
    phases == [] || (AllSucceed(fails, phases[0], first) && Succeeds(fails, first + |phases[0]|, phases[1..]))
  }

  function LaunchPhases(plan: Plan, order: seq<Word>): seq<seq<Event>>
  {
    [PhaseEvents(InstallInstance, plan, order), ReferenceEvents(plan, |plan.connection|)]
  }

  function FinishPhases(plan: Plan, order: seq<Word>, refs: seq<Reference>, start: bool): seq<seq<Event>>
  {
    [ConnectEvents(plan, refs), PhaseEvents(InstanceConfigured, plan, order)]
    + if start then [PhaseEvents(StartInstance, plan, order)] else []
  }

  function DestroyPhases(plan: Plan, order: seq<Word>): seq<seq<Event>>
  {
    [DisconnectEvents(plan, |plan.connection|), PhaseEvents(RemoveInstance, plan, Reversed(order))]
  }

  /** The first phase has run; what remains is the trace of the others, unless it failed. */
  lemma FirstPhase(fails: (nat, Event) -> bool, before: seq<Event>, phases: seq<seq<Event>>)
    requires phases != []
    ensures var after := before + phases[0];
            if AllSucceed(fails, phases[0], |before|)
            then && before + Trace(fails, |before|, phases) == after + Trace(fails, |after|, phases[1..])
                 && (Succeeds(fails, |before|, phases) <==> Succeeds(fails, |after|, phases[1..]))
            else before + Trace(fails, |before|, phases) == after && !Succeeds(fails, |before|, phases)
  {
    if AllSucceed(fails, phases[0], |before|) {
      var rest := Trace(fails, |before| + |phases[0]|, phases[1..]);
      assert before + (phases[0] + rest) == before + phases[0] + rest;
    }
  }
}
