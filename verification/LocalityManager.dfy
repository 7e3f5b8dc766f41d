/** Deployment of the instances of one plan in one process:
    dancex11/locality_deployment_handler/dancex11_locality_manager_impl.cpp. */
module LocalityManager {
  import opened Collections
  import opened DeploymentPlan
  import opened LocalityEvents
  import opened Scheduling
  import opened Words

  /** The table lists, behind what it held before, the indices of the first `n` types. */
  ghost predicate Added(before: map<Word, seq<nat>>, table: map<Word, seq<nat>>, types: seq<Word>, n: nat)
    requires n <= |types|
  {
    forall t :: Lookup(table, t) == Lookup(before, t) + IndicesOf(types, t, n)
  }

  lemma NothingAdded(before: map<Word, seq<nat>>, types: seq<Word>)
    ensures Added(before, before, types, 0)
  {
  }

  lemma AddedOne(before: map<Word, seq<nat>>, table: map<Word, seq<nat>>, types: seq<Word>, i: nat)
    requires i < |types| && Added(before, table, types, i)
    ensures Added(before, table[types[i] := Lookup(table, types[i]) + [i]], types, i + 1)
  {
  }

  lemma AddedMeans(before: map<Word, seq<nat>>, table: map<Word, seq<nat>>, types: seq<Word>, n: nat)
    requires n <= |types| && Added(before, table, types, n)
    ensures forall t :: Lookup(table, t) == Lookup(before, t) + IndicesOf(types, t, n)
  {
  }

  lemma AddedToNothing(before: map<Word, seq<nat>>, table: map<Word, seq<nat>>, types: seq<Word>, n: nat)
    requires n <= |types| && Added(before, table, types, n)
    ensures (forall t :: Lookup(table, t) == IndicesOf(types, t, n)) <==> (forall t :: Lookup(before, t) == [])
  {
    hide Lookup, IndicesOf;
    forall t
      ensures Lookup(table, t) == IndicesOf(types, t, n) <==> Lookup(before, t) == []
    {
      assert Lookup(before, t) == [] ==> Lookup(before, t) + IndicesOf(types, t, n) == IndicesOf(types, t, n);
      assert |Lookup(table, t)| == |Lookup(before, t)| + |IndicesOf(types, t, n)|;
    }
  }

  class LocalityManager {
    const scheduler: Scheduler
    var plan: Plan
    var instanceHandlers: map<Word, seq<nat>>
    var handlerOrder: seq<Word>

    constructor (fails: (nat, Event) -> bool)
      ensures plan == EmptyPlan && instanceHandlers == map[] && handlerOrder == []
      ensures fresh(scheduler) && scheduler.fails == fails && Idle() && scheduler.executed == []
    {
      scheduler := new Scheduler(fails);
      plan, instanceHandlers, handlerOrder := EmptyPlan, map[], [];
    }

    /** Between two phases nothing is queued. */
    ghost predicate Idle()
      reads this, scheduler
    {
      scheduler.queue == [] && forall f :: f in scheduler.values ==> f < scheduler.nextFuture
    }

    /** The handler table lists the instances of the plan by type. */
    ghost predicate Prepared()
      reads this
    {
      InRange(plan) && forall t :: Lookup(instanceHandlers, t) == InstancesOfType(plan, t)
    }

    /** A completion object that everything queued was dispatched to. */
    ghost predicate Collecting(c: Completion)
      reads this, scheduler, c
    {
      && scheduler.Serves(c) && c.completed == []
      && (forall f :: f in scheduler.values || f in c.attached ==> f < scheduler.nextFuture)
    }

    /** The instances are added to what an earlier call has left in the table. */
    method PreparePlan(p: Plan)
      requires InRange(p)
      modifies this`plan, this`instanceHandlers
      ensures plan == p
      ensures forall t :: Lookup(instanceHandlers, t) == Lookup(old(instanceHandlers), t) + InstancesOfType(p, t)
      ensures Prepared() <==> forall t :: Lookup(old(instanceHandlers), t) == []
    {
      hide Added, IndicesOf, InRange;
      plan := p;
      ghost var before, types := instanceHandlers, InstanceTypes(plan);
      NothingAdded(before, types);
      for i := 0 to |plan.instance|
        invariant plan == p && Added(before, instanceHandlers, types, i)
      {
        var instType := TypeOfInstance(i);
        ghost var table := instanceHandlers;
        if instType !in instanceHandlers {
          instanceHandlers := instanceHandlers[instType := []];
        }
        instanceHandlers := instanceHandlers[instType := instanceHandlers[instType] + [i]];
        AddedOne(before, table, types, i);
        assert instanceHandlers == table[instType := Lookup(table, instType) + [i]];
      }
      AddedMeans(before, instanceHandlers, types, |types|);
      AddedToNothing(before, instanceHandlers, types, |types|);
    }

    method TypeOfInstance(i: nat) returns (instType: Word)
      requires InRange(plan) && i < |plan.instance|
      ensures instType == InstanceTypes(plan)[i]
    {
      instType := GetInstanceType(plan.implementation[plan.instance[i].implementationRef].execParameter);
    }

    /** `completion.accept (result)` followed by `schedule_event`. */
    method Dispatch(c: Completion, event: Event)
      requires Collecting(c)
      modifies scheduler`queue, scheduler`nextFuture, c`execCount, c`completed, c`attached
      ensures Collecting(c)
      ensures Events(scheduler.queue) == old(Events(scheduler.queue)) + [event]
    {
      hide Counts, ListsOnce, Matches;
      var result := scheduler.NewFuture();
      MatchesAppend(scheduler.queue, c.attached - scheduler.values.Keys, Job(event, result));
      c.Accept(result, scheduler.values.Keys);
      assert c.attached - scheduler.values.Keys == (old(c.attached) - scheduler.values.Keys) + {result};
      AppendJob(scheduler.queue, Job(event, result));
      scheduler.ScheduleEvent(Job(event, result));
    }

    method FetchResults(completed: seq<nat>) returns (results: seq<EventResult>)
      requires forall i :: 0 <= i < |completed| ==> completed[i] in scheduler.values
      ensures |results| == |completed|
      ensures forall i :: 0 <= i < |completed| ==> results[i] == scheduler.values[completed[i]]
    {
      results := [];
      for i := 0 to |completed|
        invariant |results| == i
        invariant forall k :: 0 <= k < i ==> results[k] == scheduler.values[completed[k]]
      {
        results := results + [scheduler.values[completed[i]]];
      }
    }

    /** Waits for the dispatched events, without running into the timeout, and fetches their results. */
    method Collect(c: Completion) returns (results: seq<EventResult>)
      requires Collecting(c)
      modifies scheduler`queue, scheduler`values, scheduler`executed, c`execCount, c`completed, c`handedOut
      ensures Collecting(c) && scheduler.queue == []
      ensures scheduler.executed == old(scheduler.executed + Events(scheduler.queue))
      ensures scheduler.ResultsOf(results, old(Events(scheduler.queue)), |old(scheduler.executed)|)
    {
      hide Counts, ListsOnce, Matches, Scheduler.Ran, Scheduler.ResultsOf, Events, Futures;
      ghost var jobs, first := scheduler.queue, |scheduler.executed|;
      var ok := scheduler.WaitOnCompletion(c, |scheduler.queue|);
      var completed := c.CompletedEvents(scheduler.values.Keys);
      assert completed == Futures(jobs);
      scheduler.FuturesHaveValues(jobs, first);
      results := FetchResults(completed);
      scheduler.ResultsFromRun(jobs, first, scheduler.values, results);
    }

    /** The inner loop, over the instances of one type. */
    method DispatchList(c: Completion, kind: Kind, order: Word, instList: seq<nat>)
      requires Collecting(c) && forall k :: 0 <= k < |instList| ==> instList[k] < |plan.instance|
      modifies scheduler`queue, scheduler`nextFuture, c`execCount, c`completed, c`attached
      ensures Collecting(c)
      ensures Events(scheduler.queue) == old(Events(scheduler.queue)) + InstanceEvents(kind, plan, order, instList)
    {
      hide LocalityManager.Collecting;
      ghost var before := Events(scheduler.queue);
      for j := 0 to |instList|
        invariant Collecting(c)
        invariant Events(scheduler.queue) == before + InstanceEvents(kind, plan, order, instList[..j])
      {
        var inst := instList[j];
        OneMoreInstance(kind, plan, order, instList, j, before);
        Dispatch(c, Event(kind, inst, plan.instance[inst].name, order));
      }
      assert instList[..|instList|] == instList;
    }

    /** The loop over the types of install_instances, finishLaunch and start, or with `backward` the loop
        over the reversed types of stop and destroyApplication. */
    method DispatchInstances(c: Completion, kind: Kind, backward: bool)
      requires Collecting(c) && Prepared() && scheduler.queue == []
      modifies scheduler`queue, scheduler`nextFuture, c`execCount, c`completed, c`attached
      ensures Collecting(c)
      ensures Events(scheduler.queue)
           == PhaseEvents(kind, plan, if backward then Reversed(handlerOrder) else handlerOrder)
    {
      hide LocalityManager.Collecting;
      var types := if backward then Reversed(handlerOrder) else handlerOrder;
      for i := 0 to |types|
        invariant Collecting(c)
        invariant Events(scheduler.queue) == PhaseEvents(kind, plan, types[..i])
      {
        OneMore(types, i);
        IndicesListed(InstanceTypes(plan), types[i], |plan.instance|);
        // a type without instances has an empty list in the table
        DispatchList(c, kind, types[i], Lookup(instanceHandlers, types[i]));
      }
      assert types[..|types|] == types;
    }

    /** Whether and with what instance or connection the first exception comes out of the results. */
    method FirstException(results: seq<EventResult>) returns (raised: Option<string>)
      ensures raised.None? <==> forall i :: 0 <= i < |results| ==> !results[i].failed
      ensures raised.Some? ==> exists i :: 0 <= i < |results| && results[i] == EventResult(raised.value, true)
                                         && forall k :: 0 <= k < i ==> !results[k].failed
    {
      for i := 0 to |results|
        invariant forall k :: 0 <= k < i ==> !results[k].failed
      {
        if results[i].failed {
          return Some(results[i].id);
        }
      }
      raised := None;
    }

    method NewCompletion() returns (c: Completion)
      requires Idle()
      ensures fresh(c) && Collecting(c)
    {
      c := new Completion();
      assert c.attached - scheduler.values.Keys == {};
    }

    lemma NothingQueued(c: Completion)
      requires Collecting(c) && scheduler.queue == []
      ensures Idle()
    {
    }

    /** Waits, and looks for an exception in the results. */
    method Await(c: Completion) returns (raised: Option<string>, results: seq<EventResult>)
      requires Collecting(c)
      modifies scheduler`queue, scheduler`values, scheduler`executed, c`execCount, c`completed, c`handedOut
      ensures Collecting(c) && Idle()
      ensures scheduler.executed == old(scheduler.executed + Events(scheduler.queue))
      ensures Raises(scheduler.fails, scheduler.executed, |old(scheduler.executed)|, raised)
      ensures raised.None? <==> AllSucceed(scheduler.fails, old(Events(scheduler.queue)), |old(scheduler.executed)|)
      ensures ResultsName(results, old(Events(scheduler.queue)))
    {
      hide LocalityManager.Collecting, Raises, AllSucceed;
      ghost var before, events := scheduler.executed, Events(scheduler.queue);
      results := Collect(c);
      raised := FirstException(results);
      NothingQueued(c);
      ResultsRaise(scheduler.fails, before, events, results, raised);
    }

    /** Dispatch, wait and look at the results, on a completion object that may have served before. */
    method PhaseOn(c: Completion, kind: Kind, backward: bool) returns (raised: Option<string>)
      requires Collecting(c) && Prepared() && Idle()
      modifies scheduler`queue, scheduler`nextFuture, scheduler`values, scheduler`executed, c
      ensures Collecting(c) && Idle()
      ensures Raises(scheduler.fails, scheduler.executed, |old(scheduler.executed)|, raised)
      ensures var events := PhaseEvents(kind, plan, if backward then Reversed(handlerOrder) else handlerOrder);
              && scheduler.executed == old(scheduler.executed) + events
              && (raised.None? <==> AllSucceed(scheduler.fails, events, |old(scheduler.executed)|))
    {
      DispatchInstances(c, kind, backward);
      var results;
      raised, results := Await(c);
    }

    method RunPhase(kind: Kind, backward: bool) returns (raised: Option<string>)
      requires Idle() && Prepared()
      modifies scheduler`queue, scheduler`nextFuture, scheduler`values, scheduler`executed
      ensures Idle()
      ensures Raises(scheduler.fails, scheduler.executed, |old(scheduler.executed)|, raised)
      ensures var events := PhaseEvents(kind, plan, if backward then Reversed(handlerOrder) else handlerOrder);
              && scheduler.executed == old(scheduler.executed) + events
              && (raised.None? <==> AllSucceed(scheduler.fails, events, |old(scheduler.executed)|))
    {
      var completion := NewCompletion();
      raised := PhaseOn(completion, kind, backward);
    }

    method InstallInstances() returns (raised: Option<string>)
      requires Idle() && Prepared()
      modifies scheduler`queue, scheduler`nextFuture, scheduler`values, scheduler`executed
      ensures Idle()
      ensures Raises(scheduler.fails, scheduler.executed, |old(scheduler.executed)|, raised)
      ensures var events := PhaseEvents(InstallInstance, plan, handlerOrder);
              && scheduler.executed == old(scheduler.executed) + events
              && (raised.None? <==> AllSucceed(scheduler.fails, events, |old(scheduler.executed)|))
    {
      raised := RunPhase(InstallInstance, false);
    }

    method Start() returns (raised: Option<string>)
      requires Idle() && Prepared()
      modifies scheduler`queue, scheduler`nextFuture, scheduler`values, scheduler`executed
      ensures Idle()
      ensures Raises(scheduler.fails, scheduler.executed, |old(scheduler.executed)|, raised)
      ensures var events := PhaseEvents(StartInstance, plan, handlerOrder);
              && scheduler.executed == old(scheduler.executed) + events
              && (raised.None? <==> AllSucceed(scheduler.fails, events, |old(scheduler.executed)|))
    {
      raised := RunPhase(StartInstance, false);
    }

    method Stop() returns (raised: Option<string>)
      requires Idle() && Prepared()
      modifies scheduler`queue, scheduler`nextFuture, scheduler`values, scheduler`executed
      ensures Idle()
      ensures Raises(scheduler.fails, scheduler.executed, |old(scheduler.executed)|, raised)
      ensures var events := PhaseEvents(PassivateInstance, plan, Reversed(handlerOrder));
              && scheduler.executed == old(scheduler.executed) + events
              && (raised.None? <==> AllSucceed(scheduler.fails, events, |old(scheduler.executed)|))
    {
      raised := RunPhase(PassivateInstance, true);
    }

    // ---------------------------------------------------------------- connections

    /** The loop over the internal endpoints of one connection without external endpoints. */
    method DispatchEndpoints(c: Completion, i: nat)
      requires Collecting(c) && InRange(plan) && i < |plan.connection|
      modifies scheduler`queue, scheduler`nextFuture, c`execCount, c`completed, c`attached
      ensures Collecting(c)
      ensures Events(scheduler.queue)
           == old(Events(scheduler.queue)) + EndpointEvents(plan, i, |plan.connection[i].internalEndpoint|)
    {
      hide LocalityManager.Collecting;
      var conn := plan.connection[i];
      ghost var before := Events(scheduler.queue);
      for e := 0 to |conn.internalEndpoint|
        invariant Collecting(c)
        invariant Events(scheduler.queue) == before + EndpointEvents(plan, i, e)
      {
        OneMoreEndpoint(plan, i, e, before);
        var ep := conn.internalEndpoint[e];
        if ep.provider {
          Dispatch(c, Event(EndpointReference, i, conn.name, TypeOf(plan, ep.instanceRef)));
        }
      }
    }

    method DispatchReference(c: Completion, i: nat, provided: seq<Reference>) returns (externals: seq<Reference>)
      requires Collecting(c) && InRange(plan) && i < |plan.connection|
      modifies scheduler`queue, scheduler`nextFuture, c`execCount, c`completed, c`attached
      ensures Collecting(c)
      ensures Events(scheduler.queue) == old(Events(scheduler.queue)) + ConnectionReferences(plan, i)
      ensures externals == provided + OpenReference(plan, i)
    {
      hide LocalityManager.Collecting;
      externals := provided;
      if IsExternal(plan.connection[i]) {
        externals := externals + [Reference(plan.connection[i].name, true)];
      } else {
        DispatchEndpoints(c, i);
      }
    }

    /** The loop of collect_references over the connections. */
    method DispatchReferences(c: Completion) returns (externals: seq<Reference>)
      requires Collecting(c) && InRange(plan) && scheduler.queue == []
      modifies scheduler`queue, scheduler`nextFuture, c`execCount, c`completed, c`attached
      ensures Collecting(c)
      ensures Events(scheduler.queue) == ReferenceEvents(plan, |plan.connection|)
      ensures externals == OpenReferences(plan, |plan.connection|)
    {
      hide LocalityManager.Collecting;
      externals := [];
      for i := 0 to |plan.connection|
        invariant Collecting(c)
        invariant Events(scheduler.queue) == ReferenceEvents(plan, i)
        invariant externals == OpenReferences(plan, i)
      {
        NextReferences(plan, i);
        externals := DispatchReference(c, i, externals);
      }
    }

    method ResultReferences(results: seq<EventResult>, ghost events: seq<Event>) returns (refs: seq<Reference>)
      requires ResultsName(results, events)
      ensures refs == EventReferences(events)
    {
      refs := [];
      for i := 0 to |results|
        invariant refs == EventReferences(events[..i])
      {
        OneMore(events, i);
        refs := refs + [Reference(results[i].id, false)];
      }
      assert events[..|results|] == events;
    }

    method CollectReferences() returns (raised: Option<string>, provided: seq<Reference>)
      requires Idle() && InRange(plan)
      modifies scheduler`queue, scheduler`nextFuture, scheduler`values, scheduler`executed
      ensures Idle()
      ensures Raises(scheduler.fails, scheduler.executed, |old(scheduler.executed)|, raised)
      ensures var events := ReferenceEvents(plan, |plan.connection|);
              && scheduler.executed == old(scheduler.executed) + events
              && (raised.None? <==> AllSucceed(scheduler.fails, events, |old(scheduler.executed)|))
              && (raised.None? ==> provided == CollectedReferences(plan))
    {
      var completion := NewCompletion();
      provided := DispatchReferences(completion);
      var results;
      raised, results := Await(completion);
      if raised.None? {
        var fetched := ResultReferences(results, ReferenceEvents(plan, |plan.connection|));
        provided := provided + fetched;
      }
    }

    /** The part common to finishLaunch and disconnect_connections: finds the endpoint to work on. */
    method DispatchConnection(c: Completion, kind: Kind, i: nat)
      requires Collecting(c) && InRange(plan) && i < |plan.connection|
      modifies scheduler`queue, scheduler`nextFuture, c`execCount, c`completed, c`attached
      ensures Collecting(c)
      ensures Events(scheduler.queue) == old(Events(scheduler.queue)) + ConnectionEvent(kind, plan, i)
    {
      hide LocalityManager.Collecting;
      var j := 0;
      var conn := plan.connection[i];
      if |conn.internalEndpoint| == 2 {
        if !conn.internalEndpoint[1].provider {
          j := 1;
        }
      } else if && |conn.internalEndpoint| == 1 && |conn.externalReference| + |conn.externalEndpoint| == 0
                && conn.internalEndpoint[0].kind == Facet {
        return;
      } else if |conn.internalEndpoint| != 1 || |conn.externalReference| + |conn.externalEndpoint| > 1 {
        return;
      }
      Dispatch(c, Event(kind, i, conn.name, TypeOf(plan, conn.internalEndpoint[j].instanceRef)));
    }

    /** The name-to-index map of finishLaunch: a later connection replaces an earlier one of the same name. */
    method IndexConnections() returns (conns: map<string, nat>)
      ensures forall name :: Find(conns, name) == LastNamed(plan, name, |plan.connection|)
    {
      conns := map[];
      for i := 0 to |plan.connection|
        invariant forall name :: Find(conns, name) == LastNamed(plan, name, i)
      {
        conns := conns[plan.connection[i].name := i];
      }
    }

    method DispatchConnects(c: Completion, conns: map<string, nat>, refs: seq<Reference>)
      requires Collecting(c) && InRange(plan) && scheduler.queue == []
      requires forall name :: Find(conns, name) == LastNamed(plan, name, |plan.connection|)
      modifies scheduler`queue, scheduler`nextFuture, c`execCount, c`completed, c`attached
      ensures Collecting(c)
      ensures Events(scheduler.queue) == ConnectEvents(plan, refs)
    {
      hide LocalityManager.Collecting;
      for i := 0 to |refs|
        invariant Collecting(c)
        invariant Events(scheduler.queue) == ConnectEvents(plan, refs[..i])
      {
        OneMore(refs, i);
        var found := Find(conns, refs[i].name);
        if found.Some? {
          DispatchConnection(c, ConnectInstance, found.value);
        }
      }
      assert refs[..|refs|] == refs;
    }

    method DispatchDisconnects(c: Completion)
      requires Collecting(c) && InRange(plan) && scheduler.queue == []
      modifies scheduler`queue, scheduler`nextFuture, c`execCount, c`completed, c`attached
      ensures Collecting(c)
      ensures Events(scheduler.queue) == DisconnectEvents(plan, |plan.connection|)
    {
      hide LocalityManager.Collecting;
      for i := 0 to |plan.connection|
        invariant Collecting(c)
        invariant Events(scheduler.queue) == DisconnectEvents(plan, i)
      {
        NextDisconnect(plan, i);
        DispatchConnection(c, DisconnectInstance, i);
      }
    }

    method DisconnectConnections() returns (raised: Option<string>)
      requires Idle() && InRange(plan)
      modifies scheduler`queue, scheduler`nextFuture, scheduler`values, scheduler`executed
      ensures Idle()
      ensures Raises(scheduler.fails, scheduler.executed, |old(scheduler.executed)|, raised)
      ensures var events := DisconnectEvents(plan, |plan.connection|);
              && scheduler.executed == old(scheduler.executed) + events
              && (raised.None? <==> AllSucceed(scheduler.fails, events, |old(scheduler.executed)|))
    {
      var completion := NewCompletion();
      DispatchDisconnects(completion);
      var results;
      raised, results := Await(completion);
    }

    /** The connect part of finishLaunch, on the completion object that the configured phase reuses. */
    method ConnectOn(c: Completion, refs: seq<Reference>) returns (raised: Option<string>)
      requires Collecting(c) && InRange(plan) && Idle()
      modifies scheduler`queue, scheduler`nextFuture, scheduler`values, scheduler`executed, c
      ensures Collecting(c) && Idle()
      ensures Raises(scheduler.fails, scheduler.executed, |old(scheduler.executed)|, raised)
      ensures var events := ConnectEvents(plan, refs);
              && scheduler.executed == old(scheduler.executed) + events
              && (raised.None? <==> AllSucceed(scheduler.fails, events, |old(scheduler.executed)|))
    {
      var conns := IndexConnections();
      DispatchConnects(c, conns, refs);
      var results;
      raised, results := Await(c);
    }

    // ---------------------------------------------------------------- the operations of the application

    /** `order` is what the installation handlers were sorted into. */
    method StartLaunch(order: seq<Word>) returns (raised: Option<string>, provided: seq<Reference>)
      requires Idle() && Prepared()
      modifies this`handlerOrder, scheduler`queue, scheduler`nextFuture, scheduler`values, scheduler`executed
      ensures Idle() && Prepared() && handlerOrder == order
      ensures Raises(scheduler.fails, scheduler.executed, |old(scheduler.executed)|, raised)
      ensures var phases := LaunchPhases(plan, order);
              && scheduler.executed == old(scheduler.executed) + Trace(scheduler.fails, |old(scheduler.executed)|, phases)
              && (raised.None? <==> Succeeds(scheduler.fails, |old(scheduler.executed)|, phases))
              && (raised.None? ==> provided == CollectedReferences(plan))
    {
      hide Raises;
      handlerOrder := order;
      provided := [];
      ghost var phases, from := LaunchPhases(plan, order), |scheduler.executed|;
      FirstPhase(scheduler.fails, scheduler.executed, phases);
      raised := InstallInstances();
      if raised.None? {
        ghost var before := scheduler.executed;
        FirstPhase(scheduler.fails, before, phases[1..]);
        raised, provided := CollectReferences();
        RaisesLater(scheduler.fails, before, scheduler.executed, from, raised);
      }
    }

    method FinishLaunch(refs: seq<Reference>, start: bool) returns (raised: Option<string>)
      requires Idle() && Prepared()
      modifies scheduler`queue, scheduler`nextFuture, scheduler`values, scheduler`executed
      ensures Idle()
      ensures Raises(scheduler.fails, scheduler.executed, |old(scheduler.executed)|, raised)
      ensures !start ==> NothingStarted(scheduler.executed, |old(scheduler.executed)|)
      ensures var phases := FinishPhases(plan, handlerOrder, refs, start);
              && scheduler.executed == old(scheduler.executed) + Trace(scheduler.fails, |old(scheduler.executed)|, phases)
              && (raised.None? <==> Succeeds(scheduler.fails, |old(scheduler.executed)|, phases))
    {
      hide LocalityManager.Collecting, Raises, PhaseEvents, ConnectEvents, AllOfKind, NothingStarted;
      ghost var phases, from := FinishPhases(plan, handlerOrder, refs, start), |scheduler.executed|;
      FirstPhase(scheduler.fails, scheduler.executed, phases);
      var completion := NewCompletion();
      NothingYet(scheduler.executed);
      ConnectKinds(plan, refs);
      StillNothingStarted(ConnectInstance, scheduler.executed, ConnectEvents(plan, refs), from);
      raised := ConnectOn(completion, refs);
      if raised.None? {
        PhaseKinds(InstanceConfigured, plan, handlerOrder);
        StillNothingStarted(InstanceConfigured, scheduler.executed, PhaseEvents(InstanceConfigured, plan, handlerOrder), from);
        ghost var connected := scheduler.executed;
        FirstPhase(scheduler.fails, connected, phases[1..]);
        raised := PhaseOn(completion, InstanceConfigured, false);
        RaisesLater(scheduler.fails, connected, scheduler.executed, from, raised);
        if raised.None? && start {
          ghost var configured := scheduler.executed;
          FirstPhase(scheduler.fails, configured, phases[2..]);
          raised := Start();
          RaisesLater(scheduler.fails, configured, scheduler.executed, from, raised);
        }
      }
    }

    method DestroyApplication() returns (raised: Option<string>)
      requires Idle() && Prepared()
      modifies scheduler`queue, scheduler`nextFuture, scheduler`values, scheduler`executed
      ensures Idle()
      ensures Raises(scheduler.fails, scheduler.executed, |old(scheduler.executed)|, raised)
      ensures var phases := DestroyPhases(plan, handlerOrder);
              && scheduler.executed == old(scheduler.executed) + Trace(scheduler.fails, |old(scheduler.executed)|, phases)
              && (raised.None? <==> Succeeds(scheduler.fails, |old(scheduler.executed)|, phases))
    {
      hide Raises;
      ghost var phases, from := DestroyPhases(plan, handlerOrder), |scheduler.executed|;
      FirstPhase(scheduler.fails, scheduler.executed, phases);
      raised := DisconnectConnections();
      if raised.None? {
        ghost var before := scheduler.executed;
        FirstPhase(scheduler.fails, before, phases[1..]);
        raised := RunPhase(RemoveInstance, true);
        RaisesLater(scheduler.fails, before, scheduler.executed, from, raised);
      }
    }
  }
}
