/** From a configuration to the events of its deployment. */
module EndToEnd {
  import opened Collections
  import opened ConfigLoader
  import opened Connections
  import opened DeploymentOrder
  import opened DeploymentPlan
  import opened DeploymentRuns
  import opened Directives
  import opened LoaderTables
  import opened LocalityEvents
  import opened PlanIntegrity
  import opened Scheduling
  import opened Words

  /** The component at the using end of a declared connection, or the sole one of an external connection. */
  function UsingOwner(d: Declared): string
    requires Shaped(d)
  {
    if |d.owners| == 2 && d.conn.internalEndpoint[0].provider then d.owners[1] else d.owners[0]
  }

  /** A link written '<' makes the instance it is written for the using end, '>' the peer; the ports go with them. */
  lemma LinkDirection(inst: string, peer: string, l: Link)
    requires LinkComplete(l)
    ensures var d := DeclaredLink(inst, peer, l);
            && Shaped(d)
            && UsingOwner(d) == (if l.link == '<' then inst else peer)
            && Receptacle(d.conn).portName == (if l.link == '<' then l.port else l.peerPort)
            && Provider(d.conn).portName == (if l.link == '<' then l.peerPort else l.port)
            && Receptacle(d.conn).kind == SimplexReceptacle && Provider(d.conn).kind == Facet
  {
    hide LinkName;
  }

  /** An external link written '<' uses the external reference, '>' provides to it. */
  lemma ExternalDirection(inst: string, l: ExternalLink)
    requires ExternalComplete(l)
    ensures var d := DeclaredExternal(inst, l);
            && Shaped(d) && IsExternal(d.conn) && UsingOwner(d) == inst
            && Receptacle(d.conn).portName == l.port && Receptacle(d.conn).provider == (l.link == '>')
            && d.conn.externalReference == [ExternalReference(l.location, l.externalPort, l.link == '<')]
  {
    hide ExternalName;
  }

  lemma UsingOwnerOf(plan: Plan, ds: seq<Directive>, c: nat)
    requires IsPlanOf(plan, ds) && AllAdmitted(ds) && AllOwned(ds) && c < |plan.connection|
    ensures WellFormed(plan.connection[c]) && c < |AllDeclared(ds)| && Shaped(AllDeclared(ds)[c])
    ensures var i := Receptacle(plan.connection[c]).instanceRef;
            i < |plan.instance| && IsTheComponent(ds, i, UsingOwner(AllDeclared(ds)[c]))
    ensures plan.connection[c].name == AllDeclared(ds)[c].conn.name
    ensures IsExternal(plan.connection[c]) == IsExternal(AllDeclared(ds)[c].conn)
  {
    hide IsPlanOf, AllAdmitted, AllOwned, AllDeclared, Implementations, Instances;
    PlanIsDeployable(plan, ds);
    AcceptedExactly(ds);
    DeclarationsShaped(ds);
    ConnectionsOf(plan, ds);
    var d := AllDeclared(ds)[c];
    var e := if |d.owners| == 2 && d.conn.internalEndpoint[0].provider then 1 else 0;
    EndpointsResolved(plan, ds, c, e);
  }

  lemma ConnectionsOf(plan: Plan, ds: seq<Directive>)
    requires IsPlanOf(plan, ds)
    ensures |plan.connection| == |AllDeclared(ds)|
    ensures forall c :: 0 <= c < |plan.connection| ==>
                          var conn := AllDeclared(ds)[c].conn;
                          && plan.connection[c] == conn.(internalEndpoint := plan.connection[c].internalEndpoint)
                          && |plan.connection[c].internalEndpoint| == |conn.internalEndpoint|
                          && forall e :: 0 <= e < |conn.internalEndpoint| ==>
                                           plan.connection[c].internalEndpoint[e].provider == conn.internalEndpoint[e].provider
  {
  }

  /** Every connection of an accepted configuration has one reference, and is connected once and disconnected once, both
      times on behalf of the component at its using end. */
  lemma AcceptedConnectionsAreMadeOnce(plan: Plan, ds: seq<Directive>) returns (ids: seq<nat>)
    requires IsPlanOf(plan, ds) && AllAdmitted(ds) && AllOwned(ds)
    ensures Permutation(ids, |AllDeclared(ds)|) && |plan.connection| == |AllDeclared(ds)|
    ensures AllShaped(AllDeclared(ds))
    ensures var refs := CollectedReferences(plan);
            && |refs| == |ids|
            && forall k :: 0 <= k < |ids| ==> && refs[k].name == AllDeclared(ds)[ids[k]].conn.name
                                              && refs[k].external == IsExternal(AllDeclared(ds)[ids[k]].conn)
    ensures var connects := ConnectEvents(plan, CollectedReferences(plan));
            && |connects| == |ids|
            && forall k :: 0 <= k < |ids| ==> IsMade(ConnectInstance, plan, ds, ids[k], connects[k])
    ensures var disconnects := DisconnectEvents(plan, |plan.connection|);
            && |disconnects| == |ids|
            && forall c :: 0 <= c < |ids| ==> IsMade(DisconnectInstance, plan, ds, c, disconnects[c])
  {
    hide IsPlanOf, AllAdmitted, AllOwned, AllDeclared, ConnectEvents, CollectedReferences, DisconnectEvents, Shaped, IsExternal;
    hide IsTheComponent;
    PlanIsDeployable(plan, ds);
    AcceptedExactly(ds);
    DeclarationsShaped(ds);
    ConnectionsOf(plan, ds);
    ids := ConnectedAndDisconnectedOnce(plan);
    forall c | 0 <= c < |plan.connection|
      ensures IsMade(ConnectInstance, plan, ds, c, ReceptacleEvent(ConnectInstance, plan, c))
      ensures IsMade(DisconnectInstance, plan, ds, c, ReceptacleEvent(DisconnectInstance, plan, c))
      ensures IsExternal(plan.connection[c]) == IsExternal(AllDeclared(ds)[c].conn)
    {
      UsingOwnerOf(plan, ds, c);
    }
  }

  /** Directive `i`, and no other, is the component of the name. */
  ghost predicate IsTheComponent(ds: seq<Directive>, i: nat, name: string) {
    && i < |ds| && ds[i].Component? && ds[i].name == name
    && forall j :: 0 <= j < |ds| && ds[j].Component? && ds[j].name == name ==> j == i
  }

  /** `e` is the event of declared connection `c`, with the type of the component at its using end. */
  ghost predicate IsMade(kind: Kind, plan: Plan, ds: seq<Directive>, c: nat, e: Event) {
    var declared := AllDeclared(ds);
    && c < |declared| && Shaped(declared[c])
    && e.kind == kind && e.ref == c && e.name == declared[c].conn.name
    && exists i: nat :: i < |plan.instance| && IsTheComponent(ds, i, UsingOwner(declared[c])) && e.instType == TypeOf(plan, i)
  }

  /** In a run of the plan of an accepted configuration no declared connection is connected or disconnected twice, and
      each time on behalf of the component at its using end; without failures, once. */
  lemma AcceptedRunConnects(plan: Plan, ds: seq<Directive>, fails: (nat, Event) -> bool, order: seq<Word>, kind: Kind,
                            t: seq<Event>)
    requires IsPlanOf(plan, ds) && AllAdmitted(ds) && AllOwned(ds)
    requires (kind == ConnectInstance || kind == DisconnectInstance) && IsRun(fails, plan, order, t)
    ensures forall p :: 0 <= p < |t| && t[p].kind == kind ==> IsMade(kind, plan, ds, t[p].ref, t[p])
    ensures forall c: nat :: AtMostOnce(kind, c, t)
    ensures t == Trace(fails, 0, RunPhases(plan, order)) && Succeeds(fails, 0, RunPhases(plan, order)) ==>
              forall c: nat :: c < |AllDeclared(ds)| ==> Once(kind, c, t)
  {
    hide IsPlanOf, AllAdmitted, AllOwned, AllDeclared, RunPhases, IsRun, Trace, Succeeds, Shaped, IsTheComponent, Connectable, AtMostOnce;
    PlanIsDeployable(plan, ds);
    ConnectionsOf(plan, ds);
    RunConnectsAtMostOnce(fails, plan, order, kind, t);
    forall p | 0 <= p < |t| && t[p].kind == kind
      ensures IsMade(kind, plan, ds, t[p].ref, t[p])
    {
      assert IsConnectionEvent(kind, plan, t[p].ref, t[p]);
      UsingOwnerOf(plan, ds, t[p].ref);
    }
    if t == Trace(fails, 0, RunPhases(plan, order)) && Succeeds(fails, 0, RunPhases(plan, order)) {
      forall c: nat | c < |AllDeclared(ds)|
        ensures Once(kind, c, t)
      {
        RunConnectsEach(fails, plan, order, kind, c);
      }
    }
  }

  /** Loads a configuration and, if it is accepted, deploys its plan and tears it down again. */
  method LoadAndDeploy(ds: seq<Directive>, fails: (nat, Event) -> bool, order: seq<Word>, startNow: bool)
    returns (plan: Option<Plan>, trace: seq<Event>, raised: Option<string>)
    ensures plan.Some? <==> Consistent(ds) && AllOwned(ds)
    ensures plan.Some? ==>
              && IsPlanOf(plan.value, ds)
              && trace == Trace(fails, 0, RunPhases(plan.value, order))
              && (raised.None? <==> Succeeds(fails, 0, RunPhases(plan.value, order)))
              && Raises(fails, trace, 0, raised)
  {
    hide IsPlanOf, AllAdmitted, AllOwned, Consistent, RunPhases, Raises;
    trace, raised := [], None;
    AcceptedExactly(ds);
    plan := LoadPlan(ds);
    if plan.Some? {
      PlanIsDeployable(plan.value, ds);
      trace, raised := DeployAndTearDown(fails, plan.value, order, startNow);
    }
  }
}
