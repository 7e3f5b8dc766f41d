/** The connections of a plan from the collection of their references to their removal:
    dancex11/locality_deployment_handler/dancex11_locality_manager_impl.cpp. */
module Connections {
  import opened Collections
  import opened DeploymentPlan
  import opened LocalityEvents
  import opened Scheduling
  import opened Words

  /** What the loader guarantees of the connections of a plan. */
  ghost predicate Connectable(plan: Plan) {
    && (forall c :: 0 <= c < |plan.connection| ==> WellFormed(plan.connection[c]))
    && (forall c, d :: 0 <= c < d < |plan.connection| ==> plan.connection[c].name != plan.connection[d].name)
  }

  /** The receptacle of an internal connection, the sole internal endpoint of an external one. */
  function Receptacle(conn: Connection): Endpoint
    requires WellFormed(conn)
  {
    if |conn.internalEndpoint| == 2 && conn.internalEndpoint[0].provider then conn.internalEndpoint[1]
    else conn.internalEndpoint[0]
  }

  function Provider(conn: Connection): Endpoint
    requires WellFormed(conn) && !IsExternal(conn)
  {
    if conn.internalEndpoint[0].provider then conn.internalEndpoint[0] else conn.internalEndpoint[1]
  }

  /** The event of connection `c` at its receptacle. */
  function ReceptacleEvent(kind: Kind, plan: Plan, c: nat): Event
    requires c < |plan.connection| && WellFormed(plan.connection[c])
  {
    Event(kind, c, plan.connection[c].name, TypeOf(plan, Receptacle(plan.connection[c]).instanceRef))
  }

  lemma OneEventEach(kind: Kind, plan: Plan, c: nat)
    requires c < |plan.connection| && WellFormed(plan.connection[c])
    ensures ConnectionEvent(kind, plan, c) == [ReceptacleEvent(kind, plan, c)]
    ensures var conn := plan.connection[c];
            && (!IsExternal(conn) ==> !Receptacle(conn).provider && Provider(conn).provider)
            && (!IsExternal(conn) ==>
                  ConnectionReferences(plan, c)
                  == [Event(EndpointReference, c, conn.name, TypeOf(plan, Provider(conn).instanceRef))])
  {
    var conn := plan.connection[c];
    if !IsExternal(conn) {
      assert EndpointEvents(plan, c, 0) == [];
      assert |EndpointEvents(plan, c, 1)| <= 1;
    }
  }

  /** Which connections nothing is connected for, and at which end the others are: a lone facet without anything
      external, more than two internal or external ends in all, and none at all are not supported. */
  lemma SupportedShapes(kind: Kind, plan: Plan, c: nat)
    requires c < |plan.connection|
    ensures var conn := plan.connection[c];
            var externals := |conn.externalReference| + |conn.externalEndpoint|;
            && (|conn.internalEndpoint| == 0 || |conn.internalEndpoint| > 2 ==> ConnectionEvent(kind, plan, c) == [])
            && (|conn.internalEndpoint| == 1 ==>
                  ConnectionEvent(kind, plan, c)
                  == if externals > 1 || (externals == 0 && conn.internalEndpoint[0].kind == Facet) then []
                     else [Event(kind, c, conn.name, TypeOf(plan, conn.internalEndpoint[0].instanceRef))])
            && (|conn.internalEndpoint| == 2 ==>
                  ConnectionEvent(kind, plan, c)
                  == [Event(kind, c, conn.name,
                            TypeOf(plan, conn.internalEndpoint[if conn.internalEndpoint[1].provider then 0 else 1].instanceRef))])
  {
  }

  // ------------------------------------------------------------------ one reference per connection

  function Externals(plan: Plan): (r: seq<bool>)
    ensures |r| == |plan.connection| && forall c :: 0 <= c < |r| ==> r[c] == IsExternal(plan.connection[c])
  {
    seq(|plan.connection|, c requires 0 <= c < |plan.connection| => IsExternal(plan.connection[c]))
  }

  lemma {:induction false} OpenAt(plan: Plan, n: nat)
    requires n <= |plan.connection|
    ensures var ids := IndicesOf(Externals(plan), true, n);
            && |OpenReferences(plan, n)| == |ids|
            && forall k :: 0 <= k < |ids| ==> && ids[k] < n
                                              && OpenReferences(plan, n)[k] == Reference(plan.connection[ids[k]].name, true)
  {
    if n > 0 {
      OpenAt(plan, n - 1);
    }
  }

  /** The event that fetches the reference of an internal connection, at its providing end. */
  function ProviderEvent(plan: Plan, c: nat): Event
    requires c < |plan.connection| && WellFormed(plan.connection[c]) && !IsExternal(plan.connection[c])
  {
    Event(EndpointReference, c, plan.connection[c].name, TypeOf(plan, Provider(plan.connection[c]).instanceRef))
  }

  lemma {:induction false} ReferencesAt(plan: Plan, n: nat)
    requires Connectable(plan) && n <= |plan.connection|
    ensures var ids := IndicesOf(Externals(plan), false, n);
            && |ReferenceEvents(plan, n)| == |ids|
            && forall k :: 0 <= k < |ids| ==> && ids[k] < n && !IsExternal(plan.connection[ids[k]])
                                              && ReferenceEvents(plan, n)[k] == ProviderEvent(plan, ids[k])
  {
    hide TypeOf, EndpointEvents;
    if n > 0 {
      ReferencesAt(plan, n - 1);
      OneEventEach(EndpointReference, plan, n - 1);
    }
  }

  lemma {:induction false} FetchedAt(events: seq<Event>)
    ensures |EventReferences(events)| == |events|
    ensures forall k :: 0 <= k < |events| ==> EventReferences(events)[k] == Reference(events[k].name, false)
  {
    if events != [] {
      FetchedAt(events[..|events| - 1]);
    }
  }

  /** `ids` holds every number below `n` exactly once. */
  ghost predicate Permutation(ids: seq<nat>, n: nat) {
    && |ids| == n
    && (forall k :: 0 <= k < |ids| ==> ids[k] < n)
    && (forall k, l :: 0 <= k < l < |ids| ==> ids[k] != ids[l])
    && (forall c: nat :: c < n ==> c in ids)
  }

  lemma {:induction false} IndexCounts(s: seq<bool>, n: nat)
    requires n <= |s|
    ensures |IndicesOf(s, true, n)| + |IndicesOf(s, false, n)| == n
  {
    if n > 0 {
      IndexCounts(s, n - 1);
      assert s[n - 1] == true || s[n - 1] == false;
    }
  }

  lemma BothIndices(s: seq<bool>)
    ensures Permutation(IndicesOf(s, true, |s|) + IndicesOf(s, false, |s|), |s|)
  {
    var t, f := IndicesOf(s, true, |s|), IndicesOf(s, false, |s|);
    IndicesListed(s, true, |s|);
    IndicesListed(s, false, |s|);
    IndexCounts(s, |s|);
    forall c: nat | c < |s|
      ensures c in t + f
    {
      assert if s[c] then c in t else c in f;
    }
    forall k, l | 0 <= k < l < |t + f|
      ensures (t + f)[k] != (t + f)[l]
    {
      if l < |t| {
        assert t[k] < t[l];
      } else if k >= |t| {
        assert f[k - |t|] < f[l - |t|];
      } else {
        assert s[t[k]] && !s[f[l - |t|]];
      }
    }
  }

  /** The collected references are those of all connections, one for each. */
  lemma OneReferenceEach(plan: Plan) returns (ids: seq<nat>)
    requires Connectable(plan)
    ensures Permutation(ids, |plan.connection|)
    ensures var refs := CollectedReferences(plan);
            && |refs| == |ids|
            && forall k :: 0 <= k < |ids| ==> && refs[k].name == plan.connection[ids[k]].name
                                              && refs[k].external == IsExternal(plan.connection[ids[k]])
    // those of external connections come first, and otherwise they are in the order of the plan
    ensures forall k, l :: 0 <= k < l < |ids| ==>
                             var first, second := IsExternal(plan.connection[ids[k]]), IsExternal(plan.connection[ids[l]]);
                             (second ==> first) && (first == second ==> ids[k] < ids[l])
  {
    hide TypeOf, ReferenceEvents, OpenReferences, EventReferences, IndicesOf, Provider, IsExternal;
    var n, s := |plan.connection|, Externals(plan);
    ids := IndicesOf(s, true, n) + IndicesOf(s, false, n);
    BothIndices(s);
    OpenAt(plan, n);
    ReferencesAt(plan, n);
    FetchedAt(ReferenceEvents(plan, n));
    IndicesListed(s, true, n);
    IndicesListed(s, false, n);
  }

  // ------------------------------------------------------------------ one connect and one disconnect each

  lemma {:induction false} NamedOnce(plan: Plan, c: nat, n: nat)
    requires Connectable(plan) && c < n <= |plan.connection|
    ensures LastNamed(plan, plan.connection[c].name, n) == Some(c)
  {
    if c != n - 1 {
      NamedOnce(plan, c, n - 1);
    }
  }

  lemma {:induction false} ConnectsAt(plan: Plan, refs: seq<Reference>, ids: seq<nat>)
    requires Connectable(plan) && |refs| == |ids|
    requires forall k :: 0 <= k < |ids| ==> ids[k] < |plan.connection| && refs[k].name == plan.connection[ids[k]].name
    ensures var events := ConnectEvents(plan, refs);
            && |events| == |ids|
            && forall k :: 0 <= k < |ids| ==> events[k] == ReceptacleEvent(ConnectInstance, plan, ids[k])
  {
    if refs != [] {
      var last := |refs| - 1;
      ConnectsAt(plan, refs[..last], ids[..last]);
      NamedOnce(plan, ids[last], |plan.connection|);
      OneEventEach(ConnectInstance, plan, ids[last]);
    }
  }

  lemma {:induction false} DisconnectsAt(plan: Plan, n: nat)
    requires Connectable(plan) && n <= |plan.connection|
    ensures var events := DisconnectEvents(plan, n);
            && |events| == n
            && forall c :: 0 <= c < n ==> events[c] == ReceptacleEvent(DisconnectInstance, plan, c)
  {
    if n > 0 {
      DisconnectsAt(plan, n - 1);
      OneEventEach(DisconnectInstance, plan, n - 1);
    }
  }

  /** Every connection has one reference, is connected once, at its receptacle, and disconnected once, at the same
      endpoint. */
  lemma ConnectedAndDisconnectedOnce(plan: Plan) returns (ids: seq<nat>)
    requires Connectable(plan)
    ensures Permutation(ids, |plan.connection|)
    ensures var refs := CollectedReferences(plan);
            && |refs| == |ids|
            && forall k :: 0 <= k < |ids| ==> && refs[k].name == plan.connection[ids[k]].name
                                              && refs[k].external == IsExternal(plan.connection[ids[k]])
    ensures var connects := ConnectEvents(plan, CollectedReferences(plan));
            && |connects| == |ids|
            && forall k :: 0 <= k < |ids| ==> connects[k] == ReceptacleEvent(ConnectInstance, plan, ids[k])
    ensures var disconnects := DisconnectEvents(plan, |plan.connection|);
            && |disconnects| == |plan.connection|
            && forall c :: 0 <= c < |disconnects| ==> disconnects[c] == ReceptacleEvent(DisconnectInstance, plan, c)
  {
    ids := OneReferenceEach(plan);
    ConnectsAt(plan, CollectedReferences(plan), ids);
    DisconnectsAt(plan, |plan.connection|);
  }
}
