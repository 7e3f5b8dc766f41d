/** The one-pass builder of deployment plans with its symbol tables:
    dancex11/configurator/dancex11_config_loader.cpp. */
module ConfigLoader {
  import opened Collections
  import opened DeploymentPlan
  import opened Directives
  import opened LoaderTables
  import opened Words

  class ConfigLoader {
    // the plan under construction
    var implementation: seq<Implementation>
    var instance: seq<Instance>
    var connection: seq<Connection>
    var artifact: seq<Artifact>
    var localityConstraint: seq<PlanLocality>
    // the symbol tables
    var implementations: map<Word, nat>
    var instances: map<string, nat>
    var connections: map<string, nat>
    var managers: map<string, nat>
    var nodeMap: map<string, map<string, seq<nat>>>
    var endpoints: map<string, seq<EndpointIndex>>

    constructor ()
      ensures Loaded([])
    {
      implementation, instance, connection, artifact, localityConstraint := [], [], [], [], [];
      implementations, instances, connections := map[], map[], map[];
      managers, nodeMap, endpoints := map[], map[], map[];
    }

    /** The connections of the plan and their tables are those of `declared`. */
    ghost predicate Connected(declared: seq<Declared>)
      reads this`connection, this`connections, this`endpoints
    {
      && connection == Plain(declared)
      && AllShaped(declared)
      && NamesDistinct(declared)
      && Names(connections, declared)
      && Ends(endpoints, declared)
      && NoneEmpty(endpoints)
    }

    ghost predicate Implemented(ds: seq<Directive>)
      reads this`implementation, this`implementations
    {
      && implementation == Implementations(ds)
      && ImplNames(implementations, implementation)
    }

    ghost predicate Instantiated(ds: seq<Directive>)
      reads this`instance, this`instances, this`managers
    {
      && instance == Instances(ds)
      && (forall name :: Find(instances, name) == ComponentNamed(ds, name))
      && (forall locality :: Find(managers, locality) == ManagerOf(ds, locality))
    }

    ghost predicate NodesPlaced(ds: seq<Directive>)
      reads this`nodeMap
    {
      PlacedIn(nodeMap, ds)
    }

    /** Plan and tables hold what `ds` declare. */
    ghost predicate Loaded(ds: seq<Directive>)
      reads this
    {
      && Connected(AllDeclared(ds)) && artifact == AllArtifacts(ds) && localityConstraint == []
      && Implemented(ds) && Instantiated(ds) && NodesPlaced(ds)
    }

    // ---------------------------------------------------------------- connections

    /** Registers a connection, unless its name is taken. */
    method AddConnection(decl: Declared, ghost declared: seq<Declared>) returns (ok: bool)
      requires Connected(declared) && Shaped(decl)
      modifies this`connection, this`connections, this`endpoints
      ensures ok <==> NamesDistinct(declared + [decl])
      ensures ok ==> Connected(declared + [decl])
    {
      hide Shaped, ConnectionNamed, EndpointsOf, Owned;
      NameIsFree(declared, decl);
      if decl.conn.name in connections {
        assert Find(connections, decl.conn.name).Some?;
        return false;
      }
      assert Find(connections, decl.conn.name).None?;
      NextName(connections, declared, decl);
      ghost var before := endpoints;
      var index := |connection|;
      connections := connections[decl.conn.name := index];
      connection := connection + [decl.conn];
      RecordEndpoints(decl.owners, index);
      NextEnds(before, endpoints, declared, decl);
      ok := true;
    }

    method RecordEndpoints(owners: seq<string>, index: nat)
      requires NoneEmpty(endpoints)
      modifies this`endpoints
      ensures Records(old(endpoints), endpoints, owners, index) && NoneEmpty(endpoints)
    {
      for e := 0 to |owners|
        invariant Records(old(endpoints), endpoints, owners[..e], index) && NoneEmpty(endpoints)
      {
        RecordsOne(old(endpoints), endpoints, owners, e, index);
        endpoints := endpoints[owners[e] := Lookup(endpoints, owners[e]) + [EndpointIndex(index, e)]];
      }
      assert owners[..|owners|] == owners;
    }

    /** The links of one connection item. */
    method LoadLinks(inst: string, peer: string, links: seq<Link>, ghost declared: seq<Declared>) returns (ok: bool)
      requires Connected(declared)
      modifies this`connection, this`connections, this`endpoints
      ensures ok <==> LinksComplete(links) && NamesDistinct(declared + DeclaredLinks(inst, peer, links))
      ensures ok ==> Connected(declared + DeclaredLinks(inst, peer, links))
    {
      hide ConfigLoader.Connected, LinksComplete, NamesDistinct, DeclaredLinks, LinkName;
      NoLinks(inst, peer, links, declared);
      for k := 0 to |links|
        invariant LinksComplete(links[..k]) && Connected(declared + DeclaredLinks(inst, peer, links[..k]))
      {
        NextLink(inst, peer, links, k, declared);
        if !IsLink(links[k].link) || |links[k].peerPort| == 0 {
          return false;
        }
        ok := AddConnection(DeclaredLink(inst, peer, links[k]), declared + DeclaredLinks(inst, peer, links[..k]));
        if !ok {
          return;
        }
      }
      assert links[..|links|] == links;
      ConnectedMeansDistinct(declared + DeclaredLinks(inst, peer, links));
      ok := true;
    }

    /** The links of one external connection item. */
    method LoadExternals(inst: string, links: seq<ExternalLink>, ghost declared: seq<Declared>) returns (ok: bool)
      requires Connected(declared)
      modifies this`connection, this`connections, this`endpoints
      ensures ok <==> ExternalsComplete(links) && NamesDistinct(declared + DeclaredExternals(inst, links))
      ensures ok ==> Connected(declared + DeclaredExternals(inst, links))
    {
      hide ConfigLoader.Connected, ExternalsComplete, NamesDistinct, DeclaredExternals, ExternalName;
      NoExternals(inst, links, declared);
      for k := 0 to |links|
        invariant ExternalsComplete(links[..k]) && Connected(declared + DeclaredExternals(inst, links[..k]))
      {
        NextExternal(inst, links, k, declared);
        if !IsLink(links[k].link) || |links[k].location| == 0 {
          return false;
        }
        ok := AddConnection(DeclaredExternal(inst, links[k]), declared + DeclaredExternals(inst, links[..k]));
        if !ok {
          return;
        }
      }
      assert links[..|links|] == links;
      ConnectedMeansDistinct(declared + DeclaredExternals(inst, links));
      ok := true;
    }

    lemma ConnectedMeansDistinct(declared: seq<Declared>)
      requires Connected(declared)
      ensures NamesDistinct(declared)
    {
    }

    // ---------------------------------------------------------------- items

    /** An item other than a connection. */
    method LoadPlainItem(items: seq<Item>, k: nat, draft: Draft, ghost default: string, ghost artifacts: seq<Artifact>)
      returns (next: Draft)
      requires k < |items| && Drafted(draft, items[..k], default, |artifacts|)
      requires artifact == artifacts + ArtifactsOf(items[..k])
      modifies this`artifact
      ensures Drafted(next, items[..k + 1], default, |artifacts|)
      ensures artifact == artifacts + ArtifactsOf(items[..k + 1])
    {
      OneMore(items, k);
      var item := items[k];
      next := draft;
      if item.ExecParam? {
        next := draft.(exec := draft.exec + [item.prop]);
      } else if item.ConfigProp? {
        next := draft.(config := draft.config + [item.prop]);
      } else if item.OnNode? {
        next := draft.(node := item.node);
      } else if item.InLocality? {
        next := draft.(locality := item.locality,
                       config := draft.config + [Property(ComponentLocality, Text(item.locality))]);
      } else if item.ContainerId? {
        next := draft.(config := draft.config + [Property(ComponentContainer, Text(item.id))]);
      } else if item.UsesArtifact? {
        artifact := artifact + [item.artifact];
        // the artifact that was added last
        next := draft.(artifactRefs := draft.artifactRefs + [|artifact| - 1]);
        assert artifacts + ArtifactsOf(items[..k]) + [item.artifact] == artifacts + ArtifactsOf(items[..k + 1]);
      }
    }

    /** A connection item; nothing for an item of another kind. */
    method LoadConnectionItem(inst: string, item: Item, ghost declared: seq<Declared>) returns (ok: bool)
      requires Connected(declared)
      modifies this`connection, this`connections, this`endpoints
      ensures ok <==> ItemComplete(item) && NamesDistinct(declared + DeclaredBy(inst, [item]))
      ensures ok ==> Connected(declared + DeclaredBy(inst, [item]))
    {
      hide ConfigLoader.Connected, NamesDistinct;
      SingleItem(inst, item);
      if item.ConnectTo? {
        ok := LoadLinks(inst, item.peer, item.links, declared);
      } else if item.ConnectExternal? {
        ok := LoadExternals(inst, item.externalLinks, declared);
      } else {
        assert declared + [] == declared;
        ConnectedMeansDistinct(declared);
        ok := true;
      }
    }

    /** The loop over the items of one directive. */
    method LoadItems(d: Directive, ghost declared: seq<Declared>) returns (ok: bool, draft: Draft)
      requires Connected(declared)
      modifies this`artifact, this`connection, this`connections, this`endpoints
      ensures ok <==> ItemsComplete(d, d.items) && NamesDistinct(declared + DeclaredBy(d.name, d.items))
      ensures ok ==> Connected(declared + DeclaredBy(d.name, d.items))
      ensures ok ==> Drafted(draft, d.items, DefaultLocality(d), |old(artifact)|)
      ensures ok ==> artifact == old(artifact) + ArtifactsOf(d.items)
    {
      hide ConfigLoader.Connected, NamesDistinct, Drafted, ItemsComplete, ItemComplete, Takes, DeclaredBy;
      ghost var artifacts := artifact;
      draft := EmptyDraft(d);
      NoItems(d, declared);
      assert artifacts + ArtifactsOf(d.items[..0]) == artifacts;
      for k := 0 to |d.items|
        invariant ItemsComplete(d, d.items[..k]) && Connected(declared + DeclaredBy(d.name, d.items[..k]))
        invariant Drafted(draft, d.items[..k], DefaultLocality(d), |artifacts|)
        invariant artifact == artifacts + ArtifactsOf(d.items[..k])
      {
        NextItem(d, k, declared);
        NextComplete(d, k);
        if !Takes(d, d.items[k]) {
          return false, draft;
        }
        draft := LoadPlainItem(d.items, k, draft, DefaultLocality(d), artifacts);
        ok := LoadConnectionItem(d.name, d.items[k], declared + DeclaredBy(d.name, d.items[..k]));
        if !ok {
          return;
        }
      }
      assert d.items[..|d.items|] == d.items;
      ConnectedMeansDistinct(declared + DeclaredBy(d.name, d.items));
      ok := true;
    }

    // ---------------------------------------------------------------- directives

    /** Reuses the implementation of the directive's name, or introduces one. */
    method AddImplementation(d: Directive, draft: Draft, ghost ds: seq<Directive>) returns (ref: nat)
      requires Implemented(ds) && Drafted(draft, d.items, DefaultLocality(d), |AllArtifacts(ds)|)
      modifies this`implementation, this`implementations
      ensures Implemented(ds + [d]) && ref == ImplRef(Implementations(ds), d)
    {
      hide Implementations, AllArtifacts, ConfigProps, NodeOf, LastLocality, StandardParams, ImplName;
      var name := ImplName(d);
      NextImplementation(ds, d);
      assert Find(implementations, name) == ImplNamed(implementation, name);
      if name in implementations {
        ref := implementations[name];
      } else {
        ref := |implementation|;
        var impl := Implementation(name, draft.exec + StandardParams(d), draft.artifactRefs);
        NextImplName(implementations, implementation, impl);
        implementations := implementations[name := ref];
        implementation := implementation + [impl];
      }
    }

    method PlaceInstance(node: string, locality: string, index: nat, ghost ds: seq<Directive>, ghost d: Directive)
      requires NodesPlaced(ds) && index == |ds| && PlaceOf(d) == Some(Place(node, locality))
      modifies this`nodeMap
      ensures NodesPlaced(ds + [d])
    {
      hide PlacedIn;
      var localities := if node in nodeMap then nodeMap[node] else map[];
      PlacedNext(nodeMap, ds, d, node, locality, localities);
      localities := localities[locality := Lookup(localities, locality) + [index]];
      nodeMap := nodeMap[node := localities];
    }

    method PlaceManager(d: Directive, draft: Draft, ghost ds: seq<Directive>)
      requires NodesPlaced(ds) && |instance| == |ds| && d.LocalityManager?
      requires Drafted(draft, d.items, DefaultLocality(d), |AllArtifacts(ds)|)
      modifies this`nodeMap
      ensures NodesPlaced(ds + [d])
    {
      hide ConfigLoader.NodesPlaced, ExecParams, ConfigProps;
      PlaceInstance(draft.node, draft.locality, |instance|, ds, d);
    }

    /** Components and containers are placed if a locality was given. */
    method PlaceIfLocated(d: Directive, draft: Draft, ghost ds: seq<Directive>)
      requires NodesPlaced(ds) && |instance| == |ds| && !d.LocalityManager?
      requires Drafted(draft, d.items, DefaultLocality(d), |AllArtifacts(ds)|)
      modifies this`nodeMap
      ensures NodesPlaced(ds + [d])
    {
      hide ConfigLoader.NodesPlaced, ExecParams, ConfigProps;
      if |draft.locality| > 0 {
        PlaceInstance(draft.node, draft.locality, |instance|, ds, d);
      } else {
        NotPlaced(ds, d);
      }
    }

    lemma NotPlaced(ds: seq<Directive>, d: Directive)
      requires NodesPlaced(ds) && PlaceOf(d).None?
      ensures NodesPlaced(ds + [d])
    {
      forall n, l
        ensures AtPlace(nodeMap, n, l) == IndicesOf(Places(ds + [d]), Some(Place(n, l)), |ds + [d]|)
      {
        NextPlace(ds, d, Place(n, l));
      }
    }

    /** The instance of a component, which is registered by name. */
    method AddComponent(d: Directive, draft: Draft, ref: nat, ghost ds: seq<Directive>)
      requires Instantiated(ds) && ref == ImplRef(Implementations(ds), d) && d.Component?
      requires Drafted(draft, d.items, DefaultLocality(d), |AllArtifacts(ds)|)
      modifies this`instance, this`instances
      ensures Instantiated(ds + [d])
    {
      NextDirective(ds, d);
      instances := instances[d.name := |instance|];
      instance := instance + [Instance(d.name, draft.node, ref, draft.config)];
    }

    /** The instance of a locality manager, which is registered by locality. */
    method AddManager(d: Directive, draft: Draft, ref: nat, ghost ds: seq<Directive>)
      requires Instantiated(ds) && ref == ImplRef(Implementations(ds), d) && d.LocalityManager?
      requires Drafted(draft, d.items, DefaultLocality(d), |AllArtifacts(ds)|)
      modifies this`instance, this`managers
      ensures Instantiated(ds + [d])
    {
      NextDirective(ds, d);
      managers := managers[draft.locality := |instance|];
      instance := instance + [Instance(d.name, draft.node, ref, draft.config)];
    }

    /** The instance of a container, which is not registered. */
    method AddContainer(d: Directive, draft: Draft, ref: nat, ghost ds: seq<Directive>)
      requires Instantiated(ds) && ref == ImplRef(Implementations(ds), d) && d.Container?
      requires Drafted(draft, d.items, DefaultLocality(d), |AllArtifacts(ds)|)
      modifies this`instance
      ensures Instantiated(ds + [d])
    {
      NextDirective(ds, d);
      instance := instance + [Instance(d.name, draft.node, ref, draft.config)];
    }

    /** The items of a directive, which change only connections, artifacts and their tables. */
    method LoadBody(d: Directive, ghost ds: seq<Directive>) returns (ok: bool, draft: Draft)
      requires Loaded(ds)
      modifies this`artifact, this`connection, this`connections, this`endpoints
      ensures ok <==> ItemsComplete(d, d.items) && NamesDistinct(AllDeclared(ds) + DeclaredBy(d.name, d.items))
      ensures ok ==> Drafted(draft, d.items, DefaultLocality(d), |AllArtifacts(ds)|)
      ensures ok ==> BodyLoaded(d, ds)
    {
      NextDirective(ds, d);
      ok, draft := LoadItems(d, AllDeclared(ds));
    }

    /** The connections and artifacts of `d` are there, its instance is not. */
    ghost predicate BodyLoaded(d: Directive, ds: seq<Directive>)
      reads this
    {
      && Connected(AllDeclared(ds + [d])) && artifact == AllArtifacts(ds + [d]) && localityConstraint == []
      && Implemented(ds) && Instantiated(ds) && NodesPlaced(ds)
    }

    method LoadComponent(d: Directive, ghost ds: seq<Directive>) returns (ok: bool)
      requires Loaded(ds) && d.Component?
      modifies this
      ensures ok <==> Admits(ds, d)
      ensures ok ==> Loaded(ds + [d])
    {
      assert Find(instances, d.name) == ComponentNamed(ds, d.name);
      if d.name in instances {
        return false;
      }
      var draft;
      ok, draft := LoadBody(d, ds);
      if ok {
        FinishComponent(d, draft, ds);
      }
    }

    method FinishComponent(d: Directive, draft: Draft, ghost ds: seq<Directive>)
      requires BodyLoaded(d, ds) && d.Component?
      requires Drafted(draft, d.items, DefaultLocality(d), |AllArtifacts(ds)|)
      modifies this`implementation, this`instance, this`implementations, this`instances, this`nodeMap
      ensures Loaded(ds + [d])
    {
      hide ConfigLoader.NodesPlaced, ConfigLoader.Connected, ConfigLoader.Implemented, AllDeclared, AllArtifacts, Drafted;
      var ref := AddImplementation(d, draft, ds);
      PlaceIfLocated(d, draft, ds);
      AddComponent(d, draft, ref, ds);
    }

    method LoadLocality(d: Directive, ghost ds: seq<Directive>) returns (ok: bool)
      requires Loaded(ds) && d.LocalityManager?
      modifies this
      ensures ok <==> Admits(ds, d)
      ensures ok ==> Loaded(ds + [d])
    {
      var draft;
      ok, draft := LoadBody(d, ds);
      if ok {
        assert Find(managers, draft.locality) == ManagerOf(ds, LocalityOf(d));
        if draft.locality in managers {
          return false;
        }
        FinishLocality(d, draft, ds);
      }
    }

    method FinishLocality(d: Directive, draft: Draft, ghost ds: seq<Directive>)
      requires BodyLoaded(d, ds) && d.LocalityManager?
      requires Drafted(draft, d.items, DefaultLocality(d), |AllArtifacts(ds)|)
      modifies this`implementation, this`instance, this`implementations, this`managers, this`nodeMap
      ensures Loaded(ds + [d])
    {
      hide ConfigLoader.NodesPlaced, ConfigLoader.Connected, ConfigLoader.Implemented, AllDeclared, AllArtifacts, Drafted;
      var ref := AddImplementation(d, draft, ds);
      PlaceManager(d, draft, ds);
      AddManager(d, draft, ref, ds);
    }

    /** Looks for the name among the components, but registers it nowhere. */
    method LoadContainer(d: Directive, ghost ds: seq<Directive>) returns (ok: bool)
      requires Loaded(ds) && d.Container?
      modifies this
      ensures ok <==> Admits(ds, d)
      ensures ok ==> Loaded(ds + [d])
    {
      assert Find(instances, d.name) == ComponentNamed(ds, d.name);
      if d.name in instances {
        return false;
      }
      var draft;
      ok, draft := LoadBody(d, ds);
      if ok {
        FinishContainer(d, draft, ds);
      }
    }

    method FinishContainer(d: Directive, draft: Draft, ghost ds: seq<Directive>)
      requires BodyLoaded(d, ds) && d.Container?
      requires Drafted(draft, d.items, DefaultLocality(d), |AllArtifacts(ds)|)
      modifies this`implementation, this`instance, this`implementations, this`nodeMap
      ensures Loaded(ds + [d])
    {
      hide ConfigLoader.NodesPlaced, ConfigLoader.Connected, ConfigLoader.Implemented, AllDeclared, AllArtifacts, Drafted;
      var ref := AddImplementation(d, draft, ds);
      PlaceIfLocated(d, draft, ds);
      AddContainer(d, draft, ref, ds);
    }

    /** The loop over the directives of a configuration. */
    method LoadDirectives(ds: seq<Directive>) returns (ok: bool)
      requires Loaded([])
      modifies this
      ensures ok <==> AllAdmitted(ds)
      ensures ok ==> Loaded(ds)
    {
      hide ConfigLoader.Loaded;
      for n := 0 to |ds|
        invariant AllAdmitted(ds[..n]) && Loaded(ds[..n])
      {
        AdmittedNext(ds, n);
        AdmittedPrefix(ds, n + 1);
        if ds[n].Component? {
          ok := LoadComponent(ds[n], ds[..n]);
        } else if ds[n].LocalityManager? {
          ok := LoadLocality(ds[n], ds[..n]);
        } else {
          ok := LoadContainer(ds[n], ds[..n]);
        }
        if !ok {
          return;
        }
      }
      assert ds[..|ds|] == ds;
      ok := true;
    }

    // ---------------------------------------------------------------- finalize_component_plan

    method SetInstanceRef(at: EndpointIndex, ref: nat)
      requires at.conn < |connection| && at.endpoint < |connection[at.conn].internalEndpoint|
      modifies this`connection
      ensures connection == WithRef(old(connection), at, ref)
    {
      var conn := connection[at.conn];
      var ep := conn.internalEndpoint[at.endpoint];
      connection := connection[at.conn := conn.(internalEndpoint := conn.internalEndpoint[at.endpoint := ep.(instanceRef := ref)])];
    }

    /** The inner loop: all endpoints of one instance. */
    method ResolveInstance(list: seq<EndpointIndex>, inst: string, ref: nat, ghost declared: seq<Declared>, ghost table: map<string, nat>)
      requires AllShaped(declared) && list == EndpointsOf(declared, inst) && inst !in table
      requires Resolved(connection, declared, table)
      modifies this`connection
      ensures Resolved(connection, declared, table[inst := ref])
    {
      EndpointsListed(declared, inst);
      for k := 0 to |list|
        invariant PartlyResolved(connection, declared, table, inst, ref, list[..k])
      {
        OneMore(list, k);
        NextRef(connection, declared, table, inst, ref, list[..k], list[k]);
        SetInstanceRef(list[k], ref);
      }
      assert list[..|list|] == list;
      AllRefs(connection, declared, table, inst, ref);
    }

    /** The loop over the instances that connections mention. */
    method ResolveEndpoints(ghost declared: seq<Declared>) returns (ok: bool)
      requires Connected(declared)
      modifies this`connection
      ensures ok <==> endpoints.Keys <= instances.Keys
      ensures ok ==> Resolved(connection, declared, instances)
    {
      hide Shaped, EndpointsOf, PartlyResolved;
      ghost var table: map<string, nat> := map[];
      NothingResolved(declared);
      var names := KeysInOrder(endpoints);
      for k := 0 to |names|
        invariant Resolved(connection, declared, table)
        invariant forall n :: n in table <==> n in names[..k]
        invariant table.Keys <= instances.Keys
        invariant forall n :: n in table ==> table[n] == instances[n]
      {
        var inst := names[k];
        OneMore(names, k);
        if inst !in instances {
          assert inst in endpoints;
          return false;
        }
        assert Lookup(endpoints, inst) == EndpointsOf(declared, inst);
        ResolveInstance(endpoints[inst], inst, instances[inst], declared, table);
        table := table[inst := instances[inst]];
      }
      assert names[..|names|] == names;
      EndsAreOwners(endpoints, declared);
      OtherTable(connection, declared, table, instances);
      ok := true;
    }

    method FirstInstances(localities: map<string, seq<nat>>, names: seq<string>) returns (firsts: seq<nat>)
      requires forall k :: 0 <= k < |names| ==> names[k] in localities && localities[names[k]] != []
      ensures firsts == Firsts(localities, names)
    {
      firsts := [];
      for k := 0 to |names|
        invariant firsts == Firsts(localities, names[..k])
      {
        OneMore(names, k);
        firsts := firsts + [localities[names[k]][0]];
      }
      assert names[..|names|] == names;
    }

    method ConstrainNode(localities: map<string, seq<nat>>) returns (cs: seq<PlanLocality>, order: seq<string>)
      requires NoneEmpty(localities)
      ensures Enumerates(order, localities.Keys) && cs == NodeConstraints(localities, order)
    {
      var names := KeysInOrder(localities);
      order := names;
      var firsts := FirstInstances(localities, names);
      hide Firsts, Enumerates;
      cs := [PlanLocality(PlanDifferentProcess, firsts)];
      for k := 0 to |names|
        invariant cs == [PlanLocality(PlanDifferentProcess, firsts)] + Groups(localities, names[..k])
      {
        OneMore(names, k);
        assert names[k] in localities;
        cs := cs + [PlanLocality(PlanSameProcess, localities[names[k]])];
      }
      assert names[..|names|] == names;
    }

    method ConstrainLocalities(ghost ds: seq<Directive>)
      requires NodesPlaced(ds) && localityConstraint == []
      modifies this`localityConstraint
      ensures Constrains(localityConstraint, ds)
    {
      hide NodeConstraints, PlacedIn, NodeByNode, NoneEmpty;
      PlacedNotEmpty(nodeMap, ds);
      var nodes := KeysInOrder(nodeMap);
      ghost var orders: seq<seq<string>> := [];
      NoNodes(nodeMap, nodes);
      for k := 0 to |nodes|
        invariant |orders| == k
        invariant forall m :: 0 <= m < k ==> Enumerates(orders[m], nodeMap[nodes[m]].Keys)
        invariant localityConstraint == NodeByNode(nodeMap, nodes[..k], orders)
      {
        var more, order := ConstrainNode(nodeMap[nodes[k]]);
        NextNode(nodeMap, nodes[..k], orders, nodes[k], order);
        assert nodes[..k + 1] == nodes[..k] + [nodes[k]];
        localityConstraint := localityConstraint + more;
        orders := orders + [order];
      }
      assert nodes[..|nodes|] == nodes;
      assert ConstraintList(localityConstraint, nodeMap, nodes, orders);
    }

    /** Resolves the endpoints and adds the locality constraints. */
    method FinalizeComponentPlan(ghost ds: seq<Directive>) returns (ok: bool)
      requires Loaded(ds)
      modifies this`connection, this`localityConstraint
      ensures ok <==> AllOwned(ds)
      ensures ok ==> connection == ResolvedConnections(ds) && Constrains(localityConstraint, ds)
    {
      hide ConfigLoader.Implemented, Resolved, PlacedIn;
      ghost var declared := AllDeclared(ds);
      OwnersRegistered(endpoints, declared, instances, ds);
      ok := ResolveEndpoints(declared);
      if ok {
        FullyResolved(connection, ds, instances);
        ConstrainLocalities(ds);
      }
    }

    function Built(): Plan
      reads this
    {
      Plan(implementation, instance, connection, artifact, localityConstraint)
    }
  }

  /** The loader as a whole: the plan for the directives, unless one is refused or a connection mentions an
      instance that is no component. */
  method LoadPlan(ds: seq<Directive>) returns (plan: Option<Plan>)
    ensures plan.Some? <==> AllAdmitted(ds) && AllOwned(ds)
    ensures plan.Some? ==> IsPlanOf(plan.value, ds)
  {
    var loader := new ConfigLoader();
    var ok := loader.LoadDirectives(ds);
    if ok {
      ok := loader.FinalizeComponentPlan(ds);
    }
    plan := if ok then Some(loader.Built()) else None;
  }
}
