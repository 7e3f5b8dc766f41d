/** The contents of the loader's symbol tables, as functions of the directives loaded so far:
    dancex11/configurator/dancex11_config_loader.cpp. */
module LoaderTables {
  import opened Collections
  import opened DeploymentPlan
  import opened Directives
  import opened Words

  /** A connection and one of its internal endpoints. */
  datatype EndpointIndex = EndpointIndex(conn: nat, endpoint: nat)

  function AtPlace(table: map<string, map<string, seq<nat>>>, node: string, locality: string): seq<nat> {
    if node in table then Lookup(table[node], locality) else []
  }

  // ------------------------------------------------------------------ what the tables hold

  function ConnectionNamed(declared: seq<Declared>, name: string): (r: Option<nat>)
    ensures r.Some? ==> r.value < |declared| && declared[r.value].conn.name == name
  {
    if declared == [] then None
    else if declared[|declared| - 1].conn.name == name then Some(|declared| - 1)
    else ConnectionNamed(declared[..|declared| - 1], name)
  }

  lemma {:induction false} NameFound(declared: seq<Declared>, name: string)
    ensures ConnectionNamed(declared, name).None? <==> forall c :: 0 <= c < |declared| ==> declared[c].conn.name != name
  {
    if declared != [] {
      NameFound(declared[..|declared| - 1], name);
    }
  }

  lemma NameIsFree(declared: seq<Declared>, decl: Declared)
    requires NamesDistinct(declared)
    ensures ConnectionNamed(declared, decl.conn.name).None? <==> NamesDistinct(declared + [decl])
  {
    NameFound(declared, decl.conn.name);
    if ConnectionNamed(declared, decl.conn.name).Some? {
      var c := ConnectionNamed(declared, decl.conn.name).value;
      assert (declared + [decl])[c].conn.name == (declared + [decl])[|declared|].conn.name;
    }
  }

  lemma DistinctPrefix(prefix: seq<Declared>, all: seq<Declared>)
    requires prefix <= all
    ensures NamesDistinct(all) ==> NamesDistinct(prefix)
  {
    if c, d :| 0 <= c < d < |prefix| && prefix[c].conn.name == prefix[d].conn.name {
      assert all[c] == prefix[c] && all[d] == prefix[d];
    }
  }

  function Owned(owners: seq<string>, inst: string, c: nat): seq<EndpointIndex> {
    if owners == [] then []
    else if owners[|owners| - 1] == inst then Owned(owners[..|owners| - 1], inst, c) + [EndpointIndex(c, |owners| - 1)]
    else Owned(owners[..|owners| - 1], inst, c)
  }

  /** The endpoints of an instance in all connections. */
  function EndpointsOf(declared: seq<Declared>, inst: string): seq<EndpointIndex> {
    if declared == [] then []
    else EndpointsOf(declared[..|declared| - 1], inst) + Owned(declared[|declared| - 1].owners, inst, |declared| - 1)
  }

  // one step of the loops over links

  lemma NoLinks(inst: string, peer: string, links: seq<Link>, declared: seq<Declared>)
    ensures declared + DeclaredLinks(inst, peer, links[..0]) == declared && LinksComplete(links[..0])
  {
  }

  lemma NextLink(inst: string, peer: string, links: seq<Link>, k: nat, declared: seq<Declared>)
    requires k < |links|
    ensures declared + DeclaredLinks(inst, peer, links[..k + 1])
         == declared + DeclaredLinks(inst, peer, links[..k]) + [DeclaredLink(inst, peer, links[k])]
    ensures Shaped(DeclaredLink(inst, peer, links[k]))
    ensures LinksComplete(links[..k + 1]) <==> LinksComplete(links[..k]) && LinkComplete(links[k])
    ensures LinksComplete(links) ==> LinksComplete(links[..k + 1])
    ensures NamesDistinct(declared + DeclaredLinks(inst, peer, links)) ==>
              NamesDistinct(declared + DeclaredLinks(inst, peer, links[..k + 1]))
  {
    hide LinkName;
    OneMore(links, k);
    LinksPrefix(inst, peer, links, k + 1);
    DistinctPrefix(declared + DeclaredLinks(inst, peer, links[..k + 1]), declared + DeclaredLinks(inst, peer, links));
    assert forall m :: 0 <= m < k ==> links[..k + 1][m] == links[..k][m];
  }

  lemma NoExternals(inst: string, links: seq<ExternalLink>, declared: seq<Declared>)
    ensures declared + DeclaredExternals(inst, links[..0]) == declared && ExternalsComplete(links[..0])
  {
  }

  lemma NextExternal(inst: string, links: seq<ExternalLink>, k: nat, declared: seq<Declared>)
    requires k < |links|
    ensures declared + DeclaredExternals(inst, links[..k + 1])
         == declared + DeclaredExternals(inst, links[..k]) + [DeclaredExternal(inst, links[k])]
    ensures Shaped(DeclaredExternal(inst, links[k]))
    ensures ExternalsComplete(links[..k + 1]) <==> ExternalsComplete(links[..k]) && ExternalComplete(links[k])
    ensures ExternalsComplete(links) ==> ExternalsComplete(links[..k + 1])
    ensures NamesDistinct(declared + DeclaredExternals(inst, links)) ==>
              NamesDistinct(declared + DeclaredExternals(inst, links[..k + 1]))
  {
    hide ExternalName;
    OneMore(links, k);
    ExternalsPrefix(inst, links, k + 1);
    DistinctPrefix(declared + DeclaredExternals(inst, links[..k + 1]), declared + DeclaredExternals(inst, links));
    assert forall m :: 0 <= m < k ==> links[..k + 1][m] == links[..k][m];
  }

  ghost predicate NoneEmpty<K(!new), V>(table: map<K, seq<V>>) {
    forall key :: key in table ==> table[key] != []
  }

  /** `after` has the endpoints of connection `c` in addition to those of `before`. */
  ghost predicate Records(before: map<string, seq<EndpointIndex>>, after: map<string, seq<EndpointIndex>>,
                          owners: seq<string>, c: nat) {
    forall inst :: Lookup(after, inst) == Lookup(before, inst) + Owned(owners, inst, c)
  }

  ghost predicate Names(table: map<string, nat>, declared: seq<Declared>) {
    forall name :: Find(table, name) == ConnectionNamed(declared, name)
  }

  ghost predicate Ends(table: map<string, seq<EndpointIndex>>, declared: seq<Declared>) {
    forall inst :: Lookup(table, inst) == EndpointsOf(declared, inst)
  }

  lemma NextName(names: map<string, nat>, declared: seq<Declared>, decl: Declared)
    requires Names(names, declared)
    ensures Names(names[decl.conn.name := |declared|], declared + [decl])
  {
    var more := declared + [decl];
    assert more[..|declared|] == declared && more[|declared|] == decl;
    forall name
      ensures Find(names[decl.conn.name := |declared|], name) == ConnectionNamed(more, name)
    {
      assert Find(names, name) == ConnectionNamed(declared, name);
    }
  }

  lemma NextEnds(before: map<string, seq<EndpointIndex>>, after: map<string, seq<EndpointIndex>>,
                 declared: seq<Declared>, decl: Declared)
    requires Ends(before, declared) && Records(before, after, decl.owners, |declared|)
    ensures Ends(after, declared + [decl])
  {
    hide Owned;
    assert (declared + [decl])[..|declared|] == declared;
    forall inst
      ensures Lookup(after, inst) == EndpointsOf(declared + [decl], inst)
    {
      assert Lookup(after, inst) == Lookup(before, inst) + Owned(decl.owners, inst, |declared|);
    }
  }

  lemma RecordsOne(before: map<string, seq<EndpointIndex>>, after: map<string, seq<EndpointIndex>>,
                   owners: seq<string>, e: nat, c: nat)
    requires e < |owners| && Records(before, after, owners[..e], c)
    ensures Records(before, after[owners[e] := Lookup(after, owners[e]) + [EndpointIndex(c, e)]], owners[..e + 1], c)
  {
    OneMore(owners, e);
  }

  function Plain(declared: seq<Declared>): (r: seq<Connection>)
    ensures |r| == |declared| && forall c :: 0 <= c < |r| ==> r[c] == declared[c].conn
  {
    seq(|declared|, c requires 0 <= c < |declared| => declared[c].conn)
  }

  /** The shape that every declaration has. */
  predicate Shaped(d: Declared) {
    && WellFormed(d.conn)
    && |d.owners| == |d.conn.internalEndpoint|
  }

  // ------------------------------------------------------------------ a directive under construction

  datatype Draft = Draft(exec: seq<Property>, config: seq<Property>, node: string, locality: string, artifactRefs: seq<nat>)

  /** What `items` amount to when `base` artifacts precede theirs. */
  ghost predicate Drafted(draft: Draft, items: seq<Item>, default: string, base: nat) {
    && draft.exec == ExecParams(items)
    && draft.config == ConfigProps(items)
    && draft.node == NodeOf(items)
    && draft.locality == LastLocality(items, default)
    && draft.artifactRefs == UpFrom(base, |ArtifactsOf(items)|)
  }

  method EmptyDraft(d: Directive) returns (draft: Draft)
    ensures forall base :: Drafted(draft, d.items[..0], DefaultLocality(d), base)
  {
    draft := Draft([], [], "", DefaultLocality(d), []);
  }

  lemma SingleItem(inst: string, item: Item)
    ensures DeclaredBy(inst, [item])
         == if item.ConnectTo? then DeclaredLinks(inst, item.peer, item.links)
            else if item.ConnectExternal? then DeclaredExternals(inst, item.externalLinks)
            else []
  {
    assert [item][..0] == [] && DeclaredBy(inst, []) == [];
  }

  lemma NoItems(d: Directive, declared: seq<Declared>)
    ensures declared + DeclaredBy(d.name, d.items[..0]) == declared && ItemsComplete(d, d.items[..0])
  {
  }

  lemma NextItem(d: Directive, k: nat, declared: seq<Declared>)
    requires k < |d.items|
    ensures declared + DeclaredBy(d.name, d.items[..k + 1])
         == declared + DeclaredBy(d.name, d.items[..k]) + DeclaredBy(d.name, [d.items[k]])
    ensures NamesDistinct(declared + DeclaredBy(d.name, d.items)) ==>
              NamesDistinct(declared + DeclaredBy(d.name, d.items[..k + 1]))
  {
    hide NamesDistinct, DeclaredLinks, DeclaredExternals;
    var items := d.items;
    OneMore(items, k);
    SingleItem(d.name, items[k]);
    assert DeclaredBy(d.name, items[..k]) + DeclaredBy(d.name, [items[k]]) == DeclaredBy(d.name, items[..k + 1]);
    ItemsPrefix(d.name, items, k + 1);
    DistinctPrefix(declared + DeclaredBy(d.name, items[..k + 1]), declared + DeclaredBy(d.name, items));
  }

  lemma NextComplete(d: Directive, k: nat)
    requires k < |d.items|
    ensures var items := d.items;
            && (ItemsComplete(d, items[..k + 1])
                <==> ItemsComplete(d, items[..k]) && Takes(d, items[k]) && ItemComplete(items[k]))
            && (ItemsComplete(d, items) ==> ItemsComplete(d, items[..k + 1]))
  {
    hide Takes, ItemComplete;
    assert forall m :: 0 <= m < k ==> d.items[..k + 1][m] == d.items[..k][m];
  }

  // ------------------------------------------------------------------ places

  /** The map lists the instances by node and locality. */
  ghost predicate PlacedIn(nodeMap: map<string, map<string, seq<nat>>>, ds: seq<Directive>) {
    && (forall node, locality ::
          AtPlace(nodeMap, node, locality) == IndicesOf(Places(ds), Some(Place(node, locality)), |ds|))
    && (forall node :: node in nodeMap ==> nodeMap[node] != map[])
    && (forall node, locality :: node in nodeMap && locality in nodeMap[node] ==> nodeMap[node][locality] != [])
  }

  lemma PlacedNext(nodeMap: map<string, map<string, seq<nat>>>, ds: seq<Directive>, d: Directive,
                   node: string, locality: string, localities: map<string, seq<nat>>)
    requires PlacedIn(nodeMap, ds) && PlaceOf(d) == Some(Place(node, locality))
    requires localities == if node in nodeMap then nodeMap[node] else map[]
    ensures PlacedIn(nodeMap[node := localities[locality := Lookup(localities, locality) + [|ds|]]], ds + [d])
  {
    hide IndicesOf, Places, PlaceOf;
    var after := nodeMap[node := localities[locality := Lookup(localities, locality) + [|ds|]]];
    forall n, l
      ensures AtPlace(after, n, l) == IndicesOf(Places(ds + [d]), Some(Place(n, l)), |ds + [d]|)
    {
      NextPlace(ds, d, Place(n, l));
      assert AtPlace(nodeMap, n, l) == IndicesOf(Places(ds), Some(Place(n, l)), |ds|);
    }
  }

  /** The DifferentProcess constraint of a node and the SameProcess constraints of its localities. */
  function NodeConstraints(localities: map<string, seq<nat>>, order: seq<string>): seq<PlanLocality> {
    [PlanLocality(PlanDifferentProcess, Firsts(localities, order))] + Groups(localities, order)
  }

  function Firsts(localities: map<string, seq<nat>>, order: seq<string>): seq<nat> {
    if order == [] then []
    else
      var list := Lookup(localities, order[|order| - 1]);
      Firsts(localities, order[..|order| - 1]) + if list == [] then [] else [list[0]]
  }

  function Groups(localities: map<string, seq<nat>>, order: seq<string>): seq<PlanLocality> {
    if order == [] then []
    else Groups(localities, order[..|order| - 1])
         + [PlanLocality(PlanSameProcess, Lookup(localities, order[|order| - 1]))]
  }

  function NodeByNode(nodeMap: map<string, map<string, seq<nat>>>, nodes: seq<string>, orders: seq<seq<string>>): seq<PlanLocality>
    requires |nodes| == |orders| && forall k :: 0 <= k < |nodes| ==> nodes[k] in nodeMap
  {
    if nodes == [] then []
    else
      var last := |nodes| - 1;
      NodeByNode(nodeMap, nodes[..last], orders[..last]) + NodeConstraints(nodeMap[nodes[last]], orders[last])
  }

  /** The constraints of a node map when nodes and localities are met in the given orders. */
  ghost predicate ConstraintList(cs: seq<PlanLocality>, nodeMap: map<string, map<string, seq<nat>>>,
                                 nodes: seq<string>, orders: seq<seq<string>>) {
    && |nodes| == |orders| && Enumerates(nodes, nodeMap.Keys)
    && (forall k :: 0 <= k < |nodes| ==> Enumerates(orders[k], nodeMap[nodes[k]].Keys))
    && cs == NodeByNode(nodeMap, nodes, orders)
  }

  ghost predicate Constrains(cs: seq<PlanLocality>, ds: seq<Directive>) {
    exists nodeMap, nodes, orders :: PlacedIn(nodeMap, ds) && ConstraintList(cs, nodeMap, nodes, orders)
  }

  lemma NoNodes(nodeMap: map<string, map<string, seq<nat>>>, nodes: seq<string>)
    ensures NodeByNode(nodeMap, nodes[..0], []) == []
  {
  }

  lemma PlacedNotEmpty(nodeMap: map<string, map<string, seq<nat>>>, ds: seq<Directive>)
    requires PlacedIn(nodeMap, ds)
    ensures forall node :: node in nodeMap ==> NoneEmpty(nodeMap[node])
  {
  }

  lemma NextNode(nodeMap: map<string, map<string, seq<nat>>>, nodes: seq<string>, orders: seq<seq<string>>,
                 node: string, order: seq<string>)
    requires |nodes| == |orders| && (forall k :: 0 <= k < |nodes| ==> nodes[k] in nodeMap) && node in nodeMap
    ensures NodeByNode(nodeMap, nodes + [node], orders + [order])
         == NodeByNode(nodeMap, nodes, orders) + NodeConstraints(nodeMap[node], order)
  {
    assert (nodes + [node])[..|nodes|] == nodes && (orders + [order])[..|orders|] == orders;
  }

  // ------------------------------------------------------------------ resolving endpoints

  predicate AllShaped(declared: seq<Declared>) {
    forall c :: 0 <= c < |declared| ==> Shaped(declared[c])
  }

  function WithRef(conns: seq<Connection>, at: EndpointIndex, ref: nat): seq<Connection>
    requires at.conn < |conns| && at.endpoint < |conns[at.conn].internalEndpoint|
  {
    var conn := conns[at.conn];
    conns[at.conn := conn.(internalEndpoint :=
      conn.internalEndpoint[at.endpoint := conn.internalEndpoint[at.endpoint].(instanceRef := ref)])]
  }

  /** `conns` are the declared connections except for the instance references of their endpoints. */
  ghost predicate SameButRefs(conns: seq<Connection>, declared: seq<Declared>) {
    && |conns| == |declared|
    && forall c :: 0 <= c < |conns| ==>
                     && |conns[c].internalEndpoint| == |declared[c].conn.internalEndpoint|
                     && conns[c] == declared[c].conn.(internalEndpoint := conns[c].internalEndpoint)
  }

  function WithInstance(ep: Endpoint, owner: string, table: map<string, nat>): Endpoint {
    if owner in table then ep.(instanceRef := table[owner]) else ep
  }

  /** The endpoints of the instances in `table` are resolved, the others untouched. */
  ghost predicate Resolved(conns: seq<Connection>, declared: seq<Declared>, table: map<string, nat>)
    requires AllShaped(declared)
  {
    && SameButRefs(conns, declared)
    && forall c, e :: 0 <= c < |conns| && 0 <= e < |conns[c].internalEndpoint| ==>
                        conns[c].internalEndpoint[e]
                        == WithInstance(declared[c].conn.internalEndpoint[e], declared[c].owners[e], table)
  }

  /** In addition the endpoints in `some` refer to `ref`. */
  ghost predicate PartlyResolved(conns: seq<Connection>, declared: seq<Declared>, table: map<string, nat>,
                                 inst: string, ref: nat, some: seq<EndpointIndex>)
    requires AllShaped(declared)
  {
    && SameButRefs(conns, declared)
    && forall c: nat, e: nat :: c < |conns| && e < |conns[c].internalEndpoint| ==>
                        conns[c].internalEndpoint[e]
                        == WithInstance(declared[c].conn.internalEndpoint[e], declared[c].owners[e],
                                        if EndpointIndex(c, e) in some then table[inst := ref] else table)
  }

  lemma {:induction false} OwnedListed(owners: seq<string>, inst: string, c: nat)
    ensures forall at :: at in Owned(owners, inst, c) <==> at.conn == c && at.endpoint < |owners| && owners[at.endpoint] == inst
  {
    if owners != [] {
      OwnedListed(owners[..|owners| - 1], inst, c);
    }
  }

  lemma {:induction false} EndpointsListed(declared: seq<Declared>, inst: string)
    ensures forall at :: at in EndpointsOf(declared, inst) <==>
                         && at.conn < |declared| && at.endpoint < |declared[at.conn].owners|
                         && declared[at.conn].owners[at.endpoint] == inst
  {
    if declared != [] {
      EndpointsListed(declared[..|declared| - 1], inst);
      OwnedListed(declared[|declared| - 1].owners, inst, |declared| - 1);
    }
  }

  lemma NextRef(conns: seq<Connection>, declared: seq<Declared>, table: map<string, nat>, inst: string, ref: nat,
                some: seq<EndpointIndex>, at: EndpointIndex)
    requires AllShaped(declared) && PartlyResolved(conns, declared, table, inst, ref, some) && inst !in table
    requires at.conn < |declared| && at.endpoint < |declared[at.conn].owners| && declared[at.conn].owners[at.endpoint] == inst
    ensures PartlyResolved(WithRef(conns, at, ref), declared, table, inst, ref, some + [at])
  {
  }

  lemma AllRefs(conns: seq<Connection>, declared: seq<Declared>, table: map<string, nat>, inst: string, ref: nat)
    requires AllShaped(declared) && PartlyResolved(conns, declared, table, inst, ref, EndpointsOf(declared, inst))
    ensures Resolved(conns, declared, table[inst := ref])
  {
    EndpointsListed(declared, inst);
  }

  lemma OtherTable(conns: seq<Connection>, declared: seq<Declared>, table: map<string, nat>, table': map<string, nat>)
    requires AllShaped(declared) && Resolved(conns, declared, table)
    requires forall c, e :: 0 <= c < |declared| && 0 <= e < |declared[c].owners| ==>
                              var o := declared[c].owners[e]; o in table && o in table' && table[o] == table'[o]
    ensures Resolved(conns, declared, table')
  {
  }

  lemma EndsAreOwners(table: map<string, seq<EndpointIndex>>, declared: seq<Declared>)
    requires Ends(table, declared) && NoneEmpty(table)
    ensures forall inst :: inst in table ==>
                             exists c, e :: 0 <= c < |declared| && 0 <= e < |declared[c].owners| && declared[c].owners[e] == inst
    ensures forall c, e :: 0 <= c < |declared| && 0 <= e < |declared[c].owners| ==> declared[c].owners[e] in table
  {
    forall inst | inst in table
      ensures exists c, e :: 0 <= c < |declared| && 0 <= e < |declared[c].owners| && declared[c].owners[e] == inst
    {
      EndpointsListed(declared, inst);
      var at := Lookup(table, inst)[0];
      assert at in EndpointsOf(declared, inst);
      assert declared[at.conn].owners[at.endpoint] == inst;
    }
    forall c, e | 0 <= c < |declared| && 0 <= e < |declared[c].owners|
      ensures declared[c].owners[e] in table
    {
      var inst := declared[c].owners[e];
      EndpointsListed(declared, inst);
      assert EndpointIndex(c, e) in EndpointsOf(declared, inst);
      assert EndpointsOf(declared, inst) == Lookup(table, inst);
    }
  }

  /** All keys of `ends` are components exactly when all owners are. */
  lemma OwnersRegistered(ends: map<string, seq<EndpointIndex>>, declared: seq<Declared>, table: map<string, nat>, ds: seq<Directive>)
    requires Ends(ends, declared) && NoneEmpty(ends) && declared == AllDeclared(ds)
    requires forall name :: Find(table, name) == ComponentNamed(ds, name)
    ensures ends.Keys <= table.Keys <==> AllOwned(ds)
  {
    EndsAreOwners(ends, declared);
    assert forall name :: name in table <==> Find(table, name).Some?;
  }

  lemma FullyResolved(conns: seq<Connection>, ds: seq<Directive>, table: map<string, nat>)
    requires AllShaped(AllDeclared(ds)) && Resolved(conns, AllDeclared(ds), table)
    requires forall name :: Find(table, name) == ComponentNamed(ds, name)
    ensures conns == ResolvedConnections(ds)
  {
    var declared := AllDeclared(ds);
    forall c | 0 <= c < |conns|
      ensures conns[c] == ResolvedConnection(ds, declared[c])
    {
      forall e | 0 <= e < |conns[c].internalEndpoint|
        ensures conns[c].internalEndpoint[e] == Resolve(ds, declared[c].conn.internalEndpoint[e], declared[c].owners[e])
      {
        assert Find(table, declared[c].owners[e]) == ComponentNamed(ds, declared[c].owners[e]);
      }
      assert conns[c].internalEndpoint == ResolvedConnection(ds, declared[c]).internalEndpoint;
    }
  }

  lemma NothingResolved(declared: seq<Declared>)
    requires AllShaped(declared)
    ensures Resolved(Plain(declared), declared, map[])
  {
  }

  // ------------------------------------------------------------------ one more directive

  lemma NextDirective(ds: seq<Directive>, d: Directive)
    ensures AllDeclared(ds + [d]) == AllDeclared(ds) + DeclaredBy(d.name, d.items)
    ensures AllArtifacts(ds + [d]) == AllArtifacts(ds) + ArtifactsOf(d.items)
    ensures Instances(ds + [d])
         == Instances(ds) + [Instance(d.name, NodeOf(d.items), ImplRef(Implementations(ds), d), ConfigProps(d.items))]
  {
    assert (ds + [d])[..|ds|] == ds;
  }

  ghost predicate ImplNames(table: map<Word, nat>, impls: seq<Implementation>) {
    forall name :: Find(table, name) == ImplNamed(impls, name)
  }

  lemma NextImplName(table: map<Word, nat>, impls: seq<Implementation>, impl: Implementation)
    requires ImplNames(table, impls)
    ensures ImplNames(table[impl.name := |impls|], impls + [impl])
  {
    var more := impls + [impl];
    assert more[..|impls|] == impls && more[|impls|] == impl;
    forall name
      ensures Find(table[impl.name := |impls|], name) == ImplNamed(more, name)
    {
      assert Find(table, name) == ImplNamed(impls, name);
    }
  }

  lemma NextImplementation(ds: seq<Directive>, d: Directive)
    ensures Implementations(ds + [d])
         == if ImplNamed(Implementations(ds), ImplName(d)).Some? then Implementations(ds)
            else Implementations(ds) + [NewImplementation(d, |AllArtifacts(ds)|)]
  {
    assert (ds + [d])[..|ds|] == ds;
  }

  lemma NextPlace(ds: seq<Directive>, d: Directive, place: Place)
    ensures IndicesOf(Places(ds + [d]), Some(place), |ds| + 1)
         == IndicesOf(Places(ds), Some(place), |ds|) + if PlaceOf(d) == Some(place) then [|ds|] else []
  {
    IndicesOfNext(Places(ds), PlaceOf(d), Some(place));
    assert Places(ds + [d]) == Places(ds) + [PlaceOf(d)];
  }

  ghost predicate IsPlanOf(plan: Plan, ds: seq<Directive>) {
    && plan.instance == Instances(ds) && plan.implementation == Implementations(ds) && plan.artifact == AllArtifacts(ds)
    && plan.connection == ResolvedConnections(ds)
    && Constrains(plan.localityConstraint, ds)
  }
}
