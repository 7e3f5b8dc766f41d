/** What every part of an accepted plan is, by the positions of the items it comes from:
    dancex11/configurator/dancex11_config_loader.cpp. */
module PlanContents {
  import opened Collections
  import opened DeploymentPlan
  import opened Directives
  import opened LoaderTables
  import opened LocalityPartition
  import opened PlanIntegrity
  import opened Words

  // ------------------------------------------------------------------ selections of items

  /** `ks` lists the positions of the selected items, in ascending order. */
  ghost predicate Selects(ks: seq<nat>, items: seq<Item>, selected: Item -> bool) {
    && (forall j :: 0 <= j < |ks| ==> ks[j] < |items| && selected(items[ks[j]]))
    && (forall k: nat :: k < |items| && selected(items[k]) ==> k in ks)
    && (forall i, j :: 0 <= i < j < |ks| ==> ks[i] < ks[j])
  }

  /** The positions of the selected items among the first `n`. */
  function Positions(items: seq<Item>, selected: Item -> bool, n: nat): seq<nat>
    requires n <= |items|
  {
    if n == 0 then []
    else if selected(items[n - 1]) then Positions(items, selected, n - 1) + [n - 1]
    else Positions(items, selected, n - 1)
  }

  lemma {:induction false} PositionsSelect(items: seq<Item>, selected: Item -> bool, n: nat)
    requires n <= |items|
    ensures Selects(Positions(items, selected, n), items[..n], selected)
    ensures forall j :: 0 <= j < |Positions(items, selected, n)| ==> Positions(items, selected, n)[j] < n
  {
    if n > 0 {
      PositionsSelect(items, selected, n - 1);
      var before, all := Positions(items, selected, n - 1), Positions(items, selected, n);
      assert forall k :: k in before ==> k in all;
      if selected(items[n - 1]) {
        assert all[|before|] == n - 1;
      }
    }
  }

  predicate BecomesConfig(item: Item) {
    item.ConfigProp? || item.InLocality? || item.ContainerId?
  }

  lemma {:induction false} ConfigAt(items: seq<Item>, n: nat)
    requires n <= |items|
    ensures var ks, props := Positions(items, BecomesConfig, n), ConfigProps(items[..n]);
            && |props| == |ks|
            && forall j :: 0 <= j < |ks| && ks[j] < |items| ==>
                 var item := items[ks[j]];
                 && (item.ConfigProp? ==> props[j] == item.prop)
                 && (item.InLocality? ==> props[j] == Property(ComponentLocality, Text(item.locality)))
                 && (item.ContainerId? ==> props[j] == Property(ComponentContainer, Text(item.id)))
  {
    if n > 0 {
      ConfigAt(items, n - 1);
      assert items[..n][..n - 1] == items[..n - 1];
    }
  }

  lemma {:induction false} ExecAt(items: seq<Item>, n: nat)
    requires n <= |items|
    ensures var ks, props := Positions(items, (item: Item) => item.ExecParam?, n), ExecParams(items[..n]);
            && |props| == |ks|
            && forall j :: 0 <= j < |ks| && ks[j] < |items| && items[ks[j]].ExecParam? ==> props[j] == items[ks[j]].prop
  {
    if n > 0 {
      ExecAt(items, n - 1);
      assert items[..n][..n - 1] == items[..n - 1];
    }
  }

  lemma {:induction false} ArtifactsAt(items: seq<Item>, n: nat)
    requires n <= |items|
    ensures var ks, arts := Positions(items, (item: Item) => item.UsesArtifact?, n), ArtifactsOf(items[..n]);
            && |arts| == |ks|
            && forall j :: 0 <= j < |ks| && ks[j] < |items| && items[ks[j]].UsesArtifact? ==> arts[j] == items[ks[j]].artifact
  {
    if n > 0 {
      ArtifactsAt(items, n - 1);
      assert items[..n][..n - 1] == items[..n - 1];
    }
  }

  // ------------------------------------------------------------------ node and locality

  /** The last of the items that name a node names this one; without any it is empty. */
  ghost predicate IsNode(items: seq<Item>, node: string) {
    && (forall k :: 0 <= k < |items| && items[k].OnNode? && (forall l :: k < l < |items| ==> !items[l].OnNode?) ==>
                      node == items[k].node)
    && ((forall k :: 0 <= k < |items| ==> !items[k].OnNode?) ==> node == "")
  }

  /** The last of the items that name a locality names this one; without any it is the default. */
  ghost predicate IsLocality(items: seq<Item>, locality: string, default: string) {
    && (forall k :: 0 <= k < |items| && items[k].InLocality? && (forall l :: k < l < |items| ==> !items[l].InLocality?) ==>
                      locality == items[k].locality)
    && ((forall k :: 0 <= k < |items| ==> !items[k].InLocality?) ==> locality == default)
  }

  lemma {:induction false} NodeIs(items: seq<Item>)
    ensures IsNode(items, NodeOf(items))
  {
    if items != [] {
      var before, last := items[..|items| - 1], items[|items| - 1];
      NodeIs(before);
      if !last.OnNode? {
        forall k | 0 <= k < |items| && items[k].OnNode? && (forall l :: k < l < |items| ==> !items[l].OnNode?)
          ensures NodeOf(items) == items[k].node
        {
          assert before[k] == items[k];
        }
      }
    }
  }

  lemma {:induction false} LocalityIs(items: seq<Item>, default: string)
    ensures IsLocality(items, LastLocality(items, default), default)
  {
    if items != [] {
      var before, last := items[..|items| - 1], items[|items| - 1];
      LocalityIs(before, default);
      if !last.InLocality? {
        forall k | 0 <= k < |items| && items[k].InLocality? && (forall l :: k < l < |items| ==> !items[l].InLocality?)
          ensures LastLocality(items, default) == items[k].locality
        {
          assert before[k] == items[k];
        }
      }
    }
  }

  /** Where an instance is constrained to be: on its node, and in the locality named last; a locality manager without
      one in the locality of its name, any other instance without one nowhere. */
  lemma PlaceSays(d: Directive)
    ensures PlaceOf(d).Some? ==> IsNode(d.items, PlaceOf(d).value.node)
    ensures PlaceOf(d).Some? ==> IsLocality(d.items, PlaceOf(d).value.locality, if d.LocalityManager? then d.name else "")
    ensures d.LocalityManager? ==> PlaceOf(d).Some?
    ensures !d.LocalityManager? ==> (PlaceOf(d).None? <==> IsLocality(d.items, "", ""))
  {
    NodeIs(d.items);
    LocalityIs(d.items, DefaultLocality(d));
    if !d.LocalityManager? && IsLocality(d.items, "", "") {
      SameLocality(d.items, LocalityOf(d), "", "");
    }
  }

  lemma {:induction false} LastNaming(items: seq<Item>) returns (k: nat)
    requires exists i :: 0 <= i < |items| && items[i].InLocality?
    ensures k < |items| && items[k].InLocality? && forall l :: k < l < |items| ==> !items[l].InLocality?
  {
    k := |items| - 1;
    if !items[k].InLocality? {
      k := LastNaming(items[..k]);
    }
  }

  /** Items determine the locality. */
  lemma SameLocality(items: seq<Item>, a: string, b: string, default: string)
    requires IsLocality(items, a, default) && IsLocality(items, b, default)
    ensures a == b
  {
    if exists i :: 0 <= i < |items| && items[i].InLocality? {
      var k := LastNaming(items);
    }
  }

  lemma {:induction false} LastNodeNaming(items: seq<Item>) returns (k: nat)
    requires exists i :: 0 <= i < |items| && items[i].OnNode?
    ensures k < |items| && items[k].OnNode? && forall l :: k < l < |items| ==> !items[l].OnNode?
  {
    k := |items| - 1;
    if !items[k].OnNode? {
      k := LastNodeNaming(items[..k]);
    }
  }

  lemma SameNode(items: seq<Item>, a: string, b: string)
    requires IsNode(items, a) && IsNode(items, b)
    ensures a == b
  {
    if exists i :: 0 <= i < |items| && items[i].OnNode? {
      var k := LastNodeNaming(items);
    }
  }

  /** What the items of a directive say of its node and locality, and that it is constrained at all. */
  ghost predicate IsPlaced(d: Directive, node: string, locality: string) {
    && IsNode(d.items, node) && IsLocality(d.items, locality, if d.LocalityManager? then d.name else "")
    && (d.LocalityManager? || locality != "")
  }

  lemma PlacedSays(d: Directive, node: string, locality: string)
    ensures IsPlaced(d, node, locality) <==> PlaceOf(d) == Some(Place(node, locality))
  {
    NodeIs(d.items);
    LocalityIs(d.items, DefaultLocality(d));
    if IsNode(d.items, node) && IsLocality(d.items, locality, DefaultLocality(d)) {
      SameNode(d.items, node, NodeOf(d.items));
      SameLocality(d.items, locality, LocalityOf(d), DefaultLocality(d));
    }
  }

  /** Two instances have to be in one process exactly when their items say the same node and the same locality. */
  lemma SameProcessSays(plan: Plan, ds: seq<Directive>, i: nat, j: nat)
    requires IsPlanOf(plan, ds) && i < |ds| && j < |ds|
    ensures (exists k :: && 0 <= k < |plan.localityConstraint| && plan.localityConstraint[k].kind == PlanSameProcess
                         && i in plan.localityConstraint[k].constrainedInstanceRef
                         && j in plan.localityConstraint[k].constrainedInstanceRef)
       <==> exists node, locality :: IsPlaced(ds[i], node, locality) && IsPlaced(ds[j], node, locality)
  {
    hide IsPlaced, PlaceOf;
    InstancesPartitioned(plan.localityConstraint, ds, i, j);
    if PlaceOf(ds[i]).Some? && PlaceOf(ds[i]) == PlaceOf(ds[j]) {
      var p := PlaceOf(ds[i]).value;
      PlacedSays(ds[i], p.node, p.locality);
      PlacedSays(ds[j], p.node, p.locality);
    }
    if node, locality :| IsPlaced(ds[i], node, locality) && IsPlaced(ds[j], node, locality) {
      PlacedSays(ds[i], node, locality);
      PlacedSays(ds[j], node, locality);
    }
  }

  // ------------------------------------------------------------------ instances and implementations

  /** An instance has the name and node of its directive, and as configuration properties its ConfigProp, InLocality and
      ContainerId items, in their order; `ks` are their positions. */
  lemma InstanceSays(plan: Plan, ds: seq<Directive>, i: nat) returns (ks: seq<nat>)
    requires IsPlanOf(plan, ds) && i < |ds|
    ensures |plan.instance| == |ds| && plan.instance[i].name == ds[i].name && IsNode(ds[i].items, plan.instance[i].node)
    ensures Selects(ks, ds[i].items, BecomesConfig) && |plan.instance[i].configProperty| == |ks|
    ensures forall j :: 0 <= j < |ks| ==>
              var item, prop := ds[i].items[ks[j]], plan.instance[i].configProperty[j];
              && (item.ConfigProp? ==> prop == item.prop)
              && (item.InLocality? ==> prop == Property(ComponentLocality, Text(item.locality)))
              && (item.ContainerId? ==> prop == Property(ComponentContainer, Text(item.id)))
  {
    hide IsPlanOf, Selects, IsNode, ConfigProps;
    var f := ReferenceIntegrity(plan, ds, i);
    var items := ds[i].items;
    NodeIs(items);
    ConfigAt(items, |items|);
    PositionsSelect(items, BecomesConfig, |items|);
    assert items[..|items|] == items;
    ks := Positions(items, BecomesConfig, |items|);
  }

  /** The name of the implementation that a directive asks for. */
  predicate IsImplName(d: Directive, name: Word) {
    match d
    case Component(_, _, artifact, factory, _, _) => name == Text(artifact + "." + factory)
    case LocalityManager(_, _, _) => name == LocalityManagerService
    case Container(_, _, _) => name == ContainerService
  }

  /** The parameters that follow those of the items. */
  predicate AreStandard(d: Directive, props: seq<Property>) {
    if d.Component? then
      props == [Property(ComponentArtifact, Text(d.artifact)), Property(ComponentFactory, Text(d.factory)),
                Property(OpenMode, d.openMode), Property(ImplementationType, d.kind)]
    else props == [Property(ImplementationType, d.kind)]
  }

  /** An instance refers to the implementation of its name, which has the execution parameters and artifacts of the
      first directive `f` that asks for this name: the ExecParam items at `es` in their order and then the standard ones,
      and the artifacts of the items at `arts`. */
  lemma ImplementationSays(plan: Plan, ds: seq<Directive>, i: nat) returns (f: nat, es: seq<nat>, arts: seq<nat>)
    requires IsPlanOf(plan, ds) && i < |ds|
    ensures i < |plan.instance| && plan.instance[i].implementationRef < |plan.implementation|
    ensures f <= i
    ensures var impl := plan.implementation[plan.instance[i].implementationRef];
            && IsImplName(ds[i], impl.name) && IsImplName(ds[f], impl.name)
            && (forall g :: 0 <= g < f ==> !IsImplName(ds[g], impl.name))
            && Selects(es, ds[f].items, (item: Item) => item.ExecParam?)
            && Selects(arts, ds[f].items, (item: Item) => item.UsesArtifact?)
            && |impl.execParameter| >= |es| && AreStandard(ds[f], impl.execParameter[|es|..])
            && (forall j :: 0 <= j < |es| ==> impl.execParameter[j] == ds[f].items[es[j]].prop)
            && |impl.artifactRef| == |arts|
            && (forall j :: 0 <= j < |arts| ==>
                              && impl.artifactRef[j] < |plan.artifact|
                              && plan.artifact[impl.artifactRef[j]] == ds[f].items[arts[j]].artifact)
  {
    f := ReferenceIntegrity(plan, ds, i);
    hide IsPlanOf, ExecParams, ArtifactsOf, StandardParams;
    var items := ds[f].items;
    var impl := plan.implementation[plan.instance[i].implementationRef];
    ExecAt(items, |items|);
    ArtifactsAt(items, |items|);
    PositionsSelect(items, (item: Item) => item.ExecParam?, |items|);
    PositionsSelect(items, (item: Item) => item.UsesArtifact?, |items|);
    assert items[..|items|] == items;
    es := Positions(items, (item: Item) => item.ExecParam?, |items|);
    arts := Positions(items, (item: Item) => item.UsesArtifact?, |items|);
    assert impl.execParameter[|es|..] == StandardParams(ds[f]);
    StandardAre(ds[f]);
  }

  lemma StandardAre(d: Directive)
    ensures AreStandard(d, StandardParams(d))
  {
  }

  /** The first property that has to do with the type decides it. */
  lemma {:induction false} FirstTypeDecides(props: seq<Property>, k: nat)
    requires k < |props| && NoTypeIn(props[..k]) && !NoTypeIn([props[k]])
    ensures GetInstanceType(props) == match props[k].name
                                      case HomeFactory => CcmHome
                                      case ComponentFactory => CcmComponent
                                      case ExplicitHome => CcmHomedComponent
                                      case _ => props[k].value
  {
    assert [props[k]][0] == props[k];
    if k > 0 {
      assert props[..k][0] == props[0];
      assert props[1..][..k - 1] == props[..k][1..];
      FirstTypeDecides(props[1..], k - 1);
    }
  }

  // ------------------------------------------------------------------ which items are accepted

  /** Links and external links are complete and written with an arrow, and only components have them; locality managers
      have no container. */
  lemma AcceptedItems(ds: seq<Directive>)
    ensures ItemsInOrder(ds) <==>
            forall i, k :: 0 <= i < |ds| && 0 <= k < |ds[i].items| ==>
              var d, item := ds[i], ds[i].items[k];
              && (item.ContainerId? ==> !d.LocalityManager?)
              && (item.ConnectTo? || item.ConnectExternal? ==> d.Component?)
              && (item.ConnectTo? ==>
                    forall l :: 0 <= l < |item.links| ==> item.links[l].link in "<>" && item.links[l].peerPort != "")
              && (item.ConnectExternal? ==>
                    forall l :: 0 <= l < |item.externalLinks| ==>
                      item.externalLinks[l].link in "<>" && item.externalLinks[l].location != "")
  {
  }

  // ------------------------------------------------------------------ connections

  /** Link `l` of item `k` of directive `i`. */
  datatype LinkAt = LinkAt(i: nat, k: nat, l: nat)

  predicate IsLinkAt(ds: seq<Directive>, at: LinkAt) {
    && at.i < |ds| && at.k < |ds[at.i].items|
    && var item := ds[at.i].items[at.k];
       (item.ConnectTo? && at.l < |item.links|) || (item.ConnectExternal? && at.l < |item.externalLinks|)
  }

  predicate Earlier(a: LinkAt, b: LinkAt) {
    a.i < b.i || (a.i == b.i && (a.k < b.k || (a.k == b.k && a.l < b.l)))
  }

  /** What the link declares. */
  function DeclaredAt(ds: seq<Directive>, at: LinkAt): Declared
    requires IsLinkAt(ds, at)
  {
    var d := ds[at.i];
    var item := d.items[at.k];
    if item.ConnectTo? then DeclaredLink(d.name, item.peer, item.links[at.l]) else DeclaredExternal(d.name, item.externalLinks[at.l])
  }

  /** The links at `ats`, in the order of the configuration, are what has been declared. */
  ghost predicate ListsLinks(ds: seq<Directive>, declared: seq<Declared>, ats: seq<LinkAt>) {
    && |ats| == |declared|
    && (forall c :: 0 <= c < |ats| ==> IsLinkAt(ds, ats[c]) && declared[c] == DeclaredAt(ds, ats[c]))
    && (forall a, b :: 0 <= a < b < |ats| ==> Earlier(ats[a], ats[b]))
  }

  lemma {:induction false} LinksAt(inst: string, peer: string, links: seq<Link>)
    ensures |DeclaredLinks(inst, peer, links)| == |links|
    ensures forall l :: 0 <= l < |links| ==> DeclaredLinks(inst, peer, links)[l] == DeclaredLink(inst, peer, links[l])
  {
    if links != [] {
      LinksAt(inst, peer, links[..|links| - 1]);
    }
  }

  lemma {:induction false} ExternalsAt(inst: string, links: seq<ExternalLink>)
    ensures |DeclaredExternals(inst, links)| == |links|
    ensures forall l :: 0 <= l < |links| ==> DeclaredExternals(inst, links)[l] == DeclaredExternal(inst, links[l])
  {
    if links != [] {
      ExternalsAt(inst, links[..|links| - 1]);
    }
  }

  function NumberOfLinks(item: Item): nat {
    if item.ConnectTo? then |item.links| else if item.ConnectExternal? then |item.externalLinks| else 0
  }

  function LinksOfItem(i: nat, k: nat, n: nat): seq<LinkAt> {
    seq(n, l requires 0 <= l < n => LinkAt(i, k, l))
  }

  function LinksOfItems(ds: seq<Directive>, i: nat, n: nat): seq<LinkAt>
    requires i < |ds| && n <= |ds[i].items|
  {
    if n == 0 then [] else LinksOfItems(ds, i, n - 1) + LinksOfItem(i, n - 1, NumberOfLinks(ds[i].items[n - 1]))
  }

  function AllLinks(ds: seq<Directive>, n: nat): seq<LinkAt>
    requires n <= |ds|
  {
    if n == 0 then [] else AllLinks(ds, n - 1) + LinksOfItems(ds, n - 1, |ds[n - 1].items|)
  }

  lemma ListsMore(ds: seq<Directive>, declared: seq<Declared>, ats: seq<LinkAt>, more: seq<Declared>, moreAts: seq<LinkAt>)
    requires ListsLinks(ds, declared, ats) && ListsLinks(ds, more, moreAts)
    requires forall a, b :: 0 <= a < |ats| && 0 <= b < |moreAts| ==> Earlier(ats[a], moreAts[b])
    ensures ListsLinks(ds, declared + more, ats + moreAts)
  {
    hide DeclaredAt, IsLinkAt, Earlier;
  }

  lemma ItemLinks(ds: seq<Directive>, i: nat, k: nat)
    requires i < |ds| && k < |ds[i].items|
    ensures var d, item := ds[i], ds[i].items[k];
            ListsLinks(ds, if item.ConnectTo? then DeclaredLinks(d.name, item.peer, item.links)
                           else if item.ConnectExternal? then DeclaredExternals(d.name, item.externalLinks) else [],
                       LinksOfItem(i, k, NumberOfLinks(item)))
  {
    hide DeclaredLink, DeclaredExternal;
    var item := ds[i].items[k];
    if item.ConnectTo? {
      LinksAt(ds[i].name, item.peer, item.links);
    } else if item.ConnectExternal? {
      ExternalsAt(ds[i].name, item.externalLinks);
    }
  }

  lemma {:induction false} ItemLinksListed(ds: seq<Directive>, i: nat, n: nat)
    requires i < |ds| && n <= |ds[i].items|
    ensures ListsLinks(ds, DeclaredBy(ds[i].name, ds[i].items[..n]), LinksOfItems(ds, i, n))
    ensures forall c :: 0 <= c < |LinksOfItems(ds, i, n)| ==> LinksOfItems(ds, i, n)[c].i == i && LinksOfItems(ds, i, n)[c].k < n
  {
    hide DeclaredLinks, DeclaredExternals, ListsLinks;
    var items := ds[i].items;
    if n > 0 {
      ItemLinksListed(ds, i, n - 1);
      assert items[..n][..n - 1] == items[..n - 1];
      ItemLinks(ds, i, n - 1);
      var item, before := items[n - 1], DeclaredBy(ds[i].name, items[..n - 1]);
      ListsMore(ds, before, LinksOfItems(ds, i, n - 1),
                if item.ConnectTo? then DeclaredLinks(ds[i].name, item.peer, item.links)
                else if item.ConnectExternal? then DeclaredExternals(ds[i].name, item.externalLinks) else [],
                LinksOfItem(i, n - 1, NumberOfLinks(item)));
      assert before + [] == before;
    } else {
      NoLinks(ds);
    }
  }

  lemma NoLinks(ds: seq<Directive>)
    ensures ListsLinks(ds, [], [])
  {
  }

  lemma {:induction false} ItemLinksAll(ds: seq<Directive>, i: nat, n: nat, at: LinkAt)
    requires i < |ds| && n <= |ds[i].items| && IsLinkAt(ds, at) && at.i == i && at.k < n
    ensures at in LinksOfItems(ds, i, n)
  {
    if at.k == n - 1 {
      assert LinksOfItem(i, n - 1, NumberOfLinks(ds[i].items[n - 1]))[at.l] == at;
    } else {
      ItemLinksAll(ds, i, n - 1, at);
    }
  }

  lemma {:induction false} LinksListed(ds: seq<Directive>, n: nat)
    requires n <= |ds|
    ensures ListsLinks(ds, AllDeclared(ds[..n]), AllLinks(ds, n))
    ensures forall c :: 0 <= c < |AllLinks(ds, n)| ==> AllLinks(ds, n)[c].i < n
  {
    hide DeclaredBy, ListsLinks, LinksOfItems;
    if n > 0 {
      var d := ds[n - 1];
      LinksListed(ds, n - 1);
      ItemLinksListed(ds, n - 1, |d.items|);
      assert ds[..n][..n - 1] == ds[..n - 1] && d.items[..|d.items|] == d.items;
      ListsMore(ds, AllDeclared(ds[..n - 1]), AllLinks(ds, n - 1), DeclaredBy(d.name, d.items), LinksOfItems(ds, n - 1, |d.items|));
    } else {
      NoLinks(ds);
    }
  }

  lemma {:induction false} LinksAll(ds: seq<Directive>, n: nat, at: LinkAt)
    requires n <= |ds| && IsLinkAt(ds, at) && at.i < n
    ensures at in AllLinks(ds, n)
  {
    if at.i == n - 1 {
      ItemLinksAll(ds, n - 1, |ds[n - 1].items|, at);
    } else {
      LinksAll(ds, n - 1, at);
    }
  }

  /** A name is that of a component. */
  ghost predicate IsComponentName(ds: seq<Directive>, name: string) {
    exists j :: 0 <= j < |ds| && ds[j].Component? && ds[j].name == name
  }

  lemma ComponentNames(ds: seq<Directive>, name: string)
    ensures ComponentNamed(ds, name).Some? <==> IsComponentName(ds, name)
  {
    ComponentFound(ds, name);
  }

  /** The plan can be finished exactly if every peer of a link is a component. */
  lemma OwnedExactly(ds: seq<Directive>)
    requires ItemsInOrder(ds)
    ensures AllOwned(ds) <==>
            forall at: LinkAt :: IsLinkAt(ds, at) && ds[at.i].items[at.k].ConnectTo? ==>
                                   IsComponentName(ds, ds[at.i].items[at.k].peer)
  {
    hide IsComponentName, AllDeclared, AllLinks, LinkComplete, ExternalComplete;
    var declared, ats := AllDeclared(ds), AllLinks(ds, |ds|);
    LinksListed(ds, |ds|);
    assert ds[..|ds|] == ds;
    if AllOwned(ds) {
      forall at: LinkAt | IsLinkAt(ds, at) && ds[at.i].items[at.k].ConnectTo?
        ensures IsComponentName(ds, ds[at.i].items[at.k].peer)
      {
        LinksAll(ds, |ds|, at);
        var c :| 0 <= c < |ats| && ats[c] == at;
        assert declared[c].owners[1] == ds[at.i].items[at.k].peer;
        ComponentNames(ds, declared[c].owners[1]);
      }
    } else {
      var c, e :| 0 <= c < |declared| && 0 <= e < |declared[c].owners| && ComponentNamed(ds, declared[c].owners[e]).None?;
      var at := ats[c];
      var d, item := ds[at.i], ds[at.i].items[at.k];
      ComponentNames(ds, declared[c].owners[e]);
      LinkOwner(ds, at);
      assert e == 1 && item.ConnectTo? && declared[c].owners[1] == item.peer;
    }
  }

  lemma LinkOwner(ds: seq<Directive>, at: LinkAt)
    requires ItemsInOrder(ds) && IsLinkAt(ds, at)
    ensures IsComponentName(ds, ds[at.i].name)
  {
    assert ItemsComplete(ds[at.i], ds[at.i].items);
    assert Takes(ds[at.i], ds[at.i].items[at.k]);
  }

  /** The internal endpoint at a port: it belongs to the component of the name. */
  predicate IsEndpoint(ds: seq<Directive>, ep: Endpoint, port: string, provider: bool, owner: string) {
    && ep.portName == port && ep.provider == provider && ep.kind == (if provider then Facet else SimplexReceptacle)
    && ep.instanceRef < |ds| && ds[ep.instanceRef].Component? && ds[ep.instanceRef].name == owner
  }

  /** The connection that a link between two components becomes. */
  predicate IsLinkBetween(ds: seq<Directive>, conn: Connection, inst: string, peer: string, link: Link) {
    && conn.name == inst + "." + link.port + ":" + peer + "." + link.peerPort
    && |conn.internalEndpoint| == 2 && conn.externalReference == [] && conn.externalEndpoint == []
    && IsEndpoint(ds, conn.internalEndpoint[0], link.port, link.link != '<', inst)
    && IsEndpoint(ds, conn.internalEndpoint[1], link.peerPort, link.link == '<', peer)
  }

  /** The connection that an external link becomes. */
  predicate IsExternalLink(ds: seq<Directive>, conn: Connection, inst: string, link: ExternalLink) {
    && conn.name == inst + "." + link.port + ":" + link.externalPort + "@" + link.location
    && |conn.internalEndpoint| == 1 && conn.externalEndpoint == []
    && IsEndpoint(ds, conn.internalEndpoint[0], link.port, link.link != '<', inst)
    && conn.externalReference == [ExternalReference(link.location, link.externalPort, link.link == '<')]
  }

  /** An accepted plan has one connection for each link, in the order of the configuration and no other; `ats` are the
      links. */
  lemma ConnectionsSay(plan: Plan, ds: seq<Directive>) returns (ats: seq<LinkAt>)
    requires IsPlanOf(plan, ds) && AllAdmitted(ds) && AllOwned(ds)
    ensures |ats| == |plan.connection| && forall a, b :: 0 <= a < b < |ats| ==> Earlier(ats[a], ats[b])
    ensures forall at: LinkAt :: IsLinkAt(ds, at) <==> at in ats
    ensures forall c :: 0 <= c < |ats| ==>
              && IsLinkAt(ds, ats[c])
              && var inst, item := ds[ats[c].i].name, ds[ats[c].i].items[ats[c].k];
                 if item.ConnectTo? then IsLinkBetween(ds, plan.connection[c], inst, item.peer, item.links[ats[c].l])
                 else IsExternalLink(ds, plan.connection[c], inst, item.externalLinks[ats[c].l])
  {
    hide IsPlanOf, AllDeclared, AllLinks, AllAdmitted, AllOwned, IsLinkBetween, IsExternalLink;
    ats := AllLinks(ds, |ds|);
    LinksListed(ds, |ds|);
    assert ds[..|ds|] == ds;
    forall at: LinkAt | IsLinkAt(ds, at)
      ensures at in ats
    {
      LinksAll(ds, |ds|, at);
    }
    AsDeclared(plan, ds);
    forall c | 0 <= c < |ats|
      ensures var inst, item := ds[ats[c].i].name, ds[ats[c].i].items[ats[c].k];
              if item.ConnectTo? then IsLinkBetween(ds, plan.connection[c], inst, item.peer, item.links[ats[c].l])
              else IsExternalLink(ds, plan.connection[c], inst, item.externalLinks[ats[c].l])
    {
      OneConnection(plan, ds, c, ats[c]);
    }
  }

  lemma AsDeclared(plan: Plan, ds: seq<Directive>)
    requires IsPlanOf(plan, ds)
    ensures |plan.connection| == |AllDeclared(ds)|
    ensures forall c :: 0 <= c < |plan.connection| ==> plan.connection[c] == ResolvedConnection(ds, AllDeclared(ds)[c])
  {
  }

  lemma OneConnection(plan: Plan, ds: seq<Directive>, c: nat, at: LinkAt)
    requires IsPlanOf(plan, ds) && AllAdmitted(ds) && AllOwned(ds)
    requires IsLinkAt(ds, at) && c < |plan.connection| == |AllDeclared(ds)| && AllDeclared(ds)[c] == DeclaredAt(ds, at)
    ensures var inst, item := ds[at.i].name, ds[at.i].items[at.k];
            if item.ConnectTo? then IsLinkBetween(ds, plan.connection[c], inst, item.peer, item.links[at.l])
            else IsExternalLink(ds, plan.connection[c], inst, item.externalLinks[at.l])
  {
    AsDeclared(plan, ds);
    hide IsPlanOf, AllDeclared, AllAdmitted, AllOwned;
    ResolvedEnd(plan, ds, c, 0);
    if ds[at.i].items[at.k].ConnectTo? {
      ResolvedEnd(plan, ds, c, 1);
    }
    hide IsEndpoint;
  }

  lemma ResolvedEnd(plan: Plan, ds: seq<Directive>, c: nat, e: nat)
    requires IsPlanOf(plan, ds) && AllAdmitted(ds) && AllOwned(ds)
    requires c < |plan.connection| == |AllDeclared(ds)| && e < |AllDeclared(ds)[c].conn.internalEndpoint|
    ensures e < |plan.connection[c].internalEndpoint| && e < |AllDeclared(ds)[c].owners|
    ensures var ep := AllDeclared(ds)[c].conn.internalEndpoint[e];
            ep.kind == (if ep.provider then Facet else SimplexReceptacle) ==>
              IsEndpoint(ds, plan.connection[c].internalEndpoint[e], ep.portName, ep.provider, AllDeclared(ds)[c].owners[e])
  {
    AsDeclared(plan, ds);
    hide IsPlanOf, AllDeclared, AllAdmitted, AllOwned;
    EndpointsResolved(plan, ds, c, e);
  }
}
