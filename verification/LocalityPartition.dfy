/** The locality constraints of a plan: dancex11/configurator/dancex11_config_loader.cpp, finalize_component_plan. */
module LocalityPartition {
  import opened Collections
  import opened DeploymentPlan
  import opened Directives
  import opened LoaderTables
  import opened Words

  /** What a constraint is about: the localities of a node, or one of them. */
  datatype Label = OfNode(node: string) | OfPlace(place: Place)

  function PlaceLabels(node: string, order: seq<string>): (r: seq<Label>)
    ensures |r| == |order| && forall k :: 0 <= k < |r| ==> r[k] == OfPlace(Place(node, order[k]))
  {
    seq(|order|, k requires 0 <= k < |order| => OfPlace(Place(node, order[k])))
  }

  function LabelsOf(nodes: seq<string>, orders: seq<seq<string>>): seq<Label>
    requires |nodes| == |orders|
  {
    if nodes == [] then []
    else
      var last := |nodes| - 1;
      LabelsOf(nodes[..last], orders[..last]) + ([OfNode(nodes[last])] + PlaceLabels(nodes[last], orders[last]))
  }

  /** `i` is the first instance of its locality, on node `n`. */
  ghost predicate IsFirst(ds: seq<Directive>, n: string, i: nat) {
    && i < |ds| && PlaceOf(ds[i]).Some? && PlaceOf(ds[i]).value.node == n
    && forall j :: 0 <= j < i ==> PlaceOf(ds[j]) != PlaceOf(ds[i])
  }

  ghost predicate Distinct<T>(s: seq<T>) {
    forall a, b :: 0 <= a < b < |s| ==> s[a] != s[b]
  }

  /** `c` is the constraint about `about`. */
  ghost predicate Fits(ds: seq<Directive>, about: Label, c: PlanLocality) {
    Distinct(c.constrainedInstanceRef) &&
    match about
    case OfPlace(p) =>
      && c.kind == PlanSameProcess && c.constrainedInstanceRef != []
      && forall i: nat :: i in c.constrainedInstanceRef <==> i < |ds| && PlaceOf(ds[i]) == Some(p)
    case OfNode(n) =>
      && c.kind == PlanDifferentProcess
      && forall i: nat :: i in c.constrainedInstanceRef <==> IsFirst(ds, n, i)
  }

  lemma {:induction false} GroupsAt(localities: map<string, seq<nat>>, order: seq<string>)
    ensures |Groups(localities, order)| == |order|
    ensures forall k :: 0 <= k < |order| ==>
                          Groups(localities, order)[k] == PlanLocality(PlanSameProcess, Lookup(localities, order[k]))
  {
    if order != [] {
      GroupsAt(localities, order[..|order| - 1]);
    }
  }

  lemma {:induction false} FirstsAt(localities: map<string, seq<nat>>, order: seq<string>)
    requires forall k :: 0 <= k < |order| ==> Lookup(localities, order[k]) != []
    ensures |Firsts(localities, order)| == |order|
    ensures forall k :: 0 <= k < |order| ==> Firsts(localities, order)[k] == Lookup(localities, order[k])[0]
  {
    if order != [] {
      FirstsAt(localities, order[..|order| - 1]);
    }
  }

  lemma PlaceListed(nodeMap: map<string, map<string, seq<nat>>>, ds: seq<Directive>, p: Place)
    requires PlacedIn(nodeMap, ds)
    ensures var list := AtPlace(nodeMap, p.node, p.locality);
            && (forall i: nat :: i in list <==> i < |ds| && PlaceOf(ds[i]) == Some(p))
            && (forall a, b :: 0 <= a < b < |list| ==> list[a] < list[b])
            && (list != [] <==> p.node in nodeMap && p.locality in nodeMap[p.node])
  {
    hide PlaceOf;
    IndicesListed(Places(ds), Some(p), |ds|);
    assert AtPlace(nodeMap, p.node, p.locality) == IndicesOf(Places(ds), Some(p), |ds|);
  }

  lemma PlaceFits(nodeMap: map<string, map<string, seq<nat>>>, ds: seq<Directive>, node: string, locality: string)
    requires PlacedIn(nodeMap, ds) && node in nodeMap && locality in nodeMap[node]
    ensures Fits(ds, OfPlace(Place(node, locality)), PlanLocality(PlanSameProcess, Lookup(nodeMap[node], locality)))
  {
    hide PlaceOf, PlacedIn;
    PlaceListed(nodeMap, ds, Place(node, locality));
  }

  lemma FirstOfPlace(nodeMap: map<string, map<string, seq<nat>>>, ds: seq<Directive>, p: Place)
    requires PlacedIn(nodeMap, ds) && AtPlace(nodeMap, p.node, p.locality) != []
    ensures var i := AtPlace(nodeMap, p.node, p.locality)[0]; i < |ds| && IsFirst(ds, p.node, i) && PlaceOf(ds[i]) == Some(p)
  {
    hide PlaceOf, PlacedIn;
    PlaceListed(nodeMap, ds, p);
    var list := AtPlace(nodeMap, p.node, p.locality);
    assert list[0] in list;
    forall j: nat | j < list[0]
      ensures PlaceOf(ds[j]) != Some(p)
    {
      assert forall a :: 0 <= a < |list| ==> list[0] <= list[a];
      assert j !in list;
    }
  }

  lemma FirstIsListed(nodeMap: map<string, map<string, seq<nat>>>, ds: seq<Directive>, node: string, i: nat)
    requires PlacedIn(nodeMap, ds) && IsFirst(ds, node, i)
    ensures var p := PlaceOf(ds[i]).value;
            p.node == node && AtPlace(nodeMap, node, p.locality) != [] && AtPlace(nodeMap, node, p.locality)[0] == i
  {
    hide PlaceOf, PlacedIn;
    var p := PlaceOf(ds[i]).value;
    PlaceListed(nodeMap, ds, p);
    var list := AtPlace(nodeMap, node, p.locality);
    assert i in list;
    FirstOfPlace(nodeMap, ds, p);
  }

  lemma FirstsFit(nodeMap: map<string, map<string, seq<nat>>>, ds: seq<Directive>, node: string, order: seq<string>)
    requires PlacedIn(nodeMap, ds) && node in nodeMap && Enumerates(order, nodeMap[node].Keys)
    ensures Fits(ds, OfNode(node), PlanLocality(PlanDifferentProcess, Firsts(nodeMap[node], order)))
  {
    hide PlaceOf, PlacedIn, IsFirst;
    var localities, firsts := nodeMap[node], Firsts(nodeMap[node], order);
    forall k | 0 <= k < |order|
      ensures Lookup(localities, order[k]) == AtPlace(nodeMap, node, order[k]) != []
    {
      assert order[k] in localities;
      PlaceListed(nodeMap, ds, Place(node, order[k]));
    }
    FirstsAt(localities, order);
    forall k | 0 <= k < |order|
      ensures firsts[k] < |ds| && IsFirst(ds, node, firsts[k]) && PlaceOf(ds[firsts[k]]) == Some(Place(node, order[k]))
    {
      FirstOfPlace(nodeMap, ds, Place(node, order[k]));
    }
    forall i: nat | IsFirst(ds, node, i)
      ensures i in firsts
    {
      FirstIsIn(nodeMap, ds, node, order, i);
    }
  }

  lemma FirstIsIn(nodeMap: map<string, map<string, seq<nat>>>, ds: seq<Directive>, node: string, order: seq<string>, i: nat)
    requires PlacedIn(nodeMap, ds) && node in nodeMap && Enumerates(order, nodeMap[node].Keys) && IsFirst(ds, node, i)
    requires |Firsts(nodeMap[node], order)| == |order|
    requires forall k :: 0 <= k < |order| ==> Lookup(nodeMap[node], order[k]) != []
    ensures i in Firsts(nodeMap[node], order)
  {
    hide PlaceOf, PlacedIn;
    FirstsAt(nodeMap[node], order);
    FirstIsListed(nodeMap, ds, node, i);
    var locality := PlaceOf(ds[i]).value.locality;
    assert locality in order;
    var k :| 0 <= k < |order| && order[k] == locality;
    assert Firsts(nodeMap[node], order)[k] == i;
  }

  ghost predicate AllFit(ds: seq<Directive>, labels: seq<Label>, cs: seq<PlanLocality>) {
    |labels| == |cs| && forall k :: 0 <= k < |cs| ==> Fits(ds, labels[k], cs[k])
  }

  lemma NodeFits(nodeMap: map<string, map<string, seq<nat>>>, ds: seq<Directive>, node: string, order: seq<string>)
    requires PlacedIn(nodeMap, ds) && node in nodeMap && Enumerates(order, nodeMap[node].Keys)
    ensures AllFit(ds, [OfNode(node)] + PlaceLabels(node, order), NodeConstraints(nodeMap[node], order))
  {
    hide PlacedIn, Fits;
    FirstsFit(nodeMap, ds, node, order);
    GroupsAt(nodeMap[node], order);
    forall k | 0 <= k < |order|
      ensures Fits(ds, PlaceLabels(node, order)[k], Groups(nodeMap[node], order)[k])
    {
      assert order[k] in nodeMap[node];
      PlaceFits(nodeMap, ds, node, order[k]);
    }
  }

  lemma {:induction false} NodesFit(nodeMap: map<string, map<string, seq<nat>>>, ds: seq<Directive>,
                                    nodes: seq<string>, orders: seq<seq<string>>)
    requires PlacedIn(nodeMap, ds) && |nodes| == |orders|
    requires forall k :: 0 <= k < |nodes| ==> nodes[k] in nodeMap && Enumerates(orders[k], nodeMap[nodes[k]].Keys)
    ensures AllFit(ds, LabelsOf(nodes, orders), NodeByNode(nodeMap, nodes, orders))
  {
    hide PlacedIn, Fits, Enumerates, NodeConstraints, PlaceLabels;
    if nodes != [] {
      var last := |nodes| - 1;
      NodesFit(nodeMap, ds, nodes[..last], orders[..last]);
      NodeFits(nodeMap, ds, nodes[last], orders[last]);
    }
  }

  /** Which labels there are. */
  lemma {:induction false} LabelsAre(nodes: seq<string>, orders: seq<seq<string>>)
    requires |nodes| == |orders| && Distinct(nodes) && forall k :: 0 <= k < |orders| ==> Distinct(orders[k])
    ensures forall n :: OfNode(n) in LabelsOf(nodes, orders) <==> n in nodes
    ensures forall p :: OfPlace(p) in LabelsOf(nodes, orders)
                   <==> exists k :: 0 <= k < |nodes| && nodes[k] == p.node && p.locality in orders[k]
    ensures Distinct(LabelsOf(nodes, orders))
  {
    if nodes != [] {
      var last := |nodes| - 1;
      var before, more := LabelsOf(nodes[..last], orders[..last]), [OfNode(nodes[last])] + PlaceLabels(nodes[last], orders[last]);
      LabelsAre(nodes[..last], orders[..last]);
      assert forall p :: OfPlace(p) in more <==> p.node == nodes[last] && p.locality in orders[last];
      assert nodes == nodes[..last] + [nodes[last]];
      assert forall a :: 0 <= a < |before| ==> before[a] !in more;
    }
  }

  ghost predicate Occupied(ds: seq<Directive>, p: Place) {
    exists i :: 0 <= i < |ds| && PlaceOf(ds[i]) == Some(p)
  }

  ghost predicate NodeUsed(ds: seq<Directive>, n: string) {
    exists i :: 0 <= i < |ds| && PlaceOf(ds[i]).Some? && PlaceOf(ds[i]).value.node == n
  }

  lemma KeysOccupied(nodeMap: map<string, map<string, seq<nat>>>, ds: seq<Directive>)
    requires PlacedIn(nodeMap, ds)
    ensures forall p: Place :: Occupied(ds, p) <==> p.node in nodeMap && p.locality in nodeMap[p.node]
    ensures forall n: string :: NodeUsed(ds, n) <==> n in nodeMap
  {
    forall p: Place
      ensures Occupied(ds, p) <==> p.node in nodeMap && p.locality in nodeMap[p.node]
    {
      PlaceOccupied(nodeMap, ds, p);
    }
    forall n: string
      ensures NodeUsed(ds, n) <==> n in nodeMap
    {
      NodeOccupied(nodeMap, ds, n);
    }
  }

  lemma PlaceOccupied(nodeMap: map<string, map<string, seq<nat>>>, ds: seq<Directive>, p: Place)
    requires PlacedIn(nodeMap, ds)
    ensures Occupied(ds, p) <==> p.node in nodeMap && p.locality in nodeMap[p.node]
  {
    hide PlaceOf, PlacedIn;
    PlaceListed(nodeMap, ds, p);
    var list := AtPlace(nodeMap, p.node, p.locality);
    if list != [] {
      assert list[0] in list;
    }
  }

  lemma NodeOccupied(nodeMap: map<string, map<string, seq<nat>>>, ds: seq<Directive>, n: string)
    requires PlacedIn(nodeMap, ds)
    ensures NodeUsed(ds, n) <==> n in nodeMap
  {
    hide PlaceOf;
    if n in nodeMap {
      assert nodeMap[n] != map[];
      var l :| l in nodeMap[n];
      PlaceOccupied(nodeMap, ds, Place(n, l));
    }
    if NodeUsed(ds, n) {
      var i :| 0 <= i < |ds| && PlaceOf(ds[i]).Some? && PlaceOf(ds[i]).value.node == n;
      PlaceOccupied(nodeMap, ds, PlaceOf(ds[i]).value);
    }
  }

  /** There is one constraint for each occupied place, with exactly its instances, and one for each node, with exactly
      the first instances of its localities, and no other. */
  lemma OneConstraintEach(cs: seq<PlanLocality>, ds: seq<Directive>) returns (labels: seq<Label>)
    requires Constrains(cs, ds)
    ensures AllFit(ds, labels, cs) && Distinct(labels)
    ensures forall p: Place :: OfPlace(p) in labels <==> Occupied(ds, p)
    ensures forall n: string :: OfNode(n) in labels <==> NodeUsed(ds, n)
  {
    hide PlacedIn, AllFit, NodeByNode, Occupied, NodeUsed, LabelsOf;
    var nodeMap, nodes, orders :| PlacedIn(nodeMap, ds) && ConstraintList(cs, nodeMap, nodes, orders);
    labels := LabelsOf(nodes, orders);
    NodesFit(nodeMap, ds, nodes, orders);
    LabelsAre(nodes, orders);
    KeysOccupied(nodeMap, ds);
    forall p: Place
      ensures OfPlace(p) in labels <==> Occupied(ds, p)
    {
      assert OfPlace(p) in labels <==> exists k :: 0 <= k < |nodes| && nodes[k] == p.node && p.locality in orders[k];
      if Occupied(ds, p) {
        assert p.node in nodes;
      }
    }
  }

  /** Every instance with a locality is in exactly one SameProcess constraint, the others are in none, and two instances
      share one exactly when they share node and locality. */
  lemma InstancesPartitioned(cs: seq<PlanLocality>, ds: seq<Directive>, i: nat, j: nat)
    requires Constrains(cs, ds) && i < |ds| && j < |ds|
    ensures PlaceOf(ds[i]).Some?
       <==> exists k :: 0 <= k < |cs| && cs[k].kind == PlanSameProcess && i in cs[k].constrainedInstanceRef
    ensures forall k, l :: 0 <= k < l < |cs| && cs[k].kind == PlanSameProcess && cs[l].kind == PlanSameProcess ==>
                             !(i in cs[k].constrainedInstanceRef && i in cs[l].constrainedInstanceRef)
    ensures (exists k :: && 0 <= k < |cs| && cs[k].kind == PlanSameProcess
                         && i in cs[k].constrainedInstanceRef && j in cs[k].constrainedInstanceRef)
       <==> PlaceOf(ds[i]).Some? && PlaceOf(ds[i]) == PlaceOf(ds[j])
  {
    hide PlaceOf, Constrains;
    var labels := OneConstraintEach(cs, ds);
    forall k | 0 <= k < |cs| && cs[k].kind == PlanSameProcess
      ensures labels[k].OfPlace?
      ensures forall m: nat :: m in cs[k].constrainedInstanceRef <==> m < |ds| && PlaceOf(ds[m]) == Some(labels[k].place)
    {
      assert Fits(ds, labels[k], cs[k]);
    }
    if PlaceOf(ds[i]).Some? {
      var p := PlaceOf(ds[i]).value;
      assert Occupied(ds, p);
      var k :| 0 <= k < |labels| && labels[k] == OfPlace(p);
      assert Fits(ds, labels[k], cs[k]);
      assert i in cs[k].constrainedInstanceRef;
    }
  }
}
