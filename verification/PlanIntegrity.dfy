/** What holds of every plan the loader accepts: dancex11/configurator/dancex11_config_loader.cpp. */
module PlanIntegrity {
  import opened Collections
  import opened Connections
  import opened DeploymentPlan
  import opened Directives
  import opened LoaderTables
  import opened Words

  // ------------------------------------------------------------------ which configurations are accepted

  /** No name of a component is used by a later component or container, no locality has two managers, no two
      connections have one name, and no item is incomplete or out of place. */
  ghost predicate Consistent(ds: seq<Directive>) {
    ItemsInOrder(ds) && NamesDistinct(AllDeclared(ds)) && ComponentsApart(ds) && ManagersApart(ds)
  }

  ghost predicate ItemsInOrder(ds: seq<Directive>) {
    forall i :: 0 <= i < |ds| ==> ItemsComplete(ds[i], ds[i].items)
  }

  ghost predicate ComponentsApart(ds: seq<Directive>) {
    forall i, j :: 0 <= i < j < |ds| && ds[i].Component? && !ds[j].LocalityManager? ==> ds[i].name != ds[j].name
  }

  ghost predicate ManagersApart(ds: seq<Directive>) {
    forall i, j :: 0 <= i < j < |ds| && ds[i].LocalityManager? && ds[j].LocalityManager? ==>
                     LocalityOf(ds[i]) != LocalityOf(ds[j])
  }

  lemma {:induction false} ComponentFound(ds: seq<Directive>, name: string)
    ensures ComponentNamed(ds, name).None? <==> forall i :: 0 <= i < |ds| && ds[i].Component? ==> ds[i].name != name
  {
    if ds != [] {
      ComponentFound(ds[..|ds| - 1], name);
    }
  }

  lemma {:induction false} ManagerFound(ds: seq<Directive>, locality: string)
    ensures ManagerOf(ds, locality).None?
       <==> forall i :: 0 <= i < |ds| && ds[i].LocalityManager? ==> LocalityOf(ds[i]) != locality
  {
    if ds != [] {
      ManagerFound(ds[..|ds| - 1], locality);
    }
  }

  lemma ItemsNext(ds: seq<Directive>, d: Directive)
    ensures ItemsInOrder(ds + [d]) <==> ItemsInOrder(ds) && ItemsComplete(d, d.items)
  {
    hide ItemsComplete;
    var more := ds + [d];
    assert more[|ds|] == d && forall i :: 0 <= i < |ds| ==> more[i] == ds[i];
  }

  lemma ComponentsNext(ds: seq<Directive>, d: Directive)
    ensures ComponentsApart(ds + [d])
       <==> ComponentsApart(ds) && (d.LocalityManager? || ComponentNamed(ds, d.name).None?)
  {
    var more := ds + [d];
    ComponentFound(ds, d.name);
    assert more[|ds|] == d && forall i :: 0 <= i < |ds| ==> more[i] == ds[i];
  }

  lemma ManagersNext(ds: seq<Directive>, d: Directive)
    ensures ManagersApart(ds + [d]) <==> ManagersApart(ds) && (d.LocalityManager? ==> ManagerOf(ds, LocalityOf(d)).None?)
  {
    hide LocalityOf;
    var more := ds + [d];
    ManagerFound(ds, LocalityOf(d));
    assert more[|ds|] == d && forall i :: 0 <= i < |ds| ==> more[i] == ds[i];
  }

  lemma ConsistentNext(ds: seq<Directive>, d: Directive)
    ensures Consistent(ds + [d]) <==> Consistent(ds) && Admits(ds, d)
  {
    hide ItemsInOrder, ComponentsApart, ManagersApart, ItemsComplete, LocalityOf, DeclaredBy;
    ItemsNext(ds, d);
    ComponentsNext(ds, d);
    ManagersNext(ds, d);
    NextDirective(ds, d);
    DistinctPrefix(AllDeclared(ds), AllDeclared(ds + [d]));
  }

  /** The directives are accepted one by one exactly when they are consistent as a whole. */
  lemma {:induction false} AcceptedExactly(ds: seq<Directive>)
    ensures AllAdmitted(ds) <==> Consistent(ds)
  {
    hide Admits;
    if ds != [] {
      var before, last := ds[..|ds| - 1], ds[|ds| - 1];
      AcceptedExactly(before);
      ConsistentNext(before, last);
      assert before + [last] == ds;
    }
  }

  // ------------------------------------------------------------------ instances and implementations

  lemma {:induction false} InstanceAt(ds: seq<Directive>, i: nat)
    requires i < |ds|
    ensures Instances(ds)[i]
         == Instance(ds[i].name, NodeOf(ds[i].items), ImplRef(Implementations(ds[..i]), ds[i]), ConfigProps(ds[i].items))
  {
    if i < |ds| - 1 {
      InstanceAt(ds[..|ds| - 1], i);
      assert ds[..|ds| - 1][..i] == ds[..i];
    }
  }

  lemma {:induction false} ImplementationsGrow(ds: seq<Directive>, n: nat)
    requires n <= |ds|
    ensures Implementations(ds[..n]) <= Implementations(ds) && AllArtifacts(ds[..n]) <= AllArtifacts(ds)
  {
    if n == |ds| {
      assert ds[..n] == ds;
    } else {
      ImplementationsGrow(ds[..|ds| - 1], n);
      assert ds[..|ds| - 1][..n] == ds[..n];
    }
  }

  /** `f` is the first directive with the implementation name of directive `i`. */
  ghost predicate FirstOfName(ds: seq<Directive>, i: nat, f: nat) {
    && f <= i < |ds| && ImplName(ds[f]) == ImplName(ds[i])
    && forall g :: 0 <= g < f ==> ImplName(ds[g]) != ImplName(ds[f])
  }

  lemma {:induction false} ImplFound(impls: seq<Implementation>, name: Word)
    ensures ImplNamed(impls, name).None? <==> forall r :: 0 <= r < |impls| ==> impls[r].name != name
  {
    if impls != [] {
      ImplFound(impls[..|impls| - 1], name);
    }
  }

  lemma {:induction false} ImplementationExists(ds: seq<Directive>, i: nat)
    requires i < |ds|
    ensures ImplNamed(Implementations(ds), ImplName(ds[i])).Some?
  {
    hide ImplName, NewImplementation;
    var before, last := ds[..|ds| - 1], ds[|ds| - 1];
    if i < |before| {
      ImplementationExists(before, i);
    }
    ImplFound(Implementations(before), ImplName(ds[i]));
    ImplFound(Implementations(ds), ImplName(ds[i]));
    NewName(last, |AllArtifacts(before)|);
  }

  lemma NewName(d: Directive, base: nat)
    ensures NewImplementation(d, base).name == ImplName(d)
  {
  }

  lemma NoImplementations()
    ensures Implementations([]) == []
  {
  }

  /** Every implementation was introduced by the first directive of its name. */
  lemma {:induction false} IntroducedBy(ds: seq<Directive>, r: nat) returns (f: nat)
    requires r < |Implementations(ds)|
    ensures f < |ds| && FirstOfName(ds, f, f)
    ensures Implementations(ds)[r] == NewImplementation(ds[f], |AllArtifacts(ds[..f])|)
  {
    hide ImplName, NewImplementation, Implementations, AllArtifacts;
    if ds == [] {
      NoImplementations();
      assert false;
    }
    var before, last := ds[..|ds| - 1], ds[|ds| - 1];
    NextImplementation(before, last);
    assert before + [last] == ds;
    if r < |Implementations(before)| {
      f := IntroducedBy(before, r);
      assert before[..f] == ds[..f];
    } else {
      f := |before|;
      forall g | 0 <= g < f
        ensures ImplName(ds[g]) != ImplName(last)
      {
        ImplementationExists(before, g);
      }
    }
  }

  lemma {:induction false} ImplementationNamesDistinct(ds: seq<Directive>)
    ensures forall r, s :: 0 <= r < s < |Implementations(ds)| ==> Implementations(ds)[r].name != Implementations(ds)[s].name
  {
    hide ImplName, NewImplementation;
    if ds != [] {
      var before, last := ds[..|ds| - 1], ds[|ds| - 1];
      ImplementationNamesDistinct(before);
      ImplFound(Implementations(before), ImplName(last));
      NewName(last, |AllArtifacts(before)|);
    }
  }

  lemma OwnImplementation(before: seq<Directive>, d: Directive)
    ensures var r, impls := ImplRef(Implementations(before), d), Implementations(before + [d]);
            r < |impls| && impls[r].name == ImplName(d)
  {
    hide Implementations, NewImplementation, ImplName;
    NextImplementation(before, d);
    NewName(d, |AllArtifacts(before)|);
  }

  /** An instance refers to the implementation of its name, as the first directive of that name declared it. */
  lemma ImplementationOf(ds: seq<Directive>, i: nat) returns (f: nat)
    requires i < |ds|
    ensures FirstOfName(ds, i, f)
    ensures var r := Instances(ds)[i].implementationRef;
            r < |Implementations(ds)| && Implementations(ds)[r] == NewImplementation(ds[f], |AllArtifacts(ds[..f])|)
  {
    hide Implementations, NewImplementation, ImplName, AllArtifacts, Instances, ImplRef;
    var next := ds[..i + 1];
    var r := ImplRef(Implementations(ds[..i]), ds[i]);
    InstanceAt(ds, i);
    OwnImplementation(ds[..i], ds[i]);
    assert ds[..i] + [ds[i]] == next;
    ImplementationsGrow(ds, i + 1);
    f := IntroducedBy(next, r);
    NewName(next[f], |AllArtifacts(next[..f])|);
    assert next[..f] == ds[..f];
  }

  /** The artifacts of an implementation are those its directive names. */
  lemma ArtifactsInPlace(ds: seq<Directive>, f: nat, k: nat)
    requires f < |ds| && k < |ArtifactsOf(ds[f].items)|
    ensures var at := |AllArtifacts(ds[..f])| + k;
            at < |AllArtifacts(ds)| && AllArtifacts(ds)[at] == ArtifactsOf(ds[f].items)[k]
  {
    hide AllArtifacts, ArtifactsOf, Implementations;
    ImplementationsGrow(ds, f + 1);
    NextDirective(ds[..f], ds[f]);
    assert ds[..f] + [ds[f]] == ds[..f + 1];
  }

  // ------------------------------------------------------------------ connections

  lemma {:induction false} LinksShaped(inst: string, peer: string, links: seq<Link>)
    requires LinksComplete(links)
    ensures AllShaped(DeclaredLinks(inst, peer, links))
  {
    if links != [] {
      LinksShaped(inst, peer, links[..|links| - 1]);
    }
  }

  lemma {:induction false} ExternalsShaped(inst: string, links: seq<ExternalLink>)
    requires ExternalsComplete(links)
    ensures AllShaped(DeclaredExternals(inst, links))
  {
    if links != [] {
      ExternalsShaped(inst, links[..|links| - 1]);
    }
  }

  lemma {:induction false} ItemsShaped(inst: string, items: seq<Item>)
    requires forall k :: 0 <= k < |items| ==> ItemComplete(items[k])
    ensures AllShaped(DeclaredBy(inst, items))
  {
    hide Shaped, DeclaredLinks, DeclaredExternals;
    if items != [] {
      var last := items[|items| - 1];
      ItemsShaped(inst, items[..|items| - 1]);
      assert ItemComplete(last);
      if last.ConnectTo? {
        LinksShaped(inst, last.peer, last.links);
      } else if last.ConnectExternal? {
        ExternalsShaped(inst, last.externalLinks);
      }
    }
  }

  lemma {:induction false} DeclarationsShaped(ds: seq<Directive>)
    requires ItemsInOrder(ds)
    ensures AllShaped(AllDeclared(ds))
  {
    hide Shaped, DeclaredBy, Takes;
    if ds != [] {
      DeclarationsShaped(ds[..|ds| - 1]);
      assert ItemsComplete(ds[|ds| - 1], ds[|ds| - 1].items);
      ItemsShaped(ds[|ds| - 1].name, ds[|ds| - 1].items);
    }
  }

  /** Every internal endpoint refers to the component that the configuration names. */
  lemma EndpointsResolved(plan: Plan, ds: seq<Directive>, c: nat, e: nat)
    requires IsPlanOf(plan, ds) && AllAdmitted(ds) && AllOwned(ds)
    requires c < |plan.connection| && e < |plan.connection[c].internalEndpoint|
    ensures c < |AllDeclared(ds)| && e < |AllDeclared(ds)[c].owners|
    ensures var i, owner := plan.connection[c].internalEndpoint[e].instanceRef, AllDeclared(ds)[c].owners[e];
            && i < |plan.instance| && plan.instance[i].name == owner
            && i < |ds| && ds[i].Component? && ds[i].name == owner
            && forall j :: 0 <= j < |ds| && ds[j].Component? && ds[j].name == owner ==> j == i
  {
    hide Constrains, AllDeclared, Implementations;
    AcceptedExactly(ds);
    DeclarationsShaped(ds);
    var d := AllDeclared(ds)[c];
    assert Shaped(d) && plan.connection[c] == ResolvedConnection(ds, d);
    var found := ComponentNamed(ds, d.owners[e]);
    InstanceAt(ds, found.value);
    assert ComponentsApart(ds);
  }

  /** An accepted plan is what the locality manager expects. */
  lemma PlanIsDeployable(plan: Plan, ds: seq<Directive>)
    requires IsPlanOf(plan, ds) && AllAdmitted(ds) && AllOwned(ds)
    ensures InRange(plan) && Connectable(plan)
  {
    hide Constrains, AllDeclared, Implementations, Instances, ResolvedConnection;
    AcceptedExactly(ds);
    DeclarationsShaped(ds);
    forall i | 0 <= i < |plan.instance|
      ensures plan.instance[i].implementationRef < |plan.implementation|
    {
      var f := ImplementationOf(ds, i);
    }
    forall c, e | 0 <= c < |plan.connection| && 0 <= e < |plan.connection[c].internalEndpoint|
      ensures plan.connection[c].internalEndpoint[e].instanceRef < |plan.instance|
    {
      EndpointsResolved(plan, ds, c, e);
    }
    forall c | 0 <= c < |plan.connection|
      ensures WellFormed(plan.connection[c]) && plan.connection[c].name == AllDeclared(ds)[c].conn.name
    {
      ShapeKept(ds, AllDeclared(ds)[c]);
    }
  }

  lemma ShapeKept(ds: seq<Directive>, d: Declared)
    requires Shaped(d)
    ensures WellFormed(ResolvedConnection(ds, d)) && ResolvedConnection(ds, d).name == d.conn.name
  {
  }

  /** All references of an accepted plan are what the configuration says, in the words of the plan alone and of the
      directives. */
  lemma ReferenceIntegrity(plan: Plan, ds: seq<Directive>, i: nat) returns (f: nat)
    requires IsPlanOf(plan, ds) && i < |ds|
    ensures |plan.instance| == |ds| && FirstOfName(ds, i, f)
    ensures plan.instance[i].name == ds[i].name && plan.instance[i].node == NodeOf(ds[i].items)
    ensures plan.instance[i].configProperty == ConfigProps(ds[i].items)
    ensures plan.instance[i].implementationRef < |plan.implementation|
    ensures var impl := plan.implementation[plan.instance[i].implementationRef];
            && impl.name == ImplName(ds[i])
            && impl.execParameter == ExecParams(ds[f].items) + StandardParams(ds[f])
            && |impl.artifactRef| == |ArtifactsOf(ds[f].items)|
            && forall k :: 0 <= k < |impl.artifactRef| ==>
                             && impl.artifactRef[k] < |plan.artifact|
                             && plan.artifact[impl.artifactRef[k]] == ArtifactsOf(ds[f].items)[k]
  {
    hide Constrains, AllArtifacts, Implementations, ResolvedConnections, Instances, ImplName;
    InstanceAt(ds, i);
    f := ImplementationOf(ds, i);
    NewName(ds[f], |AllArtifacts(ds[..f])|);
    var impl := plan.implementation[plan.instance[i].implementationRef];
    assert impl == NewImplementation(ds[f], |AllArtifacts(ds[..f])|);
    forall k | 0 <= k < |impl.artifactRef|
      ensures impl.artifactRef[k] < |plan.artifact| && plan.artifact[impl.artifactRef[k]] == ArtifactsOf(ds[f].items)[k]
    {
      ArtifactsInPlace(ds, f, k);
    }
  }

  /** Unless the execution parameters of its first directive say otherwise, a component has the component type, and
      other instances have the keyword of the first directive of their name as type. */
  lemma TypeOfInstance(plan: Plan, ds: seq<Directive>, i: nat) returns (f: nat)
    requires IsPlanOf(plan, ds) && i < |ds|
    ensures FirstOfName(ds, i, f)
    ensures NoTypeIn(ExecParams(ds[f].items)) ==> TypeOf(plan, i) == if ds[f].Component? then CcmComponent else ds[f].kind
  {
    f := ReferenceIntegrity(plan, ds, i);
    hide *;
    TypeAfter(ExecParams(ds[f].items), StandardParams(ds[f]));
    StandardType(ds[f]);
    TypeFromParams(plan, i);
  }

  predicate NoTypeIn(props: seq<Property>) {
    forall k :: 0 <= k < |props| ==> props[k].name !in {HomeFactory, ComponentFactory, ExplicitHome, ImplementationType}
  }

  lemma {:induction false} TypeAfter(props: seq<Property>, more: seq<Property>)
    ensures NoTypeIn(props) ==> GetInstanceType(props + more) == GetInstanceType(more)
  {
    if props == [] {
      assert props + more == more;
    } else {
      TypeAfter(props[1..], more);
      assert (props + more)[1..] == props[1..] + more && (props + more)[0] == props[0];
    }
  }

  lemma StandardType(d: Directive)
    ensures GetInstanceType(StandardParams(d)) == if d.Component? then CcmComponent else d.kind
  {
    var all := StandardParams(d);
    if d.Component? {
      assert all[1..][0] == all[1];
    }
  }

  lemma TypeFromParams(plan: Plan, i: nat)
    requires i < |plan.instance| && plan.instance[i].implementationRef < |plan.implementation|
    ensures TypeOf(plan, i) == GetInstanceType(plan.implementation[plan.instance[i].implementationRef].execParameter)
  {
  }

  // ------------------------------------------------------------------ containers are not registered

  /** Two containers of one name are accepted, and so is a component after a container of its name; the other order
      is refused. */
  lemma ContainerNamesAreNotChecked(kind: Word, name: string, artifact: string, factory: string)
    ensures var container, component := Container(kind, name, []), Component(kind, name, artifact, factory, Text(""), []);
            && Consistent([container, container]) && Consistent([container, component])
            && !Consistent([component, container])
  {
    var container, component := Container(kind, name, []), Component(kind, name, artifact, factory, Text(""), []);
    WithoutItems(container, container);
    WithoutItems(container, component);
    WithoutItems(component, container);
  }

  /** Two directives without items are consistent unless their names or localities clash. */
  lemma WithoutItems(a: Directive, b: Directive)
    requires a.items == [] && b.items == []
    ensures Consistent([a, b]) <==> && (a.Component? && !b.LocalityManager? ==> a.name != b.name)
                                    && (a.LocalityManager? && b.LocalityManager? ==> LocalityOf(a) != LocalityOf(b))
  {
    hide LocalityOf, AllDeclared, ItemComplete, Takes;
    NothingDeclared(a, b);
    var ds := [a, b];
    assert ds[0] == a && ds[1] == b;
    assert ItemsInOrder(ds);
    hide ItemsInOrder;
    assert ComponentsApart(ds) <==> (a.Component? && !b.LocalityManager? ==> a.name != b.name);
    assert ManagersApart(ds) <==> (a.LocalityManager? && b.LocalityManager? ==> LocalityOf(a) != LocalityOf(b));
  }

  lemma NothingDeclared(a: Directive, b: Directive)
    requires a.items == [] && b.items == []
    ensures AllDeclared([a, b]) == []
  {
    assert [a, b][..1] == [a] && [a][..0] == [];
    assert AllDeclared([a]) == AllDeclared([]) + DeclaredBy(a.name, []);
  }
}
