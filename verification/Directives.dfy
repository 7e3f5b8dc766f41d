/** The directives of a plan configuration, and what they declare:
    dancex11/configurator/dancex11_config_loader.cpp. */
module Directives {
  import opened Collections
  import opened DeploymentPlan
  import opened Words

  datatype Link = Link(port: string, link: char, peerPort: string)

  datatype ExternalLink = ExternalLink(port: string, link: char, externalPort: string, location: string)

  datatype Item =
    | ExecParam(prop: Property)
    | ConfigProp(prop: Property)
    | OnNode(node: string)
    | InLocality(locality: string)
    | ContainerId(id: string)
    | UsesArtifact(artifact: Artifact)
    | ConnectTo(peer: string, links: seq<Link>)
    | ConnectExternal(externalLinks: seq<ExternalLink>)

  /** `kind` is the keyword of the directive, which becomes the type of the implementation. */
  datatype Directive =
    | Component(kind: Word, name: string, artifact: string, factory: string, openMode: Word, items: seq<Item>)
    | LocalityManager(kind: Word, name: string, items: seq<Item>)
    | Container(kind: Word, name: string, items: seq<Item>)

  /** An item that a directive does not take is an unexpected token to the loader. */
  predicate Takes(d: Directive, item: Item) {
    match item
    case ContainerId(_) => !d.LocalityManager?
    case ConnectTo(_, _) => d.Component?
    case ConnectExternal(_) => d.Component?
    case _ => true
  }

  // ------------------------------------------------------------------ items

  function ExecParams(items: seq<Item>): seq<Property> {
    if items == [] then []
    else
      var last := items[|items| - 1];
      if last.ExecParam? then ExecParams(items[..|items| - 1]) + [last.prop] else ExecParams(items[..|items| - 1])
  }

  /** Locality and container items become configuration properties as well. */
  function ConfigProps(items: seq<Item>): seq<Property> {
    if items == [] then []
    else
      var before, last := ConfigProps(items[..|items| - 1]), items[|items| - 1];
      if last.ConfigProp? then before + [last.prop]
      else if last.InLocality? then before + [Property(ComponentLocality, Text(last.locality))]
      else if last.ContainerId? then before + [Property(ComponentContainer, Text(last.id))]
      else before
  }

  function NodeOf(items: seq<Item>): string {
    if items == [] then ""
    else if items[|items| - 1].OnNode? then items[|items| - 1].node
    else NodeOf(items[..|items| - 1])
  }

  function LastLocality(items: seq<Item>, default: string): string {
    if items == [] then default
    else if items[|items| - 1].InLocality? then items[|items| - 1].locality
    else LastLocality(items[..|items| - 1], default)
  }

  function ArtifactsOf(items: seq<Item>): seq<Artifact> {
    if items == [] then []
    else
      var last := items[|items| - 1];
      if last.UsesArtifact? then ArtifactsOf(items[..|items| - 1]) + [last.artifact] else ArtifactsOf(items[..|items| - 1])
  }

  // ------------------------------------------------------------------ connections

  /** A connection with the names of the instances its internal endpoints belong to. */
  datatype Declared = Declared(conn: Connection, owners: seq<string>)

  predicate IsLink(c: char) {
    c == '<' || c == '>'
  }

  function LinkName(inst: string, peer: string, l: Link): string {
    inst + "." + l.port + ":" + peer + "." + l.peerPort
  }

  function ExternalName(inst: string, l: ExternalLink): string {
    inst + "." + l.port + ":" + l.externalPort + "@" + l.location
  }

  /** Port `port` uses the peer where the link is '<' and provides to it otherwise. */
  function PortEndpoint(port: string, provider: bool): Endpoint {
    Endpoint(port, provider, if provider then Facet else SimplexReceptacle, 0)
  }

  function DeclaredLink(inst: string, peer: string, l: Link): Declared {
    Declared(Connection(LinkName(inst, peer, l),
                        [PortEndpoint(l.port, l.link != '<'), PortEndpoint(l.peerPort, l.link == '<')], [], []),
             [inst, peer])
  }

  function DeclaredExternal(inst: string, l: ExternalLink): Declared {
    Declared(Connection(ExternalName(inst, l),
                        [PortEndpoint(l.port, l.link != '<')],
                        [ExternalReference(l.location, l.externalPort, l.link == '<')], []),
             [inst])
  }

  function DeclaredLinks(inst: string, peer: string, links: seq<Link>): seq<Declared> {
    if links == [] then []
    else DeclaredLinks(inst, peer, links[..|links| - 1]) + [DeclaredLink(inst, peer, links[|links| - 1])]
  }

  function DeclaredExternals(inst: string, links: seq<ExternalLink>): seq<Declared> {
    if links == [] then []
    else DeclaredExternals(inst, links[..|links| - 1]) + [DeclaredExternal(inst, links[|links| - 1])]
  }

  function DeclaredBy(inst: string, items: seq<Item>): seq<Declared> {
    if items == [] then []
    else
      var before, last := DeclaredBy(inst, items[..|items| - 1]), items[|items| - 1];
      if last.ConnectTo? then before + DeclaredLinks(inst, last.peer, last.links)
      else if last.ConnectExternal? then before + DeclaredExternals(inst, last.externalLinks)
      else before
  }

  predicate LinkComplete(l: Link) {
    IsLink(l.link) && |l.peerPort| > 0
  }

  predicate ExternalComplete(l: ExternalLink) {
    IsLink(l.link) && |l.location| > 0
  }

  predicate LinksComplete(links: seq<Link>) {
    forall k :: 0 <= k < |links| ==> LinkComplete(links[k])
  }

  predicate ExternalsComplete(links: seq<ExternalLink>) {
    forall k :: 0 <= k < |links| ==> ExternalComplete(links[k])
  }

  predicate ItemComplete(item: Item) {
    match item
    case ConnectTo(_, links) => LinksComplete(links)
    case ConnectExternal(links) => ExternalsComplete(links)
    case _ => true
  }

  predicate ItemsComplete(d: Directive, items: seq<Item>) {
    forall k :: 0 <= k < |items| ==> Takes(d, items[k]) && ItemComplete(items[k])
  }

  predicate NamesDistinct(declared: seq<Declared>) {
    forall c, d :: 0 <= c < d < |declared| ==> declared[c].conn.name != declared[d].conn.name
  }

  // what a prefix of links or items declares is a prefix of what all declare

  lemma {:induction false} LinksPrefix(inst: string, peer: string, links: seq<Link>, k: nat)
    requires k <= |links|
    ensures DeclaredLinks(inst, peer, links[..k]) <= DeclaredLinks(inst, peer, links)
  {
    if k == |links| {
      assert links[..k] == links;
    } else {
      LinksPrefix(inst, peer, links[..|links| - 1], k);
      assert links[..|links| - 1][..k] == links[..k];
    }
  }

  lemma {:induction false} ExternalsPrefix(inst: string, links: seq<ExternalLink>, k: nat)
    requires k <= |links|
    ensures DeclaredExternals(inst, links[..k]) <= DeclaredExternals(inst, links)
  {
    if k == |links| {
      assert links[..k] == links;
    } else {
      ExternalsPrefix(inst, links[..|links| - 1], k);
      assert links[..|links| - 1][..k] == links[..k];
    }
  }

  lemma {:induction false} ItemsPrefix(inst: string, items: seq<Item>, k: nat)
    requires k <= |items|
    ensures DeclaredBy(inst, items[..k]) <= DeclaredBy(inst, items)
  {
    if k == |items| {
      assert items[..k] == items;
    } else {
      ItemsPrefix(inst, items[..|items| - 1], k);
      assert items[..|items| - 1][..k] == items[..k];
    }
  }

  /** All connections, in the order of their declaration. */
  function AllDeclared(ds: seq<Directive>): seq<Declared> {
    if ds == [] then []
    else AllDeclared(ds[..|ds| - 1]) + DeclaredBy(ds[|ds| - 1].name, ds[|ds| - 1].items)
  }

  // ------------------------------------------------------------------ instances and implementations

  function ImplName(d: Directive): Word {
    match d
    case Component(_, _, artifact, factory, _, _) => Text(artifact + "." + factory)
    case LocalityManager(_, _, _) => LocalityManagerService
    case Container(_, _, _) => ContainerService
  }

  function StandardParams(d: Directive): seq<Property> {
    (if d.Component? then
       [Property(ComponentArtifact, Text(d.artifact)), Property(ComponentFactory, Text(d.factory)),
        Property(OpenMode, d.openMode)]
     else [])
    + [Property(ImplementationType, d.kind)]
  }

  function AllArtifacts(ds: seq<Directive>): seq<Artifact> {
    if ds == [] then [] else AllArtifacts(ds[..|ds| - 1]) + ArtifactsOf(ds[|ds| - 1].items)
  }

  function UpFrom(base: nat, n: nat): (r: seq<nat>)
    ensures |r| == n && forall k :: 0 <= k < n ==> r[k] == base + k
  {
    seq(n, k requires 0 <= k < n => base + k)
  }

  /** The implementation a directive introduces when `base` artifacts precede its own. */
  function NewImplementation(d: Directive, base: nat): Implementation {
    Implementation(ImplName(d), ExecParams(d.items) + StandardParams(d), UpFrom(base, |ArtifactsOf(d.items)|))
  }

  function ImplNamed(impls: seq<Implementation>, name: Word): (r: Option<nat>)
    ensures r.Some? ==> r.value < |impls| && impls[r.value].name == name
  {
    if impls == [] then None
    else if impls[|impls| - 1].name == name then Some(|impls| - 1)
    else ImplNamed(impls[..|impls| - 1], name)
  }

  /** The first directive with an implementation name introduces the implementation, later ones reuse it. */
  function Implementations(ds: seq<Directive>): seq<Implementation> {
    if ds == [] then []
    else
      var before, d := ds[..|ds| - 1], ds[|ds| - 1];
      if ImplNamed(Implementations(before), ImplName(d)).Some? then Implementations(before)
      else Implementations(before) + [NewImplementation(d, |AllArtifacts(before)|)]
  }

  function ImplRef(impls: seq<Implementation>, d: Directive): nat {
    var found := ImplNamed(impls, ImplName(d));
    if found.Some? then found.value else |impls|
  }

  function Instances(ds: seq<Directive>): (r: seq<Instance>)
    ensures |r| == |ds|
  {
    if ds == [] then []
    else
      var before, d := ds[..|ds| - 1], ds[|ds| - 1];
      Instances(before) + [Instance(d.name, NodeOf(d.items), ImplRef(Implementations(before), d), ConfigProps(d.items))]
  }

  /** The component instances, by name: only components are registered. */
  function ComponentNamed(ds: seq<Directive>, name: string): (r: Option<nat>)
    ensures r.Some? ==> r.value < |ds| && ds[r.value].Component? && ds[r.value].name == name
  {
    if ds == [] then None
    else if ds[|ds| - 1].Component? && ds[|ds| - 1].name == name then Some(|ds| - 1)
    else ComponentNamed(ds[..|ds| - 1], name)
  }

  // ------------------------------------------------------------------ localities

  datatype Place = Place(node: string, locality: string)

  /** By default the locality of a locality manager is its name. */
  function DefaultLocality(d: Directive): string {
    if d.LocalityManager? then d.name else ""
  }

  function LocalityOf(d: Directive): string {
    LastLocality(d.items, DefaultLocality(d))
  }

  /** Where an instance is constrained to be: components and containers only if they name a locality. */
  function PlaceOf(d: Directive): Option<Place> {
    if d.LocalityManager? || LocalityOf(d) != "" then Some(Place(NodeOf(d.items), LocalityOf(d))) else None
  }

  function Places(ds: seq<Directive>): (r: seq<Option<Place>>)
    ensures |r| == |ds| && forall i :: 0 <= i < |ds| ==> r[i] == PlaceOf(ds[i])
  {
    seq(|ds|, i requires 0 <= i < |ds| => PlaceOf(ds[i]))
  }

  /** The locality managers, by locality. */
  function ManagerOf(ds: seq<Directive>, locality: string): (r: Option<nat>)
    ensures r.Some? ==> r.value < |ds| && ds[r.value].LocalityManager? && LocalityOf(ds[r.value]) == locality
  {
    if ds == [] then None
    else if ds[|ds| - 1].LocalityManager? && LocalityOf(ds[|ds| - 1]) == locality then Some(|ds| - 1)
    else ManagerOf(ds[..|ds| - 1], locality)
  }

  /** The place does not depend on the order of a node item and a locality item, or of either and another item. */
  lemma {:induction false} PlaceIgnoresOrder(before: seq<Item>, x: Item, y: Item, after: seq<Item>, default: string)
    requires !(x.OnNode? && y.OnNode?) && !(x.InLocality? && y.InLocality?)
    ensures NodeOf(before + [x, y] + after) == NodeOf(before + [y, x] + after)
    ensures LastLocality(before + [x, y] + after, default) == LastLocality(before + [y, x] + after, default)
  {
    var a, b := before + [x, y] + after, before + [y, x] + after;
    if after == [] {
      assert a[..|a| - 1] == before + [x] && b[..|b| - 1] == before + [y];
      assert (before + [x])[..|before|] == before && (before + [y])[..|before|] == before;
    } else {
      PlaceIgnoresOrder(before, x, y, after[..|after| - 1], default);
      assert a[..|a| - 1] == before + [x, y] + after[..|after| - 1];
      assert b[..|b| - 1] == before + [y, x] + after[..|after| - 1];
    }
  }

  // ------------------------------------------------------------------ which directives are accepted

  /** What lets the loader take `d` after `ds`. */
  predicate Admits(ds: seq<Directive>, d: Directive) {
    && ItemsComplete(d, d.items)
    && NamesDistinct(AllDeclared(ds) + DeclaredBy(d.name, d.items))
    && (d.LocalityManager? ==> ManagerOf(ds, LocalityOf(d)).None?)
    && (!d.LocalityManager? ==> ComponentNamed(ds, d.name).None?)
  }

  predicate AllAdmitted(ds: seq<Directive>) {
    ds == [] || (AllAdmitted(ds[..|ds| - 1]) && Admits(ds[..|ds| - 1], ds[|ds| - 1]))
  }

  lemma {:induction false} AdmittedPrefix(ds: seq<Directive>, n: nat)
    requires n <= |ds|
    ensures AllAdmitted(ds) ==> AllAdmitted(ds[..n])
  {
    if n == |ds| {
      assert ds[..n] == ds;
    } else {
      AdmittedPrefix(ds[..|ds| - 1], n);
      assert ds[..|ds| - 1][..n] == ds[..n];
    }
  }

  lemma AdmittedNext(ds: seq<Directive>, n: nat)
    requires n < |ds|
    ensures AllAdmitted(ds[..n + 1]) <==> AllAdmitted(ds[..n]) && Admits(ds[..n], ds[n])
    ensures ds[..n + 1] == ds[..n] + [ds[n]]
  {
    OneMore(ds, n);
  }

  // ------------------------------------------------------------------ the finished plan

  function Resolve(ds: seq<Directive>, ep: Endpoint, owner: string): Endpoint {
    var found := ComponentNamed(ds, owner);
    if found.Some? then ep.(instanceRef := found.value) else ep
  }

  /** A connection whose endpoints refer to the instances of their owners. */
  function ResolvedConnection(ds: seq<Directive>, d: Declared): Connection {
    d.conn.(internalEndpoint :=
      seq(|d.conn.internalEndpoint|, e requires 0 <= e < |d.conn.internalEndpoint| =>
            if e < |d.owners| then Resolve(ds, d.conn.internalEndpoint[e], d.owners[e]) else d.conn.internalEndpoint[e]))
  }

  function ResolvedConnections(ds: seq<Directive>): (r: seq<Connection>)
    ensures |r| == |AllDeclared(ds)|
    ensures forall c :: 0 <= c < |r| ==> r[c] == ResolvedConnection(ds, AllDeclared(ds)[c])
  {
    var declared := AllDeclared(ds);
    seq(|declared|, c requires 0 <= c < |declared| => ResolvedConnection(ds, declared[c]))
  }

  /** Every connection is between components. */
  ghost predicate AllOwned(ds: seq<Directive>) {
    forall c, e :: 0 <= c < |AllDeclared(ds)| && 0 <= e < |AllDeclared(ds)[c].owners| ==>
                     ComponentNamed(ds, AllDeclared(ds)[c].owners[e]).Some?
  }
}
