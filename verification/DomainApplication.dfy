/** The fan-out of an application over its nodes: dancex11/domain_deployment_handler/dancex11_ddh_application_impl.cpp,
    waiting as in dancex11/scheduler/deployment_orb_wait_strategy.cpp. */
module DomainApplication {
  import opened Collections
  import opened Scheduling

  type Reference = nat

  /** A node application manager and the identifier of its node. */
  datatype Target = Target(manager: Reference, node: string)

  /** What a node answers to startLaunch or destroyApplication; a nil application counts as a failure. */
  datatype Reply = Returned(app: Option<Reference>, refs: seq<string>) | RaisedException(text: string)

  datatype NamResult = Success(manager: Reference, node: string, app: Option<Reference>, refs: seq<string>) | Error(text: string)

  /** How request k to a node goes: sending it may raise at once, otherwise a reply arrives some time. */
  datatype Network = Network(sendRaises: nat -> bool, reply: nat -> Reply)

  datatype Deployed = Deployed(app: Reference, manager: Reference)

  datatype AppNode = AppNode(app: Reference, node: string)

  datatype Request = Request(manager: Reference, app: Option<Reference>)

  /** The result of request k, whenever it arrives. */
  function ResultOf(net: Network, targets: seq<Target>, k: nat): NamResult
    requires k < |targets|
  {
    if net.sendRaises(k) then Error("CORBA exception")
    else
      match net.reply(k)
      case Returned(app, refs) => Success(targets[k].manager, targets[k].node, app, refs)
      case RaisedException(text) => Error(text)
  }

  predicate Launched(r: NamResult) {
    r.Success? && r.app.Some?
  }

  // ------------------------------------------------------------------ one round of requests

  /** All futures below `n` have been accepted; those in `outstanding` wait for a reply. */
  ghost predicate Sent(c: Completion, values: map<nat, NamResult>, outstanding: set<nat>, n: nat)
    reads c
  {
    && c.Valid(values.Keys) && c.handedOut == []
    && c.attached == Below(n) && outstanding == Below(n) - values.Keys
  }

  /** Every value is the result of its request. */
  ghost predicate Correct(net: Network, targets: seq<Target>, values: map<nat, NamResult>) {
    forall k :: k in values ==> k < |targets| && values[k] == ResultOf(net, targets, k)
  }

  /** Completes request `k`: its future gets its value and notifies the completion object. */
  method Complete(c: Completion, values: map<nat, NamResult>, outstanding: set<nat>, k: nat, result: NamResult, ghost n: nat)
    returns (values': map<nat, NamResult>, outstanding': set<nat>)
    requires Sent(c, values, outstanding, n) && k in outstanding
    modifies c`execCount, c`completed
    ensures values' == values[k := result] && outstanding' == outstanding - {k}
    ensures Sent(c, values', outstanding', n)
  {
    hide Counts, Below;
    values' := values[k := result];
    outstanding' := outstanding - {k};
    assert values'.Keys == values.Keys + {k};
    OneLess(Below(n), values.Keys, k);
    c.Notify(k, values.Keys);
  }

  lemma OneMoreBelow(keys: set<nat>, k: nat)
    requires k !in keys
    ensures Below(k + 1) == Below(k) + {k} && Below(k) + {k} - keys == Below(k) - keys + {k}
  {
  }

  lemma OneLess(all: set<nat>, keys: set<nat>, k: nat)
    ensures all - (keys + {k}) == all - keys - {k}
  {
  }

  /** Accepts the future of request `k` before the request is sent. */
  method AcceptNext(c: Completion, values: map<nat, NamResult>, outstanding: set<nat>, k: nat) returns (outstanding': set<nat>)
    requires Sent(c, values, outstanding, k) && forall v :: v in values ==> v < k
    modifies c`execCount, c`completed, c`attached
    ensures outstanding' == outstanding + {k} && Sent(c, values, outstanding', k + 1)
  {
    hide Counts, Below;
    BelowSize(k);
    OneMoreBelow(values.Keys, k);
    c.Accept(k, values.Keys);
    outstanding' := outstanding + {k};
  }

  /** The loop over the nodes: a request that cannot be sent completes with an error. */
  method SendAll(net: Network, targets: seq<Target>, c: Completion)
    returns (values: map<nat, NamResult>, outstanding: set<nat>)
    requires Sent(c, map[], {}, 0)
    modifies c`execCount, c`completed, c`attached
    ensures Sent(c, values, outstanding, |targets|) && Correct(net, targets, values)
  {
    hide Sent;
    values, outstanding := map[], {};
    for k := 0 to |targets|
      invariant Sent(c, values, outstanding, k) && Correct(net, targets, values)
      invariant forall v :: v in values ==> v < k
    {
      outstanding := AcceptNext(c, values, outstanding, k);
      if net.sendRaises(k) {
        values, outstanding := Complete(c, values, outstanding, k, ResultOf(net, targets, k), k + 1);
      }
    }
  }

  /** Requests are completed as long as the counter is not zero, in whatever order the replies come in. */
  method WaitForAll(net: Network, targets: seq<Target>, c: Completion, values0: map<nat, NamResult>, outstanding0: set<nat>)
    returns (values: map<nat, NamResult>)
    requires Sent(c, values0, outstanding0, |targets|) && Correct(net, targets, values0) && |targets| < U32
    modifies c`execCount, c`completed
    ensures Sent(c, values, {}, |targets|) && Correct(net, targets, values)
  {
    hide Counts;
    BelowSize(|targets|);
    values := values0;
    var outstanding := outstanding0;
    while c.execCount != 0
      invariant Sent(c, values, outstanding, |targets|) && Correct(net, targets, values)
      decreases outstanding
    {
      CounterSays(c, values, outstanding, |targets|);
      // perform_work delivers some reply
      var k :| k in outstanding;
      values, outstanding := Complete(c, values, outstanding, k, ResultOf(net, targets, k), |targets|);
    }
    CounterSays(c, values, outstanding, |targets|);
  }

  lemma CounterSays(c: Completion, values: map<nat, NamResult>, outstanding: set<nat>, n: nat)
    requires Sent(c, values, outstanding, n) && n < U32
    ensures c.execCount == 0 <==> outstanding == {}
  {
    hide Counts, Below;
    CountIs(c, values);
    ZeroExactly(outstanding, n, c.execCount);
  }

  lemma ZeroExactly(a: set<nat>, n: nat, count: nat)
    requires count == |a| % U32 && a <= Below(n) && n < U32
    ensures count == 0 <==> a == {}
  {
    hide Below;
    BelowSize(n);
    SubsetSize(a, Below(n));
  }

  lemma CountIs(c: Completion, values: map<nat, NamResult>)
    requires c.Valid(values.Keys)
    ensures c.execCount == |c.attached - values.Keys| % U32
  {
    hide ListsOnce;
  }

  /** The results of all requests, in the order of their completion, each once. */
  ghost predicate ResultsIn(order: seq<nat>, net: Network, targets: seq<Target>, results: seq<NamResult>) {
    && ListsOnce(order, Below(|targets|)) && |results| == |order|
    && forall i :: 0 <= i < |order| ==> order[i] < |targets| && results[i] == ResultOf(net, targets, order[i])
  }

  /** Sends the requests, waits for all of them and fetches their results. */
  method FanOut(net: Network, targets: seq<Target>) returns (results: seq<NamResult>, order: seq<nat>)
    requires |targets| < U32
    ensures ResultsIn(order, net, targets, results)
  {
    var c := new Completion();
    NothingSent(c);
    var values, outstanding := SendAll(net, targets, c);
    values := WaitForAll(net, targets, c, values, outstanding);
    AllDone(c, values, |targets|);
    var completed := c.CompletedEvents(values.Keys);
    order := completed;
    results := Fetch(net, targets, values, completed);
  }

  lemma NothingSent(c: Completion)
    requires c.execCount == 0 && c.completed == [] && c.attached == {} && c.handedOut == []
    ensures Sent(c, map[], {}, 0)
  {
    var values: map<nat, NamResult> := map[];
    assert c.attached - values.Keys == {} && c.attached * values.Keys == {};
  }

  lemma AllDone(c: Completion, values: map<nat, NamResult>, n: nat)
    requires Sent(c, values, {}, n)
    ensures c.Valid(values.Keys) && ListsOnce(c.completed, Below(n)) && forall k :: k in Below(n) ==> k in values
  {
    hide ListsOnce, Below;
    assert c.handedOut + c.completed == c.completed;
    forall k | k in Below(n)
      ensures k in values.Keys
    {
      assert k !in Below(n) - values.Keys;
    }
    assert c.attached * values.Keys == Below(n);
  }

  method Fetch(net: Network, targets: seq<Target>, values: map<nat, NamResult>, completed: seq<nat>)
    returns (results: seq<NamResult>)
    requires ListsOnce(completed, Below(|targets|)) && Correct(net, targets, values)
    requires forall k :: k in Below(|targets|) ==> k in values
    ensures ResultsIn(completed, net, targets, results)
  {
    OnceMeans(completed, Below(|targets|));
    hide ListsOnce, Below;
    results := [];
    for i := 0 to |completed|
      invariant |results| == i
      invariant forall m :: 0 <= m < i ==> completed[m] in values && results[m] == values[completed[m]]
    {
      assert completed[i] in completed;
      results := results + [values[completed[i]]];
    }
  }

  // ------------------------------------------------------------------ what is recorded

  function AppsOf(results: seq<NamResult>): seq<Deployed> {
    if results == [] then []
    else
      var last := results[|results| - 1];
      AppsOf(results[..|results| - 1]) + if Launched(last) then [Deployed(last.app.value, last.manager)] else []
  }

  function NodesOf(results: seq<NamResult>): seq<AppNode> {
    if results == [] then []
    else
      var last := results[|results| - 1];
      NodesOf(results[..|results| - 1]) + if Launched(last) then [AppNode(last.app.value, last.node)] else []
  }

  function RefsOf(results: seq<NamResult>): seq<string> {
    if results == [] then []
    else
      var last := results[|results| - 1];
      RefsOf(results[..|results| - 1]) + if Launched(last) then last.refs else []
  }

  lemma NextResult(results: seq<NamResult>, i: nat, apps: seq<Deployed>, nodes: seq<AppNode>, refs: seq<string>)
    requires i < |results|
    ensures var r := results[i];
            if Launched(r) then
              && apps + AppsOf(results[..i + 1]) == apps + AppsOf(results[..i]) + [Deployed(r.app.value, r.manager)]
              && nodes + NodesOf(results[..i + 1]) == nodes + NodesOf(results[..i]) + [AppNode(r.app.value, r.node)]
              && refs + RefsOf(results[..i + 1]) == refs + RefsOf(results[..i]) + r.refs
            else
              && apps + AppsOf(results[..i + 1]) == apps + AppsOf(results[..i])
              && nodes + NodesOf(results[..i + 1]) == nodes + NodesOf(results[..i])
              && refs + RefsOf(results[..i + 1]) == refs + RefsOf(results[..i])
  {
    OneMore(results, i);
  }

  /** A round of launch requests: the order in which they completed, the requests that won, and what is recorded. */
  datatype Launch = Launch(order: seq<nat>, winners: seq<nat>, apps: seq<Deployed>, nodes: seq<AppNode>) {
    ghost predicate Of(net: Network, targets: seq<Target>) {
      && RecordsOf(net, targets, order, winners, apps, nodes, RefsFrom(net, winners))
      && (forall k: nat :: k in order <==> k < |targets|)
      && (forall i, j :: 0 <= i < j < |order| ==> order[i] != order[j])
      && |apps| <= |targets|
    }
  }

  class DomainApplication {
    const targets: seq<Target>
    var nodeApplications: seq<Deployed>
    var appNodeIds: seq<AppNode>
    /** The destroy requests sent so far. */
    var requests: seq<Request>

    constructor (targets: seq<Target>)
      ensures this.targets == targets && nodeApplications == [] && appNodeIds == [] && requests == []
    {
      this.targets, nodeApplications, appNodeIds, requests := targets, [], [], [];
    }

    method StartLaunch(net: Network, provided0: seq<string>)
      returns (raised: bool, provided: seq<string>, ghost launch: Launch)
      requires |targets| < U32
      modifies this`nodeApplications, this`appNodeIds
      ensures launch.Of(net, targets)
      ensures nodeApplications == old(nodeApplications) + launch.apps
      ensures appNodeIds == old(appNodeIds) + launch.nodes
      ensures provided == provided0 + RefsFrom(net, launch.winners)
      ensures raised <==> SomeFails(net, targets)
    {
      hide ResultsIn, RecordsOf, SomeFails, AppsOf, NodesOf, RefsOf;
      var results, order := FanOut(net, targets);
      ghost var winners := RecordedExactly(net, targets, order, results);
      launch := Launch(order, winners, AppsOf(results), NodesOf(results));
      LaunchIs(net, targets, launch, RefsOf(results));
      raised, provided := Record(results, provided0);
    }

    /** The loop over the completed requests. */
    method Record(requests: seq<NamResult>, provided0: seq<string>) returns (raised: bool, provided: seq<string>)
      modifies this`nodeApplications, this`appNodeIds
      ensures nodeApplications == old(nodeApplications) + AppsOf(requests)
      ensures appNodeIds == old(appNodeIds) + NodesOf(requests)
      ensures provided == provided0 + RefsOf(requests)
      ensures raised <==> exists i :: 0 <= i < |requests| && !Launched(requests[i])
    {
      raised, provided := false, provided0;
      ghost var apps, nodes := nodeApplications, appNodeIds;
      for i := 0 to |requests|
        invariant nodeApplications == apps + AppsOf(requests[..i]) && appNodeIds == nodes + NodesOf(requests[..i])
        invariant provided == provided0 + RefsOf(requests[..i])
        invariant raised <==> exists m :: 0 <= m < i && !Launched(requests[m])
      {
        NextResult(requests, i, apps, nodes, provided0);
        var result := requests[i];
        if result.Success? && result.app.Some? {
          nodeApplications := nodeApplications + [Deployed(result.app.value, result.manager)];
          appNodeIds := appNodeIds + [AppNode(result.app.value, result.node)];
          provided := provided + result.refs;
        } else {
          raised := true;
        }
      }
      assert requests[..|requests|] == requests;
    }

    method FindNodeId(app: Reference) returns (node: string)
      ensures (exists i :: 0 <= i < |appNodeIds| && appNodeIds[i] == AppNode(app, node)
                           && forall k :: 0 <= k < i ==> appNodeIds[k].app != app)
           || (node == "" && forall k :: 0 <= k < |appNodeIds| ==> appNodeIds[k].app != app)
    {
      for i := 0 to |appNodeIds|
        invariant forall k :: 0 <= k < i ==> appNodeIds[k].app != app
      {
        if appNodeIds[i].app == app {
          return appNodeIds[i].node;
        }
      }
      node := "";
    }

    /** Contacts the manager of every recorded application; the records stay. */
    method DestroyApplication(net: Network) returns (raised: bool)
      requires |nodeApplications| < U32
      modifies this`requests
      ensures requests == old(requests) + DestroyRequests(nodeApplications)
      ensures raised <==> exists k: nat :: k < |nodeApplications| && FailsToDestroy(net, k)
    {
      raised := false;
      if |nodeApplications| == 0 {
        return;
      }
      var managers: seq<Target> := [];
      ghost var before := requests;
      for i := 0 to |nodeApplications|
        invariant |managers| == i
        invariant requests == before + DestroyRequests(nodeApplications[..i])
      {
        OneMore(nodeApplications, i);
        var node := FindNodeId(nodeApplications[i].app);
        managers := managers + [Target(nodeApplications[i].manager, node)];
        requests := requests + [Request(nodeApplications[i].manager, Some(nodeApplications[i].app))];
      }
      assert nodeApplications[..|nodeApplications|] == nodeApplications;
      raised := AwaitDestroyed(net, managers);
    }

    method AwaitDestroyed(net: Network, managers: seq<Target>) returns (raised: bool)
      requires |managers| < U32
      ensures raised <==> exists k: nat :: k < |managers| && FailsToDestroy(net, k)
    {
      var results, order := FanOut(net, managers);
      raised := false;
      for i := 0 to |results|
        invariant raised <==> exists m :: 0 <= m < i && results[m].Error?
      {
        if results[i].Error? {
          raised := true;
        }
      }
      ErrorsAreFailures(net, managers, results, order);
    }
  }

  lemma ErrorsAreFailures(net: Network, managers: seq<Target>, results: seq<NamResult>, order: seq<nat>)
    requires ResultsIn(order, net, managers, results)
    ensures (exists m :: 0 <= m < |results| && results[m].Error?)
       <==> exists k: nat :: k < |managers| && FailsToDestroy(net, k)
  {
    OrderIsAll(order, net, managers, results);
    hide ResultsIn, ResultOf, FailsToDestroy;
    if k: nat :| k < |managers| && FailsToDestroy(net, k) {
      assert k in order;
      var i :| 0 <= i < |order| && order[i] == k;
      ErrorMeansFailure(net, managers, k);
      assert results[i].Error?;
    }
    if m :| 0 <= m < |results| && results[m].Error? {
      ErrorMeansFailure(net, managers, order[m]);
      assert FailsToDestroy(net, order[m]);
    }
  }

  lemma ErrorMeansFailure(net: Network, managers: seq<Target>, k: nat)
    requires k < |managers|
    ensures ResultOf(net, managers, k).Error? <==> FailsToDestroy(net, k)
  {
  }

  /** Sending the k-th request raises, or the node answers with an exception. */
  predicate FailsToDestroy(net: Network, k: nat) {
    net.sendRaises(k) || net.reply(k).RaisedException?
  }

  function DestroyRequests(apps: seq<Deployed>): seq<Request> {
    if apps == [] then []
    else DestroyRequests(apps[..|apps| - 1]) + [Request(apps[|apps| - 1].manager, Some(apps[|apps| - 1].app))]
  }

  // ------------------------------------------------------------------ exactly the successes

  /** The node gets request k and answers with an application. */
  predicate Wins(net: Network, k: nat) {
    !net.sendRaises(k) && net.reply(k).Returned? && net.reply(k).app.Some?
  }

  /** Request k launched application `d` on node `n`. */
  predicate LaunchedAs(net: Network, targets: seq<Target>, k: nat, d: Deployed, n: AppNode) {
    && k < |targets| && Wins(net, k)
    && d == Deployed(net.reply(k).app.value, targets[k].manager)
    && n == AppNode(net.reply(k).app.value, targets[k].node)
  }

  /** The references that come with the replies to the requests, one after the other. */
  function RefsFrom(net: Network, ks: seq<nat>): seq<string> {
    if ks == [] then []
    else
      var reply := net.reply(ks[|ks| - 1]);
      RefsFrom(net, ks[..|ks| - 1]) + if reply.Returned? then reply.refs else []
  }

  /** The references of each reply are all there, between those of the requests before and after it. */
  lemma {:induction false} RefsAt(net: Network, ks: seq<nat>, i: nat) returns (after: seq<string>)
    requires i < |ks| && net.reply(ks[i]).Returned?
    ensures RefsFrom(net, ks) == RefsFrom(net, ks[..i]) + net.reply(ks[i]).refs + after
    ensures i == |ks| - 1 ==> after == []
  {
    after := [];
    if i < |ks| - 1 {
      after := RefsAt(net, ks[..|ks| - 1], i);
      assert ks[..|ks| - 1][..i] == ks[..i];
      var reply := net.reply(ks[|ks| - 1]);
      after := after + if reply.Returned? then reply.refs else [];
    }
  }

  /** `ks` are among the requests in `order`, in the same order. */
  ghost predicate InOrder(ks: seq<nat>, order: seq<nat>) {
    forall i, j :: 0 <= i < j < |ks| ==> Precedes(order, ks[i], ks[j])
  }

  ghost predicate Precedes(order: seq<nat>, k: nat, l: nat) {
    exists p, q :: 0 <= p < q < |order| && order[p] == k && order[q] == l
  }

  /** What is recorded of a launch: one application and node identifier for each of the winning requests, which are
      listed in the order of their completion, and their references. */
  ghost predicate RecordsOf(net: Network, targets: seq<Target>, order: seq<nat>, winners: seq<nat>,
                            apps: seq<Deployed>, nodes: seq<AppNode>, refs: seq<string>) {
    && |winners| == |apps| == |nodes|
    && (forall i :: 0 <= i < |winners| ==> LaunchedAs(net, targets, winners[i], apps[i], nodes[i]))
    && (forall i, j :: 0 <= i < j < |winners| ==> winners[i] != winners[j])
    && (forall k: nat :: k in winners <==> k < |targets| && Wins(net, k))
    && InOrder(winners, order)
    && refs == RefsFrom(net, winners)
  }

  lemma LaunchedMeansWins(net: Network, targets: seq<Target>, k: nat)
    requires k < |targets|
    ensures Launched(ResultOf(net, targets, k)) <==> Wins(net, k)
    ensures Wins(net, k) ==>
              ResultOf(net, targets, k) == Success(targets[k].manager, targets[k].node, net.reply(k).app, net.reply(k).refs)
  {
  }

  /** The successful requests, in the order of their completion. */
  function Winners(net: Network, targets: seq<Target>, order: seq<nat>): seq<nat>
    requires forall i :: 0 <= i < |order| ==> order[i] < |targets|
  {
    if order == [] then []
    else
      var before, last := Winners(net, targets, order[..|order| - 1]), order[|order| - 1];
      if Launched(ResultOf(net, targets, last)) then before + [last] else before
  }

  lemma {:induction false} WinnersAre(net: Network, targets: seq<Target>, order: seq<nat>, results: seq<NamResult>)
    requires |results| == |order|
    requires forall i :: 0 <= i < |order| ==> order[i] < |targets| && results[i] == ResultOf(net, targets, order[i])
    ensures var w, apps, nodes := Winners(net, targets, order), AppsOf(results), NodesOf(results);
            && |w| == |apps| == |nodes|
            && forall i :: 0 <= i < |w| ==> LaunchedAs(net, targets, w[i], apps[i], nodes[i])
    ensures RefsOf(results) == RefsFrom(net, Winners(net, targets, order))
  {
    if order != [] {
      WinnersAre(net, targets, order[..|order| - 1], results[..|results| - 1]);
    }
  }

  lemma {:induction false} WinnersListed(net: Network, targets: seq<Target>, order: seq<nat>)
    requires forall i :: 0 <= i < |order| ==> order[i] < |targets|
    requires forall i, j :: 0 <= i < j < |order| ==> order[i] != order[j]
    ensures var w := Winners(net, targets, order);
            && (forall k :: k in w <==> k in order && Wins(net, k))
            && (forall i, j :: 0 <= i < j < |w| ==> w[i] != w[j])
  {
    hide ResultOf, Launched, Wins;
    if order != [] {
      var before, last := order[..|order| - 1], order[|order| - 1];
      WinnersListed(net, targets, before);
      LaunchedMeansWins(net, targets, last);
      assert order == before + [last];
      if Launched(ResultOf(net, targets, last)) {
        assert Winners(net, targets, order)[|Winners(net, targets, before)|] == last;
      }
    }
  }

  lemma {:induction false} WinnersInOrder(net: Network, targets: seq<Target>, order: seq<nat>)
    requires forall i :: 0 <= i < |order| ==> order[i] < |targets|
    ensures InOrder(Winners(net, targets, order), order)
    ensures forall k :: k in Winners(net, targets, order) ==> k in order
  {
    hide ResultOf, Launched, Precedes;
    if order != [] {
      var before, last := order[..|order| - 1], order[|order| - 1];
      var w := Winners(net, targets, before);
      WinnersInOrder(net, targets, before);
      assert order == before + [last];
      forall i, j | 0 <= i < j <= |w|
        ensures Precedes(order, (w + [last])[i], (w + [last])[j])
      {
        StillPrecedes(w, before, last, i, j);
      }
      assert forall i :: 0 <= i < |w| ==> (w + [last])[i] == w[i];
    }
  }

  lemma StillPrecedes(w: seq<nat>, before: seq<nat>, last: nat, i: nat, j: nat)
    requires InOrder(w, before) && (forall k :: k in w ==> k in before) && i < j <= |w|
    ensures Precedes(before + [last], (w + [last])[i], (w + [last])[j])
  {
    var order, w' := before + [last], w + [last];
    if j < |w| {
      assert Precedes(before, w[i], w[j]);
      var p, q :| 0 <= p < q < |before| && before[p] == w[i] && before[q] == w[j];
      assert order[p] == w'[i] && order[q] == w'[j];
    } else {
      assert w[i] in before;
      var p :| 0 <= p < |before| && before[p] == w[i];
      assert order[p] == w'[i] && order[|before|] == w'[j];
    }
  }

  /** Whatever the order of the replies: the recorded applications are those of the nodes that answered with one, one for
      each of them, the node identifiers match index by index, the references are those of their replies in the same
      order, and the launch fails exactly if some node did not answer so. */
  lemma RecordedExactly(net: Network, targets: seq<Target>, order: seq<nat>, results: seq<NamResult>)
    returns (winners: seq<nat>)
    requires ResultsIn(order, net, targets, results)
    ensures RecordsOf(net, targets, order, winners, AppsOf(results), NodesOf(results), RefsOf(results))
    ensures forall k: nat :: k in order <==> k < |targets|
    ensures forall i, j :: 0 <= i < j < |order| ==> order[i] != order[j]
    ensures (exists i :: 0 <= i < |results| && !Launched(results[i])) <==> SomeFails(net, targets)
  {
    OrderIsAll(order, net, targets, results);
    winners := WinnersRecorded(net, targets, order, results);
    hide *;
    FailuresAre(net, targets, order, results);
  }

  lemma WinnersRecorded(net: Network, targets: seq<Target>, order: seq<nat>, results: seq<NamResult>) returns (winners: seq<nat>)
    requires |results| == |order|
    requires forall i :: 0 <= i < |order| ==> order[i] < |targets| && results[i] == ResultOf(net, targets, order[i])
    requires forall k: nat :: k in order <==> k < |targets|
    requires forall i, j :: 0 <= i < j < |order| ==> order[i] != order[j]
    ensures RecordsOf(net, targets, order, winners, AppsOf(results), NodesOf(results), RefsOf(results))
  {
    hide AppsOf, NodesOf, RefsOf, Winners, ResultOf, Launched, Wins, InOrder, RefsFrom, LaunchedAs;
    winners := Winners(net, targets, order);
    WinnersAre(net, targets, order, results);
    WinnersListed(net, targets, order);
    WinnersInOrder(net, targets, order);
  }

  lemma OrderIsAll(order: seq<nat>, net: Network, targets: seq<Target>, results: seq<NamResult>)
    requires ResultsIn(order, net, targets, results)
    ensures |results| == |order|
    ensures forall i :: 0 <= i < |order| ==> order[i] < |targets| && results[i] == ResultOf(net, targets, order[i])
    ensures forall k: nat :: k in order <==> k < |targets|
    ensures forall i, j :: 0 <= i < j < |order| ==> order[i] != order[j]
  {
    OnceMeans(order, Below(|targets|));
    hide ListsOnce, Below;
  }

  ghost predicate SomeFails(net: Network, targets: seq<Target>) {
    exists k: nat :: k < |targets| && !Wins(net, k)
  }

  lemma FailuresAre(net: Network, targets: seq<Target>, order: seq<nat>, results: seq<NamResult>)
    requires |results| == |order| && forall k: nat :: k < |targets| <==> k in order
    requires forall i :: 0 <= i < |order| ==> order[i] < |targets| && results[i] == ResultOf(net, targets, order[i])
    ensures (exists i :: 0 <= i < |results| && !Launched(results[i])) <==> SomeFails(net, targets)
  {
    hide ResultOf, Launched, Wins;
    if SomeFails(net, targets) {
      var k: nat :| k < |targets| && !Wins(net, k);
      assert k in order;
      var i :| 0 <= i < |order| && order[i] == k;
      LaunchedMeansWins(net, targets, k);
      assert !Launched(results[i]);
    }
    if i :| 0 <= i < |results| && !Launched(results[i]) {
      LaunchedMeansWins(net, targets, order[i]);
      assert !Wins(net, order[i]);
    }
  }

  lemma {:induction false} DestroyRequestsAre(apps: seq<Deployed>)
    ensures |DestroyRequests(apps)| == |apps|
    ensures forall i :: 0 <= i < |apps| ==> DestroyRequests(apps)[i] == Request(apps[i].manager, Some(apps[i].app))
  {
    if apps != [] {
      DestroyRequestsAre(apps[..|apps| - 1]);
    }
  }

  lemma LaunchIs(net: Network, targets: seq<Target>, launch: Launch, refs: seq<string>)
    requires RecordsOf(net, targets, launch.order, launch.winners, launch.apps, launch.nodes, refs)
    requires forall k: nat :: k in launch.order <==> k < |targets|
    requires forall i, j :: 0 <= i < j < |launch.order| ==> launch.order[i] != launch.order[j]
    ensures launch.Of(net, targets) && refs == RefsFrom(net, launch.winners)
  {
    hide InOrder, LaunchedAs;
    DistinctBelow(launch.winners, |targets|);
  }

  lemma {:induction false} DistinctBelow(ks: seq<nat>, n: nat)
    requires forall i, j :: 0 <= i < j < |ks| ==> ks[i] != ks[j]
    requires forall k :: k in ks ==> k < n
    ensures |ks| <= n
  {
    var all := set k | k in ks;
    DistinctSize(ks, all);
    BelowSize(n);
    SubsetSize(all, Below(n));
  }

  lemma {:induction false} DistinctSize(ks: seq<nat>, all: set<nat>)
    requires forall i, j :: 0 <= i < j < |ks| ==> ks[i] != ks[j]
    requires forall k :: k in all <==> k in ks
    ensures |all| == |ks|
  {
    if ks != [] {
      var before, last := ks[..|ks| - 1], ks[|ks| - 1];
      DistinctSize(before, all - {last});
    } else {
      assert all == {};
    }
  }

  /** A launch from the empty state and the teardown after it: the destroy requests go to exactly the managers and
      applications that the launch got, each once and in the order of their completion, and the launch provides exactly
      the references that came with them. */
  method LaunchAndDestroy(targets: seq<Target>, launch: Network, destroy: Network)
    returns (raised: bool, provided: seq<string>, requests: seq<Request>, ghost winners: seq<nat>)
    requires |targets| < U32
    ensures raised <==> exists k: nat :: k < |targets| && !Wins(launch, k)
    ensures forall i, j :: 0 <= i < j < |winners| ==> winners[i] != winners[j]
    ensures forall k: nat :: k in winners <==> k < |targets| && Wins(launch, k)
    ensures |requests| == |winners|
    ensures forall i :: 0 <= i < |requests| ==> IsDestroyOf(targets, launch, winners[i], requests[i])
    ensures provided == RefsFrom(launch, winners)
  {
    hide DestroyRequests, InOrder, RefsFrom, Wins, LaunchedAs, IsDestroyOf;
    var application := new DomainApplication(targets);
    ghost var record;
    raised, provided, record := application.StartLaunch(launch, []);
    winners := record.winners;
    ghost var apps := record.apps;
    assert application.nodeApplications == apps;
    assert [] + RefsFrom(launch, winners) == RefsFrom(launch, winners);
    hide RecordsOf;
    var _ := application.DestroyApplication(destroy);
    requests := application.requests;
    assert requests == DestroyRequests(apps);
    DestroyedWinners(targets, launch, record);
  }

  /** The request to destroy what request `k` launched. */
  predicate IsDestroyOf(targets: seq<Target>, launch: Network, k: nat, request: Request) {
    && k < |targets| && Wins(launch, k)
    && request == Request(targets[k].manager, launch.reply(k).app)
  }

  lemma DestroyedWinners(targets: seq<Target>, net: Network, launch: Launch)
    requires launch.Of(net, targets)
    ensures var requests := DestroyRequests(launch.apps);
            && |requests| == |launch.winners|
            && forall i :: 0 <= i < |requests| ==> IsDestroyOf(targets, net, launch.winners[i], requests[i])
  {
    hide InOrder, DestroyRequests, RefsFrom;
    DestroyRequestsAre(launch.apps);
    forall i | 0 <= i < |launch.winners|
      ensures IsDestroyOf(targets, net, launch.winners[i], DestroyRequests(launch.apps)[i])
    {
      assert LaunchedAs(net, targets, launch.winners[i], launch.apps[i], launch.nodes[i]);
    }
  }
}
