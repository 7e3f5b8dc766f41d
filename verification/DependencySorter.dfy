/** The installation order of instance types: dancex11/scheduler/dependency_sorter.cpp.

    The loop of `calculate_order` tests "all deps satisfied" by the size of a vector that was created
    with the size it is compared with, so the test as written only counts.  `AsWritten` is that
    loop, `AsCommented` is the loop whose test does what its comment says. */
module DependencySorter {
  import opened Collections
  import opened Words

  datatype Check = AsWritten | AsCommented

  datatype Result = Order(names: seq<Name>) | InvalidInstallOrder

  /** The name of an instance type; the sorter only compares names. */
  type Name = Word

  type Deps = map<Name, set<Name>>

  /** The condition under which one entry of the map is appended to the order. */
  predicate Ready(check: Check, deps: set<Name>, selected: set<Name>) {
    || deps == {}
    || (|selected| >= |deps| && (check.AsWritten? || |deps * selected| == |deps|))
  }

  // ------------------------------------------------------------------ specification

  function FirstReady(check: Check, m: Deps, keys: seq<Name>, remaining: set<Name>, selected: set<Name>)
    : (r: Option<Name>)
    requires remaining <= m.Keys
    ensures r.Some? ==> r.value in remaining && Ready(check, m[r.value], selected)
  {
    if keys == [] then None
    else if keys[0] in remaining && Ready(check, m[keys[0]], selected) then Some(keys[0])
    else FirstReady(check, m, keys[1..], remaining, selected)
  }

  function OrderFrom(check: Check, m: Deps, keys: seq<Name>,
                     remaining: set<Name>, selected: set<Name>, retval: seq<Name>): Result
    requires remaining <= m.Keys
    decreases remaining
  {
    if |retval| == |m| then Order(retval)
    else match FirstReady(check, m, keys, remaining, selected)
      case None => InvalidInstallOrder
      case Some(k) => OrderFrom(check, m, keys, remaining - {k}, selected + {k}, retval + [k])
  }

  function OrderOf(check: Check, m: Deps, keys: seq<Name>): Result {
    OrderFrom(check, m, keys, m.Keys, {}, [])
  }

  // ------------------------------------------------------------------ the class

  class DependencySorter {
    var depMap: Deps

    constructor ()
      ensures depMap == map[]
    {
      depMap := map[];
    }

    method AddNondependent(subject: Name)
      modifies this
      ensures depMap == old(depMap)[subject := {}]
    {
      depMap := depMap[subject := {}];
    }

    method AddDependencies(subject: Name, deps: set<Name>)
      modifies this
      ensures depMap == old(depMap)[subject := deps]
    {
      depMap := depMap[subject := deps];
    }

    method AddDependency(subject: Name, installAfter: Name)
      modifies this
      ensures depMap.Keys == old(depMap).Keys + {subject}
      ensures installAfter in depMap[subject]
      ensures forall s, d :: s in depMap && d in depMap[s] <==>
                             (s in old(depMap) && d in old(depMap)[s]) || (s == subject && d == installAfter)
    {
      if subject !in depMap {
        depMap := depMap[subject := {installAfter}];
      } else {
        depMap := depMap[subject := depMap[subject] + {installAfter}];
      }
    }

    /** `initial` is the vector passed in by reference; the result is the vector on return. */
    method CalculateOrder(check: Check, keys: seq<Name>, initial: seq<Name>) returns (r: Result)
      requires Enumerates(keys, depMap.Keys)
      ensures r == OrderFrom(check, depMap, keys, depMap.Keys, {}, initial)
      ensures initial == [] ==> r == OrderOf(check, depMap, keys)
      ensures |initial| == |depMap| ==> r == Order(initial)
    {
      var retval, selected: set<Name>, tmpDep := initial, {}, depMap;
      ghost var goal := OrderFrom(check, depMap, keys, depMap.Keys, {}, initial);
      while |retval| != |depMap|
        invariant tmpDep.Keys <= depMap.Keys
        invariant forall k :: k in tmpDep ==> tmpDep[k] == depMap[k]
        invariant OrderFrom(check, depMap, keys, tmpDep.Keys, selected, retval) == goal
        invariant |initial| == |depMap| ==> retval == initial
        decreases tmpDep.Keys
      {
        var updated := false;
        ghost var before, first := tmpDep.Keys, FirstReady(check, depMap, keys, tmpDep.Keys, selected);
        assert goal == match first
                       case None => InvalidInstallOrder
                       case Some(k) => OrderFrom(check, depMap, keys, before - {k}, selected + {k}, retval + [k]);
        for i := 0 to |keys|
          invariant !updated && |initial| != |depMap|
          invariant FirstReady(check, depMap, keys[i..], before, selected) == first
        {
          var k := keys[i];
          assert keys[i..][0] == k && keys[i..][1..] == keys[i + 1..];
          if k in tmpDep {
            var deps := tmpDep[k];
            var ready := deps == {};
            if !ready && |selected| >= |deps| {
              // the vector receives the intersection, but keeps the size it was created with
              var tmpSize := if check.AsWritten? then |deps| else |deps * selected|;
              ready := tmpSize == |deps|;
            }
            if ready {
              assert first == Some(k);
              retval := retval + [k];
              selected := selected + {k};
              updated := true;
              tmpDep := tmpDep - {k};
              assert tmpDep.Keys == before - {k};
              break;
            }
          }
        }
        if !updated {
          return InvalidInstallOrder;
        }
      }
      r := Order(retval);
    }
  }

  // ------------------------------------------------------------------ what a run keeps

  /** The loop state after some appends, starting from an empty vector. */
  ghost predicate Progress(m: Deps, remaining: set<Name>, selected: set<Name>, retval: seq<Name>) {
    && (forall k :: k in retval <==> k in selected)
    && (forall i, j :: 0 <= i < j < |retval| ==> retval[i] != retval[j])
    && |retval| == |selected|
    && selected <= m.Keys
    && remaining == m.Keys - selected
  }

  lemma ProgressStep(m: Deps, remaining: set<Name>, selected: set<Name>, retval: seq<Name>, k: Name)
    requires Progress(m, remaining, selected, retval) && k in remaining
    ensures Progress(m, remaining - {k}, selected + {k}, retval + [k])
  {
    assert k !in selected;
    assert |selected + {k}| == |selected| + 1;
  }

  /** Any order is a permutation of the registered subjects, whichever test is used. */
  lemma {:induction false} OrderIsPermutation(check: Check, m: Deps, keys: seq<Name>,
                                              remaining: set<Name>, selected: set<Name>, retval: seq<Name>)
    requires Enumerates(keys, m.Keys) && Progress(m, remaining, selected, retval)
    ensures var r := OrderFrom(check, m, keys, remaining, selected, retval);
            r.Order? ==> Enumerates(r.names, m.Keys) && retval <= r.names && |r.names| == |m|
    decreases remaining
  {
    if |retval| == |m| {
      SubsetSize(selected, m.Keys);
    } else {
      var k := FirstReady(check, m, keys, remaining, selected);
      if k.Some? {
        ProgressStep(m, remaining, selected, retval, k.value);
        OrderIsPermutation(check, m, keys, remaining - {k.value}, selected + {k.value}, retval + [k.value]);
      }
    }
  }

  /** What stands in the vector beforehand stays in front and takes the places of subjects: the result
      never holds more names than the map, and a longer vector is rejected. */
  lemma {:induction false} InitialVectorStays(check: Check, m: Deps, keys: seq<Name>,
                                              remaining: set<Name>, selected: set<Name>, retval: seq<Name>)
    requires remaining <= m.Keys
    ensures var r := OrderFrom(check, m, keys, remaining, selected, retval);
            && (r.Order? ==> retval <= r.names && |r.names| == |m|)
            && (r.Order? ==> forall i :: |retval| <= i < |r.names| ==> r.names[i] in remaining)
            && (r.Order? ==> forall i, j :: |retval| <= i < j < |r.names| ==> r.names[i] != r.names[j])
            && (|retval| > |m| ==> r.InvalidInstallOrder?)
    decreases remaining
  {
    var k := FirstReady(check, m, keys, remaining, selected);
    if |retval| != |m| && k.Some? {
      var next := retval + [k.value];
      InitialVectorStays(check, m, keys, remaining - {k.value}, selected + {k.value}, next);
      assert forall names :: next <= names ==> retval <= names && names[|retval|] == next[|retval|];
    }
  }

  // ------------------------------------------------------------------ commented intent

  /** Every subject comes after all its dependencies. */
  ghost predicate DependenciesFirst(m: Deps, names: seq<Name>) {
    forall i :: 0 <= i < |names| ==>
                names[i] in m && forall d :: d in m[names[i]] ==> d in names[..i]
  }

  lemma IntersectionSize<T>(a: set<T>, b: set<T>)
    ensures |a * b| == |a| <==> a <= b
  {
    SubsetSize(a * b, a);
    assert a * b == a <==> a <= b;
  }

  lemma {:induction false} CommentedOrderRespectsDeps(m: Deps, keys: seq<Name>,
                                                      remaining: set<Name>, selected: set<Name>, retval: seq<Name>)
    requires Enumerates(keys, m.Keys) && Progress(m, remaining, selected, retval)
    requires DependenciesFirst(m, retval)
    ensures var r := OrderFrom(AsCommented, m, keys, remaining, selected, retval);
            r.Order? ==> DependenciesFirst(m, r.names)
    decreases remaining
  {
    if |retval| != |m| {
      var k := FirstReady(AsCommented, m, keys, remaining, selected);
      if k.Some? {
        IntersectionSize(m[k.value], selected);
        var next := retval + [k.value];
        forall i | 0 <= i < |next|
          ensures next[i] in m && forall d :: d in m[next[i]] ==> d in next[..i]
        {
          assert next[..i] == retval[..i];
          assert i == |retval| ==> retval[..i] == retval;
        }
        ProgressStep(m, remaining, selected, retval, k.value);
        CommentedOrderRespectsDeps(m, keys, remaining - {k.value}, selected + {k.value}, next);
      }
    }
  }

  /** Some subject depends on a name that was never registered. */
  ghost predicate HasUnregistered(m: Deps) {
    exists s, d :: s in m && d in m[s] && d !in m
  }

  /** A sequence of subjects, each depending on the one after it. */
  ghost predicate IsChain(m: Deps, c: seq<Name>) {
    && (forall i :: 0 <= i < |c| ==> c[i] in m)
    && (forall i, j :: 0 <= i < j < |c| && j == i + 1 ==> c[j] in m[c[i]])
  }

  ghost predicate IsCycle(m: Deps, c: seq<Name>) {
    c != [] && IsChain(m, c) && c[0] in m[c[|c| - 1]]
  }

  ghost predicate HasCycle(m: Deps) {
    exists c :: IsCycle(m, c)
  }

  /** No subject in the set can be appended before another one of the set. */
  ghost predicate Stuck(m: Deps, stuck: set<Name>) {
    stuck <= m.Keys && forall s :: s in stuck ==> m[s] * stuck != {}
  }

  ghost predicate DistinctIn(s: seq<Name>, space: set<Name>) {
    && (forall i, j :: 0 <= i < j < |s| ==> s[i] != s[j])
    && (forall i :: 0 <= i < |s| ==> s[i] in space)
  }

  /** A walk inside a set in which every element has a dependency comes back to itself. */
  lemma {:induction false} WalkFindsCycle(m: Deps, stuck: set<Name>, walk: seq<Name>) returns (c: seq<Name>)
    requires Stuck(m, stuck) && walk != [] && DistinctIn(walk, stuck) && IsChain(m, walk)
    ensures IsCycle(m, c)
    decreases |stuck| - |walk|
  {
    var last := walk[|walk| - 1];
    var d :| d in m[last] * stuck;
    if d in walk {
      var i :| 0 <= i < |walk| && walk[i] == d;
      c := walk[i..];
      assert IsChain(m, c);
    } else {
      var longer := walk + [d];
      assert IsChain(m, longer);
      DistinctInSet(longer, stuck);
      c := WalkFindsCycle(m, stuck, longer);
    }
  }

  lemma {:induction false} DistinctInSet(s: seq<Name>, space: set<Name>)
    requires DistinctIn(s, space)
    ensures |s| <= |space|
  {
    if s != [] {
      var last := s[|s| - 1];
      DistinctInSet(s[..|s| - 1], space - {last});
    }
  }

  lemma NotReadyNotSatisfied(check: Check, deps: set<Name>, selected: set<Name>)
    requires !Ready(check, deps, selected)
    ensures !(deps <= selected)
  {
    IntersectionSize(deps, selected);
    if deps <= selected {
      SubsetSize(deps, selected);
    }
  }

  lemma {:induction false} NoneReady(check: Check, m: Deps, keys: seq<Name>, remaining: set<Name>, selected: set<Name>,
                                     k: Name)
    requires remaining <= m.Keys && k in keys && k in remaining
    requires FirstReady(check, m, keys, remaining, selected).None?
    ensures !Ready(check, m[k], selected)
  {
    if k != keys[0] {
      NoneReady(check, m, keys[1..], remaining, selected, k);
    }
  }

  lemma NoneReadyIsStuck(check: Check, m: Deps, keys: seq<Name>, remaining: set<Name>, selected: set<Name>)
    requires Enumerates(keys, m.Keys) && remaining == m.Keys - selected && !HasUnregistered(m)
    requires FirstReady(check, m, keys, remaining, selected).None?
    ensures Stuck(m, remaining)
  {
    forall s | s in remaining
      ensures m[s] * remaining != {}
    {
      NoneReady(check, m, keys, remaining, selected, s);
      NotReadyNotSatisfied(check, m[s], selected);
      var d :| d in m[s] && d !in selected;
      assert d in m[s] * remaining;
    }
  }

  lemma StopHasCause(check: Check, m: Deps, keys: seq<Name>, remaining: set<Name>, selected: set<Name>, retval: seq<Name>)
    requires Enumerates(keys, m.Keys) && Progress(m, remaining, selected, retval) && |retval| != |m|
    requires FirstReady(check, m, keys, remaining, selected).None?
    ensures HasUnregistered(m) || HasCycle(m)
  {
    if !HasUnregistered(m) {
      NoneReadyIsStuck(check, m, keys, remaining, selected);
      assert |m| == |m.Keys| && selected != m.Keys;
      var s :| s in m.Keys && s !in selected;
      var c := WalkFindsCycle(m, remaining, [s]);
    }
  }

  /** Whichever test is used, a rejected map has an unregistered dependency or a cycle. */
  lemma {:induction false} RejectedHasCause(check: Check, m: Deps, keys: seq<Name>,
                                            remaining: set<Name>, selected: set<Name>, retval: seq<Name>)
    requires Enumerates(keys, m.Keys) && Progress(m, remaining, selected, retval)
    requires OrderFrom(check, m, keys, remaining, selected, retval).InvalidInstallOrder?
    ensures HasUnregistered(m) || HasCycle(m)
    decreases remaining
  {
    var k := FirstReady(check, m, keys, remaining, selected);
    if k.Some? {
      ProgressStep(m, remaining, selected, retval, k.value);
      RejectedHasCause(check, m, keys, remaining - {k.value}, selected + {k.value}, retval + [k.value]);
    } else {
      StopHasCause(check, m, keys, remaining, selected, retval);
    }
  }

  /** Along a chain of dependencies the positions in a dependency-respecting order go down. */
  lemma {:induction false} ChainGoesBack(m: Deps, names: seq<Name>, c: seq<Name>, n: nat) returns (p: nat, q: nat)
    requires DependenciesFirst(m, names) && Enumerates(names, m.Keys)
    requires IsCycle(m, c) && n < |c|
    ensures p < |names| && names[p] == c[0]
    ensures q < |names| && names[q] == c[n] && q <= p
  {
    if n == 0 {
      p :| 0 <= p < |names| && names[p] == c[0];
      q := p;
    } else {
      var mid;
      p, mid := ChainGoesBack(m, names, c, n - 1);
      assert c[n] in names[..mid];
      q :| 0 <= q < mid && names[q] == c[n];
    }
  }

  lemma OrderedMeansAcyclic(m: Deps, names: seq<Name>)
    requires DependenciesFirst(m, names) && Enumerates(names, m.Keys)
    ensures !HasUnregistered(m) && !HasCycle(m)
  {
    forall s, d | s in m && d in m[s]
      ensures d in m
    {
      var i :| 0 <= i < |names| && names[i] == s;
      assert d in names[..i];
    }
    if HasCycle(m) {
      var c :| IsCycle(m, c);
      var p, q := ChainGoesBack(m, names, c, |c| - 1);
      assert false;
    }
  }

  /** With the commented test: a dependency-respecting permutation, or an exception exactly when the
      map has a cycle or depends on a name that was never registered. */
  lemma CommentedSorterIsCorrect(m: Deps, keys: seq<Name>)
    requires Enumerates(keys, m.Keys)
    ensures var r := OrderOf(AsCommented, m, keys);
            && (r.InvalidInstallOrder? <==> HasUnregistered(m) || HasCycle(m))
            && (r.Order? ==> Enumerates(r.names, m.Keys) && DependenciesFirst(m, r.names))
  {
    var r := OrderOf(AsCommented, m, keys);
    OrderIsPermutation(AsCommented, m, keys, m.Keys, {}, []);
    CommentedOrderRespectsDeps(m, keys, m.Keys, {}, []);
    if r.Order? {
      OrderedMeansAcyclic(m, r.names);
    } else {
      RejectedHasCause(AsCommented, m, keys, m.Keys, {}, []);
    }
  }

  // ------------------------------------------------------------------ the loop as written

  /** The subjects with at most `k` dependencies. */
  function AtMost(m: Deps, k: int): set<Name> {
    set s | s in m && |m[s]| <= k
  }

  /** What decides whether the loop as written gets stuck: no dependency is ever looked at. */
  ghost predicate EnoughSmall(m: Deps) {
    EnoughBelow(m, |m|)
  }

  ghost predicate EnoughBelow(m: Deps, n: nat) {
    forall k :: 0 <= k < n ==> |AtMost(m, k)| > k
  }

  ghost predicate PositionsBounded(m: Deps, names: seq<Name>) {
    forall i :: 0 <= i < |names| ==> names[i] in m && |m[names[i]]| <= i
  }

  lemma PickedAreSmall(m: Deps, selected: set<Name>, retval: seq<Name>)
    requires PositionsBounded(m, retval) && forall s :: s in selected ==> s in retval
    ensures selected <= AtMost(m, |retval|) && |selected| <= |AtMost(m, |retval|)|
  {
    forall s | s in selected
      ensures s in AtMost(m, |retval|)
    {
      var i :| 0 <= i < |retval| && retval[i] == s;
    }
    SubsetSize(selected, AtMost(m, |retval|));
  }

  lemma OnlyPickedAreSmall(m: Deps, keys: seq<Name>, remaining: set<Name>, selected: set<Name>, n: nat)
    requires Enumerates(keys, m.Keys) && remaining == m.Keys - selected && n == |selected|
    requires selected <= AtMost(m, n)
    requires FirstReady(AsWritten, m, keys, remaining, selected).None?
    ensures AtMost(m, n) == selected
  {
    forall s | s in AtMost(m, n)
      ensures s in selected
    {
      if s !in selected {
        NoneReady(AsWritten, m, keys, remaining, selected, s);
      }
    }
  }

  lemma {:induction false} WrittenRun(m: Deps, keys: seq<Name>,
                                      remaining: set<Name>, selected: set<Name>, retval: seq<Name>)
    requires Enumerates(keys, m.Keys) && Progress(m, remaining, selected, retval)
    requires PositionsBounded(m, retval)
    requires EnoughBelow(m, |retval|)
    ensures var r := OrderFrom(AsWritten, m, keys, remaining, selected, retval);
            && (r.Order? <==> EnoughSmall(m))
            && (r.Order? ==> PositionsBounded(m, r.names))
    decreases remaining
  {
    SubsetSize(selected, m.Keys);
    if |retval| != |m| {
      var n := |retval|;
      PickedAreSmall(m, selected, retval);
      var k := FirstReady(AsWritten, m, keys, remaining, selected);
      if k.Some? {
        var next := retval + [k.value];
        ProgressStep(m, remaining, selected, retval, k.value);
        assert selected + {k.value} <= AtMost(m, n);
        SubsetSize(selected + {k.value}, AtMost(m, n));
        assert PositionsBounded(m, next);
        WrittenRun(m, keys, remaining - {k.value}, selected + {k.value}, next);
      } else {
        OnlyPickedAreSmall(m, keys, remaining, selected, n);
      }
    }
  }

  /** The loop as written: any result is a permutation in which each subject's position is at least
      its number of dependencies, and it is rejected exactly when, for some k, at most k subjects
      have at most k dependencies; in particular a closed acyclic map is never rejected. */
  lemma WrittenSorterCounts(m: Deps, keys: seq<Name>)
    requires Enumerates(keys, m.Keys)
    ensures var r := OrderOf(AsWritten, m, keys);
            && (r.Order? <==> EnoughSmall(m))
            && (r.Order? ==> Enumerates(r.names, m.Keys) && PositionsBounded(m, r.names))
            && (!HasUnregistered(m) && !HasCycle(m) ==> r.Order?)
  {
    OrderIsPermutation(AsWritten, m, keys, m.Keys, {}, []);
    WrittenRun(m, keys, m.Keys, {}, []);
    if OrderOf(AsWritten, m, keys).InvalidInstallOrder? {
      RejectedHasCause(AsWritten, m, keys, m.Keys, {}, []);
    }
  }

  ghost predicate SameCounts(m: Deps, m': Deps) {
    m.Keys == m'.Keys && forall s :: s in m ==> |m[s]| == |m'[s]|
  }

  lemma {:induction false} FirstReadyOnlyCounts(m: Deps, m': Deps, keys: seq<Name>,
                                                remaining: set<Name>, selected: set<Name>)
    requires SameCounts(m, m') && remaining <= m.Keys
    ensures FirstReady(AsWritten, m, keys, remaining, selected) == FirstReady(AsWritten, m', keys, remaining, selected)
  {
    if keys != [] {
      FirstReadyOnlyCounts(m, m', keys[1..], remaining, selected);
    }
  }

  /** The loop as written cannot tell two maps apart that give each subject equally many dependencies. */
  lemma {:induction false} WrittenOrderOnlyCounts(m: Deps, m': Deps, keys: seq<Name>,
                                                  remaining: set<Name>, selected: set<Name>, retval: seq<Name>)
    requires SameCounts(m, m') && remaining <= m.Keys
    ensures OrderFrom(AsWritten, m, keys, remaining, selected, retval)
         == OrderFrom(AsWritten, m', keys, remaining, selected, retval)
    decreases remaining
  {
    assert |m| == |m.Keys| == |m'.Keys| == |m'|;
    FirstReadyOnlyCounts(m, m', keys, remaining, selected);
    var k := FirstReady(AsWritten, m, keys, remaining, selected);
    if |retval| != |m| && k.Some? {
      WrittenOrderOnlyCounts(m, m', keys, remaining - {k.value}, selected + {k.value}, retval + [k.value]);
    }
  }

  lemma {:induction false} FirstReadyAgrees(m: Deps, keys: seq<Name>, remaining: set<Name>, selected: set<Name>)
    requires remaining <= m.Keys
    requires var k := FirstReady(AsWritten, m, keys, remaining, selected); k.Some? ==> m[k.value] <= selected
    ensures FirstReady(AsWritten, m, keys, remaining, selected) == FirstReady(AsCommented, m, keys, remaining, selected)
  {
    if keys != [] {
      if keys[0] in remaining {
        IntersectionSize(m[keys[0]], selected);
      }
      if !(keys[0] in remaining && Ready(AsWritten, m[keys[0]], selected)) {
        FirstReadyAgrees(m, keys[1..], remaining, selected);
      }
    }
  }

  lemma PrefixHoldsDeps(m: Deps, names: seq<Name>, prefix: seq<Name>, k: Name)
    requires DependenciesFirst(m, names) && prefix + [k] <= names
    ensures k in m && forall d :: d in m[k] ==> d in prefix
  {
    assert names[|prefix|] == (prefix + [k])[|prefix|] == k;
    assert names[..|prefix|] == (prefix + [k])[..|prefix|] == prefix;
  }

  lemma {:induction false} ValidRunsAgree(m: Deps, keys: seq<Name>,
                                          remaining: set<Name>, selected: set<Name>, retval: seq<Name>)
    requires Enumerates(keys, m.Keys) && Progress(m, remaining, selected, retval)
    requires var r := OrderFrom(AsWritten, m, keys, remaining, selected, retval);
             r.Order? && DependenciesFirst(m, r.names)
    ensures OrderFrom(AsWritten, m, keys, remaining, selected, retval)
         == OrderFrom(AsCommented, m, keys, remaining, selected, retval)
    decreases remaining
  {
    if |retval| != |m| {
      var k := FirstReady(AsWritten, m, keys, remaining, selected).value;
      var names := OrderFrom(AsWritten, m, keys, remaining, selected, retval).names;
      ProgressStep(m, remaining, selected, retval, k);
      OrderIsPermutation(AsWritten, m, keys, remaining - {k}, selected + {k}, retval + [k]);
      assert m[k] <= selected by {
        PrefixHoldsDeps(m, names, retval, k);
      }
      FirstReadyAgrees(m, keys, remaining, selected);
      ValidRunsAgree(m, keys, remaining - {k}, selected + {k}, retval + [k]);
    }
  }

  /** The loop as written puts dependencies first exactly when it returns what the commented loop returns. */
  lemma WrittenIsRightExactlyWhenItAgrees(m: Deps, keys: seq<Name>)
    requires Enumerates(keys, m.Keys)
    ensures var w, c := OrderOf(AsWritten, m, keys), OrderOf(AsCommented, m, keys);
            w.Order? && DependenciesFirst(m, w.names) <==> w.Order? && w == c
  {
    var w := OrderOf(AsWritten, m, keys);
    if w.Order? && DependenciesFirst(m, w.names) {
      ValidRunsAgree(m, keys, m.Keys, {}, []);
    }
    CommentedSorterIsCorrect(m, keys);
  }

  // ------------------------------------------------------------------ when the loop as written is right

  /** Every entry stands behind each subject that is earlier in the map's order, unless that subject
      has more dependencies than entries are before it. */
  ghost predicate PicksInOrder(m: Deps, keys: seq<Name>, names: seq<Name>) {
    forall i, j, p :: 0 <= i < |names| && 0 <= j < p < |keys| && keys[p] == names[i] ==>
                        keys[j] in names[..i] || (keys[j] in m && |m[keys[j]]| > i)
  }

  /** An order of the map and its keys alone: what the loop as written has to find to be right. */
  ghost predicate Schedule(m: Deps, keys: seq<Name>, names: seq<Name>) {
    Enumerates(names, m.Keys) && DependenciesFirst(m, names) && PicksInOrder(m, keys, names)
  }

  lemma {:induction false} EarlierNotReady(check: Check, m: Deps, keys: seq<Name>, remaining: set<Name>,
                                           selected: set<Name>, j: nat, p: nat)
    requires remaining <= m.Keys && j < p < |keys| && keys[j] in remaining
    requires forall a, b :: 0 <= a < b < |keys| ==> keys[a] != keys[b]
    requires FirstReady(check, m, keys, remaining, selected) == Some(keys[p])
    ensures !Ready(check, m[keys[j]], selected)
  {
    if j > 0 && !(keys[0] in remaining && Ready(check, m[keys[0]], selected)) {
      EarlierNotReady(check, m, keys[1..], remaining, selected, j - 1, p - 1);
    }
  }

  lemma PickKeepsOrder(m: Deps, keys: seq<Name>, remaining: set<Name>, selected: set<Name>, retval: seq<Name>, k: Name)
    requires Enumerates(keys, m.Keys) && Progress(m, remaining, selected, retval)
    requires PicksInOrder(m, keys, retval)
    requires FirstReady(AsWritten, m, keys, remaining, selected) == Some(k)
    ensures PicksInOrder(m, keys, retval + [k])
  {
    var names := retval + [k];
    forall i, j, p | 0 <= i < |names| && 0 <= j < p < |keys| && keys[p] == names[i]
      ensures keys[j] in names[..i] || (keys[j] in m && |m[keys[j]]| > i)
    {
      assert names[..i] == retval[..i];
      if i == |retval| {
        assert retval[..i] == retval;
        if keys[j] in remaining {
          EarlierNotReady(AsWritten, m, keys, remaining, selected, j, p);
        }
      } else {
        assert names[i] == retval[i];
      }
    }
  }

  lemma {:induction false} WrittenPicksInOrder(m: Deps, keys: seq<Name>,
                                               remaining: set<Name>, selected: set<Name>, retval: seq<Name>)
    requires Enumerates(keys, m.Keys) && Progress(m, remaining, selected, retval)
    requires PicksInOrder(m, keys, retval)
    ensures var r := OrderFrom(AsWritten, m, keys, remaining, selected, retval);
            r.Order? ==> PicksInOrder(m, keys, r.names)
    decreases remaining
  {
    hide PicksInOrder, Enumerates;
    var k := FirstReady(AsWritten, m, keys, remaining, selected);
    if |retval| != |m| && k.Some? {
      ProgressStep(m, remaining, selected, retval, k.value);
      PickKeepsOrder(m, keys, remaining, selected, retval, k.value);
      WrittenPicksInOrder(m, keys, remaining - {k.value}, selected + {k.value}, retval + [k.value]);
    }
  }

  /** The next entry of an order that meets the two conditions is what the loop appends next. */
  lemma NextIsPicked(m: Deps, keys: seq<Name>, names: seq<Name>, n: nat, remaining: set<Name>, selected: set<Name>)
    requires Enumerates(keys, m.Keys) && Enumerates(names, m.Keys) && n < |names|
    requires PositionsBounded(m, names) && PicksInOrder(m, keys, names)
    requires Progress(m, remaining, selected, names[..n])
    ensures FirstReady(AsWritten, m, keys, remaining, selected) == Some(names[n]) && names[n] in remaining
  {
    assert names[n] !in names[..n];
    var p :| 0 <= p < |keys| && keys[p] == names[n];
    FirstReadyAt(AsWritten, m, keys, remaining, selected, p);
  }

  lemma {:induction false} OrderIsFound(m: Deps, keys: seq<Name>, names: seq<Name>, n: nat,
                                        remaining: set<Name>, selected: set<Name>, retval: seq<Name>)
    requires Enumerates(keys, m.Keys) && Enumerates(names, m.Keys) && n <= |names| == |m|
    requires PositionsBounded(m, names) && PicksInOrder(m, keys, names)
    requires retval == names[..n] && Progress(m, remaining, selected, retval)
    ensures OrderFrom(AsWritten, m, keys, remaining, selected, retval) == Order(names)
    decreases |names| - n
  {
    hide PicksInOrder, Enumerates, PositionsBounded, FirstReady;
    if n < |names| {
      var k, next := names[n], retval + [names[n]];
      NextIsPicked(m, keys, names, n, remaining, selected);
      assert next == names[..n + 1];
      ProgressStep(m, remaining, selected, retval, k);
      hide Progress;
      OrderIsFound(m, keys, names, n + 1, remaining - {k}, selected + {k}, next);
    }
  }

  lemma {:induction false} EnumerationSize(names: seq<Name>, s: set<Name>)
    requires Enumerates(names, s)
    ensures |names| == |s|
  {
    if names != [] {
      var last := names[|names| - 1];
      EnumerationSize(names[..|names| - 1], s - {last});
    } else {
      assert s == {};
    }
  }

  /** The loop as written, without running it: it returns `names` exactly when they are the subjects in
      an order in which no position is below its subject's number of dependencies and which follows
      the map's order as far as these numbers admit. */
  lemma WrittenOrderIs(m: Deps, keys: seq<Name>, names: seq<Name>)
    requires Enumerates(keys, m.Keys)
    ensures OrderOf(AsWritten, m, keys) == Order(names)
       <==> Enumerates(names, m.Keys) && PositionsBounded(m, names) && PicksInOrder(m, keys, names)
  {
    var r := OrderOf(AsWritten, m, keys);
    WrittenSorterCounts(m, keys);
    WrittenPicksInOrder(m, keys, m.Keys, {}, []);
    if Enumerates(names, m.Keys) && PositionsBounded(m, names) && PicksInOrder(m, keys, names) {
      EnumerationSize(names, m.Keys);
      assert names[..0] == [];
      OrderIsFound(m, keys, names, 0, m.Keys, {}, []);
    }
  }

  lemma {:induction false} PrefixElements(names: seq<Name>, n: nat) returns (elements: set<Name>)
    requires n <= |names|
    ensures |elements| <= n && forall x :: x in names[..n] ==> x in elements
  {
    if n == 0 {
      elements := {};
    } else {
      elements := PrefixElements(names, n - 1);
      assert names[..n] == names[..n - 1] + [names[n - 1]];
      elements := elements + {names[n - 1]};
    }
  }

  lemma DependenciesFirstBounds(m: Deps, names: seq<Name>)
    requires DependenciesFirst(m, names)
    ensures PositionsBounded(m, names)
  {
    forall i | 0 <= i < |names|
      ensures |m[names[i]]| <= i
    {
      var elements := PrefixElements(names, i);
      SubsetSize(m[names[i]], elements);
    }
  }

  /** The loop as written puts dependencies first exactly when the map and the order of its keys have
      a schedule, which is then the result. */
  lemma WrittenIsRightExactlyWhenScheduled(m: Deps, keys: seq<Name>)
    requires Enumerates(keys, m.Keys)
    ensures var w := OrderOf(AsWritten, m, keys);
            && (w.Order? && DependenciesFirst(m, w.names) <==> exists names :: Schedule(m, keys, names))
            && (forall names :: Schedule(m, keys, names) ==> w == Order(names))
  {
    var w := OrderOf(AsWritten, m, keys);
    forall names | Schedule(m, keys, names)
      ensures w == Order(names)
    {
      DependenciesFirstBounds(m, names);
      WrittenOrderIs(m, keys, names);
    }
    if w.Order? && DependenciesFirst(m, w.names) {
      WrittenOrderIs(m, keys, w.names);
      assert Schedule(m, keys, w.names);
    }
  }

  // ------------------------------------------------------------------ a map on which they differ

  lemma {:induction false} FirstReadyAt(check: Check, m: Deps, keys: seq<Name>, remaining: set<Name>,
                                        selected: set<Name>, i: nat)
    requires remaining <= m.Keys && i < |keys| && keys[i] in remaining && Ready(check, m[keys[i]], selected)
    requires forall j :: 0 <= j < i && keys[j] in remaining ==> !Ready(check, m[keys[j]], selected)
    ensures FirstReady(check, m, keys, remaining, selected) == Some(keys[i])
  {
    if i > 0 {
      FirstReadyAt(check, m, keys[1..], remaining, selected, i - 1);
    }
  }

  lemma PickStep(check: Check, m: Deps, keys: seq<Name>, remaining: set<Name>, selected: set<Name>, retval: seq<Name>,
                 i: nat, remaining': set<Name>, selected': set<Name>, retval': seq<Name>)
    requires remaining <= m.Keys && i < |keys| && keys[i] in remaining && Ready(check, m[keys[i]], selected)
    requires forall j :: 0 <= j < i && keys[j] in remaining ==> !Ready(check, m[keys[j]], selected)
    requires |retval| != |m| && remaining' == remaining - {keys[i]} && selected' == selected + {keys[i]}
    requires retval' == retval + [keys[i]]
    ensures OrderFrom(check, m, keys, remaining, selected, retval)
         == OrderFrom(check, m, keys, remaining', selected', retval')
  {
    FirstReadyAt(check, m, keys, remaining, selected, i);
  }

  lemma FirstTwoPicks(a: Name, b: Name, c: Name, m: Deps, keys: seq<Name>)
    requires a != b && b != c && a != c && m.Keys == {a, b, c} && m[a] == {c} && m[b] == {} && m[c] == {}
    requires keys == [a, b, c] && |m| == 3
    ensures OrderOf(AsWritten, m, keys) == OrderFrom(AsWritten, m, keys, {c}, {b, a}, [b, a])
  {
    PickStep(AsWritten, m, keys, m.Keys, {}, [], 1, {a, c}, {b}, [b]);
    PickStep(AsWritten, m, keys, {a, c}, {b}, [b], 0, {c}, {b, a}, [b, a]);
  }

  lemma ThreeSubjects(a: Name, b: Name, c: Name, m: Deps)
    requires a != b && b != c && a != c && m.Keys == {a, b, c} && m[a] == {c} && m[b] == {} && m[c] == {}
    ensures OrderOf(AsWritten, m, [a, b, c]) == Order([b, a, c])
  {
    assert |m| == |m.Keys| == |{a, b, c}| == 3;
    FirstTwoPicks(a, b, c, m, [a, b, c]);
    PickStep(AsWritten, m, [a, b, c], {c}, {b, a}, [b, a], 2, {}, {b, a, c}, [b, a, c]);
  }

  /** An input on which the loop as written installs "a" before the "c" it depends on. */
  lemma WrittenOrderCanBeWrong()
    ensures var a, b, c := Text("a"), Text("b"), Text("c");
            var m: Deps := map[a := {c}, b := {}, c := {}];
            OrderOf(AsWritten, m, [a, b, c]) == Order([b, a, c]) && !DependenciesFirst(m, [b, a, c])
  {
    var a, b, c := Text("a"), Text("b"), Text("c");
    assert a.text[0] == 'a' && b.text[0] == 'b' && c.text[0] == 'c';
    ThreeSubjects(a, b, c, map[a := {c}, b := {}, c := {}]);
    assert [b, a, c][..1] == [b] && [b, a, c][1] == a;
  }
}
