/** Small functions on sequences, sets and maps, and the range of 32 bit counters. */
module Collections {

  const U32: nat := 0x1_0000_0000

  datatype Option<T> = None | Some(value: T)

  function Find<K, V>(table: map<K, V>, key: K): Option<V> {
    if key in table then Some(table[key]) else None
  }

  /** What a table of lists holds for a key that may be missing. */
  function Lookup<K, V>(table: map<K, seq<V>>, key: K): seq<V> {
    if key in table then table[key] else []
  }

  /** `keys` lists the elements of `s`, each once: one way of iterating over a std::map or std::set. */
  ghost predicate Enumerates<T(!new)>(keys: seq<T>, s: set<T>) {
    && (forall i, j :: 0 <= i < j < |keys| ==> keys[i] != keys[j])
    && (forall k :: k in keys <==> k in s)
  }

  lemma SubsetSize<T>(a: set<T>, b: set<T>)
    requires a <= b
    ensures |a| <= |b|
    ensures |a| == |b| ==> a == b
  {
    assert b == a + (b - a);
    assert |b| == |a| + |b - a|;
  }

  /** The numbers smaller than `n`. */
  function Below(n: nat): (s: set<nat>)
    ensures forall k: nat :: k in s <==> k < n
  {
    if n == 0 then {} else Below(n - 1) + {n - 1}
  }

  lemma {:induction false} BelowSize(n: nat)
    ensures |Below(n)| == n
  {
    if n > 0 {
      BelowSize(n - 1);
    }
  }

  /** The indices below `n` at which `t` stands, in ascending order. */
  function IndicesOf<T(==)>(types: seq<T>, t: T, n: nat): seq<nat>
    requires n <= |types|
  {
    if n == 0 then []
    else if types[n - 1] == t then IndicesOf(types, t, n - 1) + [n - 1]
    else IndicesOf(types, t, n - 1)
  }

  ghost predicate ListsIndices<T>(types: seq<T>, t: T, n: nat, insts: seq<nat>)
    requires n <= |types|
  {
    && (forall k :: 0 <= k < |insts| ==> insts[k] < n && types[insts[k]] == t)
    && (forall i: nat :: i < n && types[i] == t ==> i in insts)
    && (forall p, q :: 0 <= p < q < |insts| ==> insts[p] < insts[q])
  }

  lemma {:induction false} IndicesListed<T>(types: seq<T>, t: T, n: nat)
    requires n <= |types|
    ensures ListsIndices(types, t, n, IndicesOf(types, t, n))
  {
    if n > 0 {
      IndicesListed(types, t, n - 1);
      var rest, all := IndicesOf(types, t, n - 1), IndicesOf(types, t, n);
      if types[n - 1] == t {
        assert all[|rest|] == n - 1;
        assert forall i :: i in rest ==> i in all;
      }
    }
  }

  lemma {:induction false} IndicesOfPrefix<T>(s: seq<T>, more: seq<T>, t: T, n: nat)
    requires n <= |s| && s <= more
    ensures IndicesOf(s, t, n) == IndicesOf(more, t, n)
  {
    if n > 0 {
      IndicesOfPrefix(s, more, t, n - 1);
    }
  }

  lemma IndicesOfNext<T>(s: seq<T>, x: T, t: T)
    ensures IndicesOf(s + [x], t, |s| + 1) == IndicesOf(s, t, |s|) + if x == t then [|s|] else []
  {
    IndicesOfPrefix(s, s + [x], t, |s|);
  }

  lemma OneMore<T>(s: seq<T>, i: nat)
    requires i < |s|
    ensures s[..i + 1] == s[..i] + [s[i]]
    ensures s[..i + 1][..|s[..i + 1]| - 1] == s[..i] && s[..i + 1][|s[..i + 1]| - 1] == s[i]
  {
  }

  /** Iteration over a std::map, in whichever order. */
  method KeysInOrder<K(==,!new), V>(table: map<K, V>) returns (keys: seq<K>)
    ensures Enumerates(keys, table.Keys)
  {
    keys := [];
    var rest := table.Keys;
    while rest != {}
      invariant rest <= table.Keys && Enumerates(keys, table.Keys - rest)
      decreases rest
    {
      var key :| key in rest;
      keys := keys + [key];
      rest := rest - {key};
    }
  }
}
