/** What failed attempts at alternative locations leave behind:
    tools/artifact_installation/artifact_installation_impl.cpp, the loop of install.

    After a failed attempt everything in the list of versions is removed, but the list is not cleared. */
module ArtifactAttempts {
  import opened ArtifactRegistry
  import opened ArtifactUri
  import opened Collections

  function RemovalOf(v: Version): Call {
    RemoveCall(v.protocol, v.location)
  }

  /** How the handlers get on with the protocols of a location. */
  ghost function ChainAt(h: Handlers, n: nat, location: string): Chain {
    match ParseOf(location)
    case Malformed => Chain([], [], PlanError, location)
    case Parsed(stack, path) => ChainFrom(h, n, stack, path)
  }

  /** The handler of the last protocol of the location is known and installs. */
  ghost predicate Records(h: Handlers, n: nat, location: string) {
    var q := ParseOf(location);
    && q.Parsed? && q.stack != []
    && var top := q.stack[|q.stack| - 1]; top in h.known && h.install(n, top, q.location).Installed?
  }

  /** The effect of the first `k` attempts, if they all raise PlanError and can all be cleaned up. */
  ghost function StateAt(h: Handlers, n: nat, versions: seq<Version>, locations: seq<string>, keep: bool, k: nat): Option<Effect>
    requires k <= |locations|
  {
    if k == 0 then Some(Effect(versions, [], NoError))
    else
      match StateAt(h, n, versions, locations, keep, k - 1)
      case None => None
      case Some(s) =>
        var p := After(h, n + |s.calls|, s.versions, ParseOf(locations[k - 1]), keep);
        var c := Cleaned(h, n + |s.calls|, p);
        if p.raised == PlanError && c.raised == NoError then Some(c.(calls := s.calls + c.calls)) else None
  }

  /** What failed attempts record has a protocol that a handler is known for. */
  ghost predicate Removable(h: Handlers, versions: seq<Version>) {
    forall k :: 0 <= k < |versions| ==> versions[k].protocol != [] && versions[k].protocol in h.known
  }

  lemma {:induction false} ChainRemovable(h: Handlers, n: nat, stack: seq<string>, location: string)
    requires AllNames(stack)
    ensures var c := ChainFrom(h, n, stack, location);
            Removable(h, c.versions) && forall x :: x in c.calls ==> x.InstallCall?
    decreases |stack|
  {
    if stack != [] {
      var top := stack[|stack| - 1];
      if top in h.known && h.install(n, top, location).Installed? {
        ChainRemovable(h, n + 1, stack[..|stack| - 1], h.install(n, top, location).location);
      }
    }
  }

  lemma {:induction false} PurgeRemovable(h: Handlers, n: nat, versions: seq<Version>)
    requires Removable(h, versions)
    ensures Removable(h, PurgeFrom(h, n, versions).versions)
    decreases |versions|
  {
    if |versions| > 1 {
      PurgeRemovable(h, n + 1, versions[1..]);
    }
  }

  /** The parts of a location's parse as the handlers see it. */
  lemma ParsedNames(location: string)
    ensures var q := ParseOf(location); q.Parsed? ==> AllNames(q.stack)
  {
    var q := ParseOf(location);
    if ':' in location && q.Parsed? {
      assert IsUri(location, q.stack, q.location);
    }
  }

  lemma AttemptRemovable(h: Handlers, n: nat, versions: seq<Version>, location: string, keep: bool)
    requires Removable(h, versions)
    ensures var p := After(h, n, versions, ParseOf(location), keep);
            p.raised == PlanError ==> Removable(h, p.versions)
  {
    hide ParsesTo, ParseOf;
    ParsedNames(location);
    var q := ParseOf(location);
    if q.Parsed? && q.stack != [] {
      var c := ChainFrom(h, n, q.stack, q.location);
      ChainRemovable(h, n, q.stack, q.location);
      assert Removable(h, versions + c.versions);
      PurgeRemovable(h, n + |c.calls|, versions + c.versions);
    }
  }

  /** An attempt with a list that is not empty: its chain decides how it fails, and a list that stays in place is
      not shortened at the front by anything but a removal. */
  lemma AttemptOnList(h: Handlers, n: nat, versions: seq<Version>, location: string, keep: bool)
    requires versions != [] && Removable(h, versions)
    ensures var p, c := After(h, n, versions, ParseOf(location), keep), ChainAt(h, n, location);
            && (c.raised == OtherError ==> p.raised == OtherError && forall x :: x in p.calls ==> x.InstallCall?)
            && (c.raised == PlanError ==> p.raised == PlanError)
            && (c.raised != OtherError ==>
                  RemovalOf(versions[0]) in p.calls || (p.versions != [] && p.versions[0] == versions[0]))
  {
    hide ParsesTo, ParseOf, ChainFrom;
    ParsedNames(location);
    var q := ParseOf(location);
    if q.Parsed? {
      ChainEnd(h, n, q.location, [], []);
      if q.stack != [] {
        var c := ChainFrom(h, n, q.stack, q.location);
        ChainRemovable(h, n, q.stack, q.location);
        ChainMeans(h, n, q.stack, q.location);
        assert (versions + c.versions)[0] == versions[0];
      }
    }
  }

  /** `v` is handed to its handler, or still in the list after a success. */
  predicate Reuses(t: Effect, v: Version) {
    RemovalOf(v) in t.calls || (t.raised == NoError && v in t.versions)
  }

  /** With versions of failed attempts in the list, the next attempt hands the first of them to its handler or
      succeeds with it in the list; unless a handler raises something else than PlanError, and then none is touched. */
  lemma StaleIsReused(h: Handlers, n: nat, versions: seq<Version>, locations: seq<string>, keep: bool)
    requires versions != [] && Removable(h, versions) && locations != []
    ensures var t := AttemptsFrom(h, n, versions, locations, keep);
            (exists v :: v in versions && Reuses(t, v)) <==> ChainAt(h, n, locations[0]).raised != OtherError
  {
    hide ChainAt, After, Cleaned, ParseOf;
    var t, v := AttemptsFrom(h, n, versions, locations, keep), versions[0];
    var p := After(h, n, versions, ParseOf(locations[0]), keep);
    AttemptOnList(h, n, versions, locations[0], keep);
    if ChainAt(h, n, locations[0]).raised != OtherError {
      assert v in versions && Reuses(t, v) by {
        StaleFirst(h, n, versions, locations, keep);
      }
    } else {
      assert t == p;
    }
  }

  lemma StaleFirst(h: Handlers, n: nat, versions: seq<Version>, locations: seq<string>, keep: bool)
    requires versions != [] && Removable(h, versions) && locations != []
    requires ChainAt(h, n, locations[0]).raised != OtherError
    ensures Reuses(AttemptsFrom(h, n, versions, locations, keep), versions[0])
  {
  }

  // ------------------------------------------------------------------ the whole loop

  /** The attempts go on from where failed ones have left the list. */
  lemma {:induction false} GoesOn(h: Handlers, n: nat, versions: seq<Version>, locations: seq<string>, keep: bool, k: nat)
    requires Removable(h, versions) && k < |locations| && StateAt(h, n, versions, locations, keep, k).Some?
    ensures var s := StateAt(h, n, versions, locations, keep, k).value;
            var t := AttemptsFrom(h, n, versions, locations, keep);
            var rest := AttemptsFrom(h, n + |s.calls|, s.versions, locations[k..], keep);
            && Removable(h, s.versions)
            && t == rest.(calls := s.calls + rest.calls) && t.calls[|s.calls|..] == rest.calls
  {
    hide After, Cleaned, ParseOf;
    if k == 0 {
      assert locations[0..] == locations;
    } else {
      GoesOn(h, n, versions, locations, keep, k - 1);
      var s := StateAt(h, n, versions, locations, keep, k - 1).value;
      AttemptRemovable(h, n + |s.calls|, s.versions, locations[k - 1], keep);
      NextAttempt(h, n, locations, keep, k - 1, s);
    }
  }

  lemma NextAttempt(h: Handlers, n: nat, locations: seq<string>, keep: bool, k: nat, s: Effect)
    requires k + 1 < |locations|
    requires var p := After(h, n + |s.calls|, s.versions, ParseOf(locations[k]), keep);
             p.raised == PlanError && Cleaned(h, n + |s.calls|, p).raised == NoError
    ensures var p := After(h, n + |s.calls|, s.versions, ParseOf(locations[k]), keep);
            var c := Cleaned(h, n + |s.calls|, p);
            var rest := AttemptsFrom(h, n + |s.calls|, s.versions, locations[k..], keep);
            var more := AttemptsFrom(h, n + |s.calls + c.calls|, p.versions, locations[k + 1..], keep);
            && c.versions == p.versions
            && rest == more.(calls := c.calls + more.calls)
            && s.calls + rest.calls == s.calls + c.calls + more.calls
  {
    hide After, ParseOf, RemoveAll;
    assert locations[k..][0] == locations[k] && locations[k..][1..] == locations[k + 1..];
  }

  /** Version `v`, removed after the failure of one of the first `k` attempts or in an earlier installation, is removed
      again later, or is in the list after the installation succeeded. */
  ghost predicate Again(h: Handlers, n: nat, versions: seq<Version>, locations: seq<string>, keep: bool, k: nat, v: Version) {
    && k < |locations|
    && var s := StateAt(h, n, versions, locations, keep, k);
    && s.Some? && v in s.value.versions
    && var t := AttemptsFrom(h, n, versions, locations, keep);
    && |s.value.calls| <= |t.calls|
    && (RemovalOf(v) in t.calls[|s.value.calls|..] || (t.raised == NoError && v in t.versions))
  }

  /** The attempts before location `i` fail and can be cleaned up, in the last of them the first handler has installed
      (or there were versions before any attempt), and no handler raises anything but PlanError when the protocols of
      location `i` are processed. */
  ghost predicate MeetsStale(h: Handlers, n: nat, versions: seq<Version>, locations: seq<string>, keep: bool, i: nat) {
    && i < |locations|
    && var s := StateAt(h, n, versions, locations, keep, i);
    && s.Some?
    && HasStale(h, n, versions, locations, keep, i)
    && ChainAt(h, n + |s.value.calls|, locations[i]).raised != OtherError
  }

  ghost predicate HasStale(h: Handlers, n: nat, versions: seq<Version>, locations: seq<string>, keep: bool, i: nat)
    requires i <= |locations|
  {
    if i == 0 then versions != []
    else
      var s := StateAt(h, n, versions, locations, keep, i - 1);
      s.Some? && Records(h, n + |s.value.calls|, locations[i - 1])
  }

  /** A failed attempt leaves the list empty exactly if it was and the first handler did not install. */
  lemma RecordsOrNot(h: Handlers, n: nat, versions: seq<Version>, location: string, keep: bool)
    requires After(h, n, versions, ParseOf(location), keep).raised == PlanError
    ensures After(h, n, versions, ParseOf(location), keep).versions != [] <==> versions != [] || Records(h, n, location)
  {
    hide ParsesTo, ParseOf;
    var q := ParseOf(location);
    if q.Parsed? {
      var c := ChainFrom(h, n, q.stack, q.location);
      if versions + c.versions != [] {
        PurgeMeans(h, n + |c.calls|, versions + c.versions);
      }
    }
  }

  /** A failed attempt was not ended by anything but a PlanError of its chain. */
  lemma FailedChain(h: Handlers, n: nat, versions: seq<Version>, location: string, keep: bool)
    requires After(h, n, versions, ParseOf(location), keep).raised == PlanError
    ensures ChainAt(h, n, location).raised != OtherError
  {
  }

  lemma RecordStep(h: Handlers, n: nat, versions: seq<Version>, locations: seq<string>, keep: bool, k: nat)
    requires k < |locations| && StateAt(h, n, versions, locations, keep, k + 1).Some?
    ensures StateAt(h, n, versions, locations, keep, k).Some?
    ensures var s, s' := StateAt(h, n, versions, locations, keep, k), StateAt(h, n, versions, locations, keep, k + 1);
            && (s'.value.versions != [] <==> s.value.versions != [] || Records(h, n + |s.value.calls|, locations[k]))
            && ChainAt(h, n + |s.value.calls|, locations[k]).raised != OtherError
  {
    hide After, ParseOf, RemoveAll, Records, ChainAt;
    var s := StateAt(h, n, versions, locations, keep, k).value;
    RecordsOrNot(h, n + |s.calls|, s.versions, locations[k], keep);
    FailedChain(h, n + |s.calls|, s.versions, locations[k], keep);
  }

  /** The first location for which the list is not empty, if it is not after `k` failures. */
  lemma {:induction false} FirstStale(h: Handlers, n: nat, versions: seq<Version>, locations: seq<string>, keep: bool, k: nat)
    returns (i: nat)
    requires k < |locations|
    requires var s := StateAt(h, n, versions, locations, keep, k); s.Some? && s.value.versions != []
    ensures i <= k && StateAt(h, n, versions, locations, keep, i).Some? && HasStale(h, n, versions, locations, keep, i)
    ensures i < k ==> ChainAt(h, n + |StateAt(h, n, versions, locations, keep, i).value.calls|, locations[i]).raised != OtherError
  {
    hide Records, ChainAt, After, Cleaned, ParseOf;
    i := k;
    if k > 0 {
      hide StateAt;
      RecordStep(h, n, versions, locations, keep, k - 1);
      if StateAt(h, n, versions, locations, keep, k - 1).value.versions != [] {
        hide HasStale;
        i := FirstStale(h, n, versions, locations, keep, k - 1);
      }
    }
  }

  /** When a version of a failed attempt is handed to a handler again, or is left after success: exactly when an
      attempt fails after its first handler has installed (or an earlier installation has left versions), there is
      another location, and the handlers of that one raise nothing but PlanError. */
  lemma VersionsReusedExactly(h: Handlers, n: nat, versions: seq<Version>, locations: seq<string>, keep: bool)
    requires Removable(h, versions)
    ensures (exists k: nat, v :: Again(h, n, versions, locations, keep, k, v))
       <==> (exists i: nat :: MeetsStale(h, n, versions, locations, keep, i))
  {
    hide Again, MeetsStale, Removable;
    if k: nat, v :| Again(h, n, versions, locations, keep, k, v) {
      var i := AgainMeetsStale(h, n, versions, locations, keep, k, v);
    }
    if i: nat :| MeetsStale(h, n, versions, locations, keep, i) {
      var v := StaleIsMetAgain(h, n, versions, locations, keep, i);
    }
  }

  lemma AgainMeetsStale(h: Handlers, n: nat, versions: seq<Version>, locations: seq<string>, keep: bool, k: nat, v: Version)
    returns (i: nat)
    requires Removable(h, versions) && Again(h, n, versions, locations, keep, k, v)
    ensures MeetsStale(h, n, versions, locations, keep, i)
  {
    hide AttemptsFrom, ChainAt, After, Removable, Records, StateAt, HasStale;
    GoesOn(h, n, versions, locations, keep, k);
    i := FirstStale(h, n, versions, locations, keep, k);
    if i == k {
      var s := StateAt(h, n, versions, locations, keep, k).value;
      StaleIsReused(h, n + |s.calls|, s.versions, locations[k..], keep);
      assert Reuses(AttemptsFrom(h, n + |s.calls|, s.versions, locations[k..], keep), v);
    }
  }

  lemma StaleIsThere(h: Handlers, n: nat, versions: seq<Version>, locations: seq<string>, keep: bool, i: nat)
    requires i < |locations| && StateAt(h, n, versions, locations, keep, i).Some? && HasStale(h, n, versions, locations, keep, i)
    ensures StateAt(h, n, versions, locations, keep, i).value.versions != []
  {
    hide Records, ChainAt, After, Cleaned, ParseOf;
    if i > 0 {
      hide StateAt;
      RecordStep(h, n, versions, locations, keep, i - 1);
    }
  }

  lemma StaleIsMetAgain(h: Handlers, n: nat, versions: seq<Version>, locations: seq<string>, keep: bool, i: nat)
    returns (v: Version)
    requires Removable(h, versions) && MeetsStale(h, n, versions, locations, keep, i)
    ensures Again(h, n, versions, locations, keep, i, v)
  {
    hide AttemptsFrom, ChainAt, After, Removable, Records, StateAt, HasStale;
    GoesOn(h, n, versions, locations, keep, i);
    StaleIsThere(h, n, versions, locations, keep, i);
    var s := StateAt(h, n, versions, locations, keep, i).value;
    StaleIsReused(h, n + |s.calls|, s.versions, locations[i..], keep);
    v :| v in s.versions && Reuses(AttemptsFrom(h, n + |s.calls|, s.versions, locations[i..], keep), v);
  }

  // ------------------------------------------------------------------ three locations

  const Zip: string := ['z']

  /** One handler, which always succeeds. */
  function OneHandler(): Handlers {
    Handlers({Zip}, (n, protocol, location) => Installed(['x']), (n, protocol, location) => NoError)
  }

  /** An unknown protocol below a known one, a malformed location, and a path. */
  function ThreeLocations(): seq<string> {
    [PrintUri([['u'], Zip], ['p']), [':'], ['q']]
  }

  lemma TheyParse()
    ensures var l := ThreeLocations();
            ParseOf(l[0]) == Parsed([['u'], Zip], ['p']) && ParseOf(l[1]) == Malformed && ParseOf(l[2]) == Parsed([], ['q'])
  {
    var l := ThreeLocations();
    assert IsUri(l[0], [['u'], Zip], ['p']);
    HasColon([['u'], Zip], ['p']);
    NoUri(l[1], [], l[1]);
    ParseIsUnique(l[1], Malformed);
  }

  lemma FirstFails(n: nat, keep: bool)
    ensures After(OneHandler(), n, [], Parsed([['u'], Zip], ['p']), keep)
         == Effect([Version(Zip, ['x'])], [InstallCall(Zip, ['p'])], PlanError)
  {
    assert [['u'], Zip][..1] == [['u']];
    assert ChainFrom(OneHandler(), n + 1, [['u']], ['x']) == Chain([], [], PlanError, ['x']);
  }

  lemma ZipIsRemoved(n: nat)
    ensures RemoveAll(OneHandler(), n, [Version(Zip, ['x'])]) == ([RemovalOf(Version(Zip, ['x']))], NoError)
  {
    var h, v := OneHandler(), Version(Zip, ['x']);
    assert [v][1..] == [] && [RemovalOf(v)] + RemoveAll(h, n + 1, []).0 == [RemovalOf(v)];
  }

  /** The version that the first attempt installed is removed twice, once for each failure, and left in the list
      when the third attempt succeeds. */
  lemma RemovedTwiceAndLeft(keep: bool)
    ensures var x := Version(Zip, ['x']);
            (AttemptsFrom(OneHandler(), 0, [], ThreeLocations(), keep)
             == Effect([x, Version([], ['q'])], [InstallCall(Zip, ['p']), RemovalOf(x), RemovalOf(x)], NoError))
  {
    hide ParseOf, ChainFrom, RemoveAll;
    TheyParse();
    FirstFails(0, keep);
    ZipIsRemoved(1);
    ZipIsRemoved(2);
    var h, l, x := OneHandler(), ThreeLocations(), Version(Zip, ['x']);
    assert l[1..] == [[':'], ['q']] && l[1..][1..] == [['q']];
    assert AttemptsFrom(h, 3, [x], [['q']], keep) == Effect([x, Version([], ['q'])], [], NoError);
    assert AttemptsFrom(h, 2, [x], l[1..], keep) == Effect([x, Version([], ['q'])], [RemovalOf(x)], NoError);
  }
}
