/** Installation and removal of artifacts by one thread: tools/artifact_installation/artifact_installation_impl.cpp. */
module ArtifactRegistry {
  import opened ArtifactUri
  import opened Collections

  datatype Key = Key(plan: string, name: string)

  datatype Version = Version(protocol: string, location: string)

  datatype Registry = Registry(count: nat, versions: seq<Version>)

  /** How a call ends: handlers may raise a PlanError, which `install` catches, or something else. */
  datatype Raised = NoError | PlanError | OtherError

  datatype InstallOutcome = Installed(location: string) | InstallFailed(raised: Raised)

  datatype Call = InstallCall(protocol: string, location: string) | RemoveCall(protocol: string, location: string)

  /** The protocol handlers: which there are, and how the n-th call of a handler ends. */
  datatype Handlers = Handlers(known: set<string>, install: (nat, string, string) -> InstallOutcome,
                               remove: (nat, string, string) -> Raised)

  // ------------------------------------------------------------------ what handlers are called for

  /** The protocols of a stack have been processed, from the top. */
  datatype Chain = Chain(versions: seq<Version>, calls: seq<Call>, raised: Raised, location: string)

  function ChainFrom(h: Handlers, n: nat, stack: seq<string>, location: string): Chain
    decreases |stack|
  {
    if stack == [] then Chain([], [], NoError, location)
    else
      var top := stack[|stack| - 1];
      if top !in h.known then Chain([], [], PlanError, location)
      else
        match h.install(n, top, location)
        case InstallFailed(raised) =>
          Chain([], [InstallCall(top, location)], if raised == NoError then OtherError else raised, location)
        case Installed(newLocation) =>
          var more := ChainFrom(h, n + 1, stack[..|stack| - 1], newLocation);
          more.(versions := [Version(top, newLocation)] + more.versions, calls := [InstallCall(top, location)] + more.calls)
  }

  /** The list of versions afterwards, the calls of handlers, and how it ended. */
  datatype Effect = Effect(versions: seq<Version>, calls: seq<Call>, raised: Raised)

  /** Versions are removed from the front until one is left. */
  function PurgeFrom(h: Handlers, n: nat, versions: seq<Version>): Effect
    decreases |versions|
  {
    if |versions| <= 1 then Effect(versions, [], NoError)
    else
      var v := versions[0];
      if v.protocol !in h.known then PurgeFrom(h, n, versions[1..])
      else
        var raised := h.remove(n, v.protocol, v.location);
        if raised != NoError then Effect(versions, [RemoveCall(v.protocol, v.location)], raised)
        else
          var more := PurgeFrom(h, n + 1, versions[1..]);
          more.(calls := [RemoveCall(v.protocol, v.location)] + more.calls)
  }

  /** All versions with a protocol are removed, the list stays as it is. */
  function RemoveAll(h: Handlers, n: nat, versions: seq<Version>): (r: (seq<Call>, Raised))
    decreases |versions|
  {
    if versions == [] then ([], NoError)
    else
      var v := versions[0];
      if v.protocol == [] || v.protocol !in h.known then RemoveAll(h, n, versions[1..])
      else
        var raised := h.remove(n, v.protocol, v.location);
        if raised != NoError then ([RemoveCall(v.protocol, v.location)], raised)
        else
          var (calls, last) := RemoveAll(h, n + 1, versions[1..]);
          ([RemoveCall(v.protocol, v.location)] + calls, last)
  }

  /** The removals that a list of versions asks for. */
  function Removals(h: Handlers, versions: seq<Version>): seq<Call> {
    if versions == [] then []
    else
      var v := versions[0];
      (if v.protocol != [] && v.protocol in h.known then [RemoveCall(v.protocol, v.location)] else [])
      + Removals(h, versions[1..])
  }

  predicate HasHandler(h: Handlers, v: Version) {
    v.protocol != [] && v.protocol in h.known
  }

  /** `ks` are the positions of the versions that have a handler, in ascending order. */
  ghost predicate ListsHandled(h: Handlers, versions: seq<Version>, ks: seq<nat>) {
    && (forall j :: 0 <= j < |ks| ==> ks[j] < |versions| && HasHandler(h, versions[ks[j]]))
    && (forall k: nat :: k < |versions| && HasHandler(h, versions[k]) ==> k in ks)
    && (forall i, j :: 0 <= i < j < |ks| ==> ks[i] < ks[j])
  }

  function OneUp(ks: seq<nat>): (r: seq<nat>)
    ensures |r| == |ks| && forall j :: 0 <= j < |ks| ==> r[j] == ks[j] + 1
  {
    seq(|ks|, j requires 0 <= j < |ks| => ks[j] + 1)
  }

  /** The positions of the versions that have a handler. */
  function Handled(h: Handlers, versions: seq<Version>): seq<nat>
    decreases |versions|
  {
    if versions == [] then []
    else (if HasHandler(h, versions[0]) then [0] else []) + OneUp(Handled(h, versions[1..]))
  }

  lemma {:induction false} HandledListed(h: Handlers, versions: seq<Version>)
    ensures ListsHandled(h, versions, Handled(h, versions))
    decreases |versions|
  {
    if versions != [] {
      HandledListed(h, versions[1..]);
      var first := if HasHandler(h, versions[0]) then [0] else [];
      HandledOneUp(h, versions, first, Handled(h, versions[1..]));
    }
  }

  lemma HandledOneUp(h: Handlers, versions: seq<Version>, first: seq<nat>, rest: seq<nat>)
    requires versions != [] && ListsHandled(h, versions[1..], rest)
    requires first == if HasHandler(h, versions[0]) then [0] else []
    ensures ListsHandled(h, versions, first + OneUp(rest))
  {
    hide HasHandler;
    var ks := first + OneUp(rest);
    forall j | 0 <= j < |ks|
      ensures ks[j] < |versions| && HasHandler(h, versions[ks[j]])
    {
      if j >= |first| {
        assert versions[1..][rest[j - |first|]] == versions[ks[j]];
      }
    }
    forall k: nat | k < |versions| && HasHandler(h, versions[k])
      ensures k in ks
    {
      HandledIsIn(h, versions, first, rest, k);
    }
  }

  lemma HandledIsIn(h: Handlers, versions: seq<Version>, first: seq<nat>, rest: seq<nat>, k: nat)
    requires versions != [] && ListsHandled(h, versions[1..], rest) && k < |versions| && HasHandler(h, versions[k])
    requires first == if HasHandler(h, versions[0]) then [0] else []
    ensures k in first + OneUp(rest)
  {
    hide HasHandler;
    var ks := first + OneUp(rest);
    if k == 0 {
      assert ks[0] == 0;
    } else {
      assert HasHandler(h, versions[1..][k - 1]);
      var j :| 0 <= j < |rest| && rest[j] == k - 1;
      assert ks[|first| + j] == k;
    }
  }

  lemma RemovalsUnfold(h: Handlers, versions: seq<Version>)
    requires versions != []
    ensures var v := versions[0];
            if HasHandler(h, v) then
              && Removals(h, versions) == [RemoveCall(v.protocol, v.location)] + Removals(h, versions[1..])
              && Handled(h, versions) == [0] + OneUp(Handled(h, versions[1..]))
            else
              && Removals(h, versions) == Removals(h, versions[1..])
              && Handled(h, versions) == OneUp(Handled(h, versions[1..]))
  {
  }

  lemma NothingHandled(h: Handlers)
    ensures Handled(h, []) == [] && Removals(h, []) == []
  {
  }

  lemma {:induction false} AsManyRemovals(h: Handlers, versions: seq<Version>)
    ensures |Removals(h, versions)| == |Handled(h, versions)|
    decreases |versions|
  {
    hide Removals, Handled, HasHandler;
    if versions != [] {
      RemovalsUnfold(h, versions);
      AsManyRemovals(h, versions[1..]);
    } else {
      NothingHandled(h);
    }
  }

  lemma {:induction false} RemovalAt(h: Handlers, versions: seq<Version>, j: nat)
    requires j < |Handled(h, versions)| && |Removals(h, versions)| == |Handled(h, versions)|
    ensures var k := Handled(h, versions)[j];
            k < |versions| && Removals(h, versions)[j] == RemoveCall(versions[k].protocol, versions[k].location)
    decreases |versions|
  {
    hide Removals, Handled, HasHandler;
    NothingHandled(h);
    RemovalsUnfold(h, versions);
    AsManyRemovals(h, versions[1..]);
    var first := if HasHandler(h, versions[0]) then 1 else 0;
    if j >= first {
      RemovalAt(h, versions[1..], j - first);
    }
  }

  /** Each version that has a handler is asked to be removed, in order, and no other one. */
  lemma RemovalsAt(h: Handlers, versions: seq<Version>) returns (ks: seq<nat>)
    ensures ListsHandled(h, versions, ks) && |Removals(h, versions)| == |ks|
    ensures forall j :: 0 <= j < |ks| ==>
                          Removals(h, versions)[j] == RemoveCall(versions[ks[j]].protocol, versions[ks[j]].location)
  {
    hide Removals, Handled;
    ks := Handled(h, versions);
    HandledListed(h, versions);
    AsManyRemovals(h, versions);
    forall j | 0 <= j < |ks|
      ensures Removals(h, versions)[j] == RemoveCall(versions[ks[j]].protocol, versions[ks[j]].location)
    {
      RemovalAt(h, versions, j);
    }
  }

  /** Without failure every version with a known protocol is removed, once and in order; otherwise the first ones up to
      the one that failed. */
  lemma {:induction false} RemoveAllMeans(h: Handlers, n: nat, versions: seq<Version>)
    ensures var (calls, raised) := RemoveAll(h, n, versions);
            && calls <= Removals(h, versions)
            && (raised == NoError ==> calls == Removals(h, versions))
            && (raised != NoError ==>
                  calls != [] && var last := calls[|calls| - 1]; h.remove(n + |calls| - 1, last.protocol, last.location) == raised)
    decreases |versions|
  {
    hide RemoveAll, Removals;
    if versions != [] {
      RemoveAllStep(h, n, versions);
      RemoveAllMeans(h, if HasHandler(h, versions[0]) then n + 1 else n, versions[1..]);
    } else {
      NothingToRemove(h, n);
    }
  }

  lemma NothingToRemove(h: Handlers, n: nat)
    ensures RemoveAll(h, n, []) == ([], NoError) && Removals(h, []) == []
  {
  }

  lemma RemoveAllStep(h: Handlers, n: nat, versions: seq<Version>)
    requires versions != []
    ensures var v, r, rest := versions[0], RemoveAll(h, n, versions), versions[1..];
            var call := RemoveCall(v.protocol, v.location);
            if v.protocol == [] || v.protocol !in h.known then
              r == RemoveAll(h, n, rest) && Removals(h, versions) == Removals(h, rest)
            else
              && Removals(h, versions) == [call] + Removals(h, rest)
              && r == if h.remove(n, v.protocol, v.location) != NoError then ([call], h.remove(n, v.protocol, v.location))
                      else ([call] + RemoveAll(h, n + 1, rest).0, RemoveAll(h, n + 1, rest).1)
  {
    hide RemoveAll;
    RemoveAllUnfolds(h, n, versions);
    assert [] + Removals(h, versions[1..]) == Removals(h, versions[1..]);
  }

  lemma RemoveAllUnfolds(h: Handlers, n: nat, versions: seq<Version>)
    requires versions != []
    ensures var v, r, rest := versions[0], RemoveAll(h, n, versions), versions[1..];
            var call := RemoveCall(v.protocol, v.location);
            if v.protocol == [] || v.protocol !in h.known then r == RemoveAll(h, n, rest)
            else r == if h.remove(n, v.protocol, v.location) != NoError then ([call], h.remove(n, v.protocol, v.location))
                      else ([call] + RemoveAll(h, n + 1, rest).0, RemoveAll(h, n + 1, rest).1)
  {
  }

  /** One attempt at one location. */
  function After(h: Handlers, n: nat, versions: seq<Version>, parsed: Parsed, keep: bool): Effect {
    match parsed
    case Malformed => Effect(versions, [], PlanError)
    case Parsed(stack, location) =>
      if stack == [] then Effect(versions + [Version([], location)], [], NoError)
      else
        var c := ChainFrom(h, n, stack, location);
        if c.raised != NoError || keep then Effect(versions + c.versions, c.calls, c.raised)
        else
          var p := PurgeFrom(h, n + |c.calls|, versions + c.versions);
          p.(calls := c.calls + p.calls)
  }

  /** After an attempt that ended with `p` everything in the list is removed; the list is not cleared. */
  function Cleaned(h: Handlers, n: nat, p: Effect): Effect {
    var (removals, failed) := RemoveAll(h, n + |p.calls|, p.versions);
    Effect(p.versions, p.calls + removals, failed)
  }

  /** The attempts at a list of locations one after the other, beginning with a list of versions. */
  ghost function AttemptsFrom(h: Handlers, n: nat, versions: seq<Version>, locations: seq<string>, keep: bool): Effect
    decreases |locations|
  {
    if locations == [] then Effect(versions, [], NoError)
    else
      var p := After(h, n, versions, ParseOf(locations[0]), keep);
      var c := Cleaned(h, n, p);
      if p.raised != PlanError then p
      else if c.raised != NoError then c
      else if |locations| == 1 then c.(raised := PlanError)
      else
        var more := AttemptsFrom(h, n + |c.calls|, c.versions, locations[1..], keep);
        more.(calls := c.calls + more.calls)
  }

  lemma {:induction false} ChainMeans(h: Handlers, n: nat, stack: seq<string>, location: string)
    ensures var c := ChainFrom(h, n, stack, location);
            && |c.versions| <= |stack|
            && (c.raised == NoError ==>
                  && |c.versions| == |stack|
                  && (stack != [] ==> c.versions[|stack| - 1] == Version(stack[0], c.location))
                  && forall k :: 0 <= k < |stack| ==> c.versions[k].protocol == stack[|stack| - 1 - k])
    decreases |stack|
  {
    if stack != [] {
      var top := stack[|stack| - 1];
      if top in h.known && h.install(n, top, location).Installed? {
        ChainMeans(h, n + 1, stack[..|stack| - 1], h.install(n, top, location).location);
        if |stack| == 1 {
          assert stack[..0] == [];
        }
      }
    }
  }

  lemma {:induction false} ChainSizes(h: Handlers, n: nat, stack: seq<string>, location: string)
    ensures var c := ChainFrom(h, n, stack, location);
            && |c.versions| <= |c.calls| <= |c.versions| + 1 && |c.calls| <= |stack|
            && (c.raised == NoError <==> |c.versions| == |stack|)
    decreases |stack|
  {
    if stack != [] {
      var top := stack[|stack| - 1];
      if top in h.known && h.install(n, top, location).Installed? {
        var next := h.install(n, top, location).location;
        ChainSizes(h, n + 1, stack[..|stack| - 1], next);
        ChainShift(h, n, stack, location, top, next);
      }
    }
  }

  lemma {:induction false} ChainCallAt(h: Handlers, n: nat, stack: seq<string>, location: string, k: nat)
    requires k < |ChainFrom(h, n, stack, location).calls|
    ensures var c := ChainFrom(h, n, stack, location);
            && k < |stack| && k <= |c.versions|
            && c.calls[k] == InstallCall(stack[|stack| - 1 - k], if k == 0 then location else c.versions[k - 1].location)
    decreases |stack|
  {
    ChainSizes(h, n, stack, location);
    var top := stack[|stack| - 1];
    if k > 0 {
      var next := h.install(n, top, location).location;
      ChainShift(h, n, stack, location, top, next);
      ChainCallAt(h, n + 1, stack[..|stack| - 1], next, k - 1);
    }
  }

  lemma {:induction false} ChainVersionAt(h: Handlers, n: nat, stack: seq<string>, location: string, k: nat)
    requires k < |ChainFrom(h, n, stack, location).versions|
    ensures var c := ChainFrom(h, n, stack, location);
            && k < |stack| && k < |c.calls| && c.versions[k].protocol == stack[|stack| - 1 - k]
            && c.versions[k].protocol in h.known
            && h.install(n + k, c.calls[k].protocol, c.calls[k].location) == Installed(c.versions[k].location)
    decreases |stack|
  {
    ChainSizes(h, n, stack, location);
    var top := stack[|stack| - 1];
    var next := h.install(n, top, location).location;
    ChainShift(h, n, stack, location, top, next);
    if k > 0 {
      ChainVersionAt(h, n + 1, stack[..|stack| - 1], next, k - 1);
    }
  }

  /** The handlers are called for the protocols from top to bottom, the first with the location that was asked for, every
      other one with the location that the one before has installed to, until one fails or there is none for the next
      protocol. */
  lemma ChainCalls(h: Handlers, n: nat, stack: seq<string>, location: string)
    ensures var c := ChainFrom(h, n, stack, location);
            && |c.versions| <= |c.calls| <= |c.versions| + 1 && |c.calls| <= |stack|
            && (c.raised == NoError <==> |c.versions| == |stack|)
            && (forall k :: 0 <= k < |c.calls| ==>
                  c.calls[k] == InstallCall(stack[|stack| - 1 - k], if k == 0 then location else c.versions[k - 1].location))
            && (forall k :: 0 <= k < |c.versions| ==>
                  && c.versions[k].protocol == stack[|stack| - 1 - k]
                  && h.install(n + k, c.calls[k].protocol, c.calls[k].location) == Installed(c.versions[k].location))
  {
    hide ChainFrom;
    var c := ChainFrom(h, n, stack, location);
    ChainSizes(h, n, stack, location);
    forall k | 0 <= k < |c.calls|
      ensures c.calls[k] == InstallCall(stack[|stack| - 1 - k], if k == 0 then location else c.versions[k - 1].location)
    {
      ChainCallAt(h, n, stack, location, k);
    }
    forall k | 0 <= k < |c.versions|
      ensures c.versions[k].protocol == stack[|stack| - 1 - k]
      ensures h.install(n + k, c.calls[k].protocol, c.calls[k].location) == Installed(c.versions[k].location)
    {
      ChainVersionAt(h, n, stack, location, k);
    }
  }

  lemma ChainShift(h: Handlers, n: nat, stack: seq<string>, location: string, top: string, next: string)
    requires stack != [] && top == stack[|stack| - 1] && top in h.known && h.install(n, top, location) == Installed(next)
    ensures var c, more := ChainFrom(h, n, stack, location), ChainFrom(h, n + 1, stack[..|stack| - 1], next);
            && |c.versions| == |more.versions| + 1 && c.versions[0] == Version(top, next)
            && (forall k :: 0 < k < |c.versions| ==> c.versions[k] == more.versions[k - 1])
            && |c.calls| == |more.calls| + 1 && c.calls[0] == InstallCall(top, location)
            && (forall k :: 0 < k < |c.calls| ==> c.calls[k] == more.calls[k - 1])
            && c.raised == more.raised
  {
  }

  lemma {:induction false} PurgeMeans(h: Handlers, n: nat, versions: seq<Version>)
    requires versions != []
    ensures var p := PurgeFrom(h, n, versions);
            && p.versions != [] && p.versions[|p.versions| - 1] == versions[|versions| - 1]
            && (p.raised == NoError ==> p.versions == [versions[|versions| - 1]])
    decreases |versions|
  {
    if |versions| > 1 {
      var v := versions[0];
      if v.protocol !in h.known {
        PurgeMeans(h, n, versions[1..]);
      } else {
        PurgeMeans(h, n + 1, versions[1..]);
      }
    }
  }

  /** No version is of the empty protocol, should that have a handler. */
  predicate ProtocolsNamed(h: Handlers, versions: seq<Version>) {
    forall k :: 0 <= k < |versions| ==> versions[k].protocol in h.known ==> versions[k].protocol != []
  }

  function AllButLast(versions: seq<Version>): seq<Version>
    requires versions != []
  {
    versions[..|versions| - 1]
  }

  lemma PurgeStep(h: Handlers, n: nat, versions: seq<Version>)
    requires |versions| > 1 && ProtocolsNamed(h, versions)
    ensures ProtocolsNamed(h, versions[1..])
    ensures var v, p, rest := versions[0], PurgeFrom(h, n, versions), versions[1..];
            var first := if v.protocol in h.known then [RemoveCall(v.protocol, v.location)] else [];
            && Removals(h, AllButLast(versions)) == first + Removals(h, AllButLast(rest))
            && (v.protocol !in h.known ==> p == PurgeFrom(h, n, rest))
            && (v.protocol in h.known && h.remove(n, v.protocol, v.location) != NoError ==>
                  p == Effect(versions, first, h.remove(n, v.protocol, v.location)))
            && (v.protocol in h.known && h.remove(n, v.protocol, v.location) == NoError ==>
                  p == PurgeFrom(h, n + 1, rest).(calls := first + PurgeFrom(h, n + 1, rest).calls))
  {
    var rest, front := versions[1..], AllButLast(versions);
    assert front[0] == versions[0] && front[1..] == AllButLast(rest);
  }

  /** A purge without failure asks for the removal of all versions but the last that have a handler, each once and in
      order; with one, for the first of them up to the one that fails. */
  lemma {:induction false} PurgeCalls(h: Handlers, n: nat, versions: seq<Version>)
    requires versions != [] && ProtocolsNamed(h, versions)
    ensures var p := PurgeFrom(h, n, versions);
            && p.calls <= Removals(h, AllButLast(versions))
            && (p.raised == NoError ==> p.calls == Removals(h, AllButLast(versions)))
    decreases |versions|
  {
    hide PurgeFrom, Removals, ProtocolsNamed, AllButLast;
    if |versions| > 1 {
      PurgeStep(h, n, versions);
      PurgeCalls(h, if versions[0].protocol !in h.known then n else n + 1, versions[1..]);
      assert forall a: seq<Call>, b: seq<Call>, c: seq<Call> :: a <= b ==> c + a <= c + b;
    } else {
      NothingToPurge(h, n, versions);
    }
  }

  lemma NothingToPurge(h: Handlers, n: nat, versions: seq<Version>)
    requires |versions| == 1
    ensures PurgeFrom(h, n, versions) == Effect(versions, [], NoError) && Removals(h, AllButLast(versions)) == []
  {
  }

  /** The failure of a purge is that of its last call, and the list then begins with the version of that call. */
  lemma {:induction false} PurgeFailure(h: Handlers, n: nat, versions: seq<Version>)
    requires versions != [] && ProtocolsNamed(h, versions) && PurgeFrom(h, n, versions).raised != NoError
    ensures var p := PurgeFrom(h, n, versions);
            && p.calls != [] && 0 < |p.versions| <= |versions| && p.versions == versions[|versions| - |p.versions|..]
            && var last := p.calls[|p.calls| - 1];
               h.remove(n + |p.calls| - 1, last.protocol, last.location) == p.raised
               && last == RemoveCall(p.versions[0].protocol, p.versions[0].location)
    decreases |versions|
  {
    hide PurgeFrom, Removals, ProtocolsNamed, AllButLast;
    if |versions| > 1 {
      PurgeStep(h, n, versions);
      var v, rest := versions[0], versions[1..];
      var m := if v.protocol !in h.known then n else n + 1;
      if v.protocol !in h.known || h.remove(n, v.protocol, v.location) == NoError {
        PurgeFailure(h, m, rest);
        SuffixOfRest(versions, |PurgeFrom(h, m, rest).versions|);
      }
    } else {
      NothingToPurge(h, n, versions);
    }
  }

  lemma SuffixOfRest(versions: seq<Version>, n: nat)
    requires versions != [] && n <= |versions| - 1
    ensures versions[1..][|versions| - 1 - n..] == versions[|versions| - n..]
  {
  }

  /** A successful attempt leaves the location of the last protocol as the last version, and without
      keep_intermediates as the only one, whatever versions were there before. */
  lemma AttemptMeans(h: Handlers, n: nat, versions: seq<Version>, parsed: Parsed, keep: bool)
    requires After(h, n, versions, parsed, keep).raised == NoError
    ensures parsed.Parsed?
    ensures var after := After(h, n, versions, parsed, keep).versions;
            && after != []
            && (parsed.stack == [] ==> after == versions + [Version([], parsed.location)])
            && (parsed.stack != [] ==>
                  var last := Version(parsed.stack[0], ChainFrom(h, n, parsed.stack, parsed.location).location);
                  && after[|after| - 1] == last
                  && (!keep ==> after == [last])
                  && (keep ==> |after| == |versions| + |parsed.stack|))
  {
    if parsed.stack != [] {
      ChainMeans(h, n, parsed.stack, parsed.location);
      var c := ChainFrom(h, n, parsed.stack, parsed.location);
      PurgeMeans(h, n + |c.calls|, versions + c.versions);
    }
  }

  /** An attempt calls the handlers of the protocols and, if they all install and nothing is to be kept, has all versions
      but the last removed, also those that earlier attempts left. */
  lemma AttemptCalls(h: Handlers, n: nat, versions: seq<Version>, parsed: Parsed, keep: bool)
    requires parsed.Parsed? && parsed.stack != [] && AllNames(parsed.stack) && ProtocolsNamed(h, versions)
    ensures var c, p := ChainFrom(h, n, parsed.stack, parsed.location), After(h, n, versions, parsed, keep);
            && (c.raised != NoError || keep ==> p == Effect(versions + c.versions, c.calls, c.raised))
            && (c.raised == NoError && !keep ==>
                  && versions + c.versions != []
                  && p.calls <= c.calls + Removals(h, AllButLast(versions + c.versions))
                  && (p.raised == NoError ==> p.calls == c.calls + Removals(h, AllButLast(versions + c.versions))))
  {
    hide ChainFrom, PurgeFrom, Removals, AllButLast;
    var c := ChainFrom(h, n, parsed.stack, parsed.location);
    var all := versions + c.versions;
    ChainSizes(h, n, parsed.stack, parsed.location);
    forall k | 0 <= k < |all| && all[k].protocol in h.known
      ensures all[k].protocol != []
    {
      if k >= |versions| {
        ChainVersionAt(h, n, parsed.stack, parsed.location, k - |versions|);
        assert IsName(parsed.stack[|parsed.stack| - 1 - (k - |versions|)]);
      }
    }
    if c.raised == NoError && !keep {
      PurgeCalls(h, n + |c.calls|, all);
      LongerPrefix(c.calls, PurgeFrom(h, n + |c.calls|, all).calls, Removals(h, AllButLast(all)));
    }
  }

  lemma LongerPrefix(a: seq<Call>, b: seq<Call>, c: seq<Call>)
    requires b <= c
    ensures a + b <= a + c
  {
  }

  /** The result of an install call, the n-th call of all, is to be removed by this call. */
  predicate Undoes(h: Handlers, n: nat, install: Call, remove: Call) {
    && install.InstallCall? && h.install(n, install.protocol, install.location).Installed?
    && remove == RemoveCall(install.protocol, h.install(n, install.protocol, install.location).location)
  }

  /** A first attempt that succeeds without keep_intermediates asks every handler to install, from the top of the stack,
      and then all but the last of them to remove what they installed. */
  lemma IntermediatesRemoved(h: Handlers, n: nat, parsed: Parsed) returns (installs: seq<Call>, removals: seq<Call>)
    requires parsed.Parsed? && parsed.stack != [] && AllNames(parsed.stack)
    requires After(h, n, [], parsed, false).raised == NoError
    ensures After(h, n, [], parsed, false).calls == installs + removals
    ensures |installs| == |parsed.stack| && |removals| == |parsed.stack| - 1
    ensures forall k :: 0 <= k < |installs| ==>
                          installs[k].InstallCall? && installs[k].protocol == parsed.stack[|parsed.stack| - 1 - k]
    ensures forall k :: 0 <= k < |removals| ==> Undoes(h, n + k, installs[k], removals[k])
  {
    hide ChainFrom, PurgeFrom, Removals, AllButLast;
    var stack, location := parsed.stack, parsed.location;
    var c := ChainFrom(h, n, stack, location);
    assert [] + c.versions == c.versions;
    ChainSizes(h, n, stack, location);
    PurgedChain(h, n, stack, location);
    installs, removals := c.calls, PurgeFrom(h, n + |c.calls|, c.versions).calls;
    hide Undoes;
    forall k | 0 <= k < |installs|
      ensures installs[k].InstallCall? && installs[k].protocol == stack[|stack| - 1 - k]
    {
      ChainCallAt(h, n, stack, location, k);
    }
    forall k | 0 <= k < |removals|
      ensures Undoes(h, n + k, installs[k], removals[k])
    {
      UndoneAt(h, n, stack, location, k);
    }
  }

  lemma UndoneAt(h: Handlers, n: nat, stack: seq<string>, location: string, k: nat)
    requires k < |ChainFrom(h, n, stack, location).versions|
    ensures var c := ChainFrom(h, n, stack, location);
            k < |c.calls| && Undoes(h, n + k, c.calls[k], RemoveCall(c.versions[k].protocol, c.versions[k].location))
  {
    hide ChainFrom;
    ChainVersionAt(h, n, stack, location, k);
    ChainCallAt(h, n, stack, location, k);
  }

  lemma PurgedChain(h: Handlers, n: nat, stack: seq<string>, location: string)
    requires stack != [] && AllNames(stack)
    requires var c := ChainFrom(h, n, stack, location);
             c.raised == NoError && |c.versions| == |stack| && PurgeFrom(h, n + |c.calls|, c.versions).raised == NoError
    ensures var c := ChainFrom(h, n, stack, location);
            var p := PurgeFrom(h, n + |c.calls|, c.versions);
            && |p.calls| == |stack| - 1
            && forall k :: 0 <= k < |p.calls| ==> p.calls[k] == RemoveCall(c.versions[k].protocol, c.versions[k].location)
  {
    hide ChainFrom, PurgeFrom, Removals;
    var c := ChainFrom(h, n, stack, location);
    forall k | 0 <= k < |stack|
      ensures HasHandler(h, c.versions[k])
    {
      ChainVersionAt(h, n, stack, location, k);
      assert IsName(stack[|stack| - 1 - k]);
    }
    PurgeCalls(h, n + |c.calls|, c.versions);
    RemovalsAll(h, AllButLast(c.versions));
  }

  lemma {:induction false} RemovalsAll(h: Handlers, versions: seq<Version>)
    requires forall k :: 0 <= k < |versions| ==> HasHandler(h, versions[k])
    ensures |Removals(h, versions)| == |versions|
    ensures forall k :: 0 <= k < |versions| ==>
                          Removals(h, versions)[k] == RemoveCall(versions[k].protocol, versions[k].location)
    decreases |versions|
  {
    if versions != [] {
      RemovalsAll(h, versions[1..]);
    }
  }

  /** If the attempts succeed there is a version, and if there was a location one attempt succeeded. */
  lemma {:induction false} AttemptsMean(h: Handlers, n: nat, versions: seq<Version>, locations: seq<string>, keep: bool)
    ensures var t := AttemptsFrom(h, n, versions, locations, keep);
            && (locations == [] ==> t == Effect(versions, [], NoError))
            && (t.raised == NoError && locations != [] ==>
                  && t.versions != []
                  && exists m, before, k :: 0 <= k < |locations| && Succeeds(h, m, before, locations[k], keep, t.versions))
    decreases |locations|
  {
    hide After, ParseOf, RemoveAll, Removals;
    if locations != [] {
      var p := After(h, n, versions, ParseOf(locations[0]), keep);
      if p.raised == NoError {
        AttemptMeans(h, n, versions, ParseOf(locations[0]), keep);
        assert Succeeds(h, n, versions, locations[0], keep, p.versions);
      } else {
        var c := Cleaned(h, n, p);
        AttemptsMean(h, n + |c.calls|, c.versions, locations[1..], keep);
      }
    }
  }

  /** An attempt at the location succeeds and leaves `after`. */
  ghost predicate Succeeds(h: Handlers, n: nat, versions: seq<Version>, location: string, keep: bool, after: seq<Version>) {
    After(h, n, versions, ParseOf(location), keep).raised == NoError
    && After(h, n, versions, ParseOf(location), keep).versions == after
  }

  // ------------------------------------------------------------------ the class

  class ArtifactInstallation {
    const handlers: Handlers
    var artifacts: map<Key, Registry>
    /** Every call of a handler so far. */
    var log: seq<Call>

    constructor (handlers: Handlers)
      ensures this.handlers == handlers && artifacts == map[] && log == []
    {
      this.handlers, artifacts, log := handlers, map[], [];
    }

    ghost predicate Valid()
      reads this
    {
      forall key :: key in artifacts ==>
                      artifacts[key].count < U32 && (artifacts[key].count > 0 ==> artifacts[key].versions != [])
    }

    /** The loop over the protocol stack. */
    method RunProtocols(key: Key, protocols: seq<string>, start: string) returns (raised: Raised)
      requires key in artifacts
      modifies this`artifacts, this`log
      ensures var c := ChainFrom(handlers, |old(log)|, protocols, start);
              var before := old(artifacts)[key];
              && raised == c.raised && log == old(log) + c.calls
              && artifacts == old(artifacts)[key := before.(versions := before.versions + c.versions)]
    {
      hide ChainFrom;
      var stack, location := protocols, start;
      ghost var all, before := ChainFrom(handlers, |log|, protocols, start), artifacts[key];
      while stack != []
        invariant key in artifacts && artifacts == old(artifacts)[key := before.(versions := artifacts[key].versions)]
        invariant var c := ChainFrom(handlers, |log|, stack, location);
                  && artifacts[key].versions + c.versions == before.versions + all.versions
                  && log + c.calls == old(log) + all.calls && c.raised == all.raised
        decreases |stack|
      {
        ChainStep(handlers, |log|, stack, location, artifacts[key].versions, log);
        var protocol := stack[|stack| - 1];
        if protocol !in handlers.known {
          return PlanError;
        }
        var outcome := handlers.install(|log|, protocol, location);
        log := log + [InstallCall(protocol, location)];
        if outcome.InstallFailed? {
          return if outcome.raised == NoError then OtherError else outcome.raised;
        }
        location := outcome.location;
        var registry := artifacts[key];
        artifacts := artifacts[key := registry.(versions := registry.versions + [Version(protocol, location)])];
        stack := stack[..|stack| - 1];
      }
      ChainEnd(handlers, |log|, location, artifacts[key].versions, log);
      raised := NoError;
    }

    method RemoveIntermediates(key: Key) returns (raised: Raised)
      requires key in artifacts
      modifies this`artifacts, this`log
      ensures var before := old(artifacts)[key];
              var p := PurgeFrom(handlers, |old(log)|, before.versions);
              && raised == p.raised && log == old(log) + p.calls
              && artifacts == old(artifacts)[key := before.(versions := p.versions)]
    {
      ghost var before := artifacts[key];
      ghost var all := PurgeFrom(handlers, |log|, before.versions);
      while |artifacts[key].versions| > 1
        invariant key in artifacts && artifacts == old(artifacts)[key := before.(versions := artifacts[key].versions)]
        invariant var p := PurgeFrom(handlers, |log|, artifacts[key].versions);
                  && p.versions == all.versions && log + p.calls == old(log) + all.calls && p.raised == all.raised
        decreases |artifacts[key].versions|
      {
        var front := artifacts[key].versions[0];
        if front.protocol in handlers.known {
          raised := handlers.remove(|log|, front.protocol, front.location);
          log := log + [RemoveCall(front.protocol, front.location)];
          if raised != NoError {
            return;
          }
        }
        artifacts := artifacts[key := artifacts[key].(versions := artifacts[key].versions[1..])];
      }
      raised := NoError;
    }

    method RemoveVersions(versions: seq<Version>) returns (raised: Raised)
      modifies this`log
      ensures (log, raised) == (old(log) + RemoveAll(handlers, |old(log)|, versions).0,
                                RemoveAll(handlers, |old(log)|, versions).1)
    {
      hide RemoveAll;
      ghost var all := RemoveAll(handlers, |log|, versions);
      assert versions[0..] == versions;
      for k := 0 to |versions|
        invariant log + RemoveAll(handlers, |log|, versions[k..]).0 == old(log) + all.0
        invariant RemoveAll(handlers, |log|, versions[k..]).1 == all.1
      {
        var v := versions[k];
        assert versions[k..][0] == v && versions[k..][1..] == versions[k + 1..];
        RemoveStep(handlers, |log|, versions[k..], log);
        if v.protocol != [] && v.protocol in handlers.known {
          raised := handlers.remove(|log|, v.protocol, v.location);
          log := log + [RemoveCall(v.protocol, v.location)];
          if raised != NoError {
            return;
          }
        }
      }
      RemoveEnd(handlers, |log|, log);
      raised := NoError;
    }

    /** One attempt: what happens inside the try block. */
    method Attempt(key: Key, location: string, keep: bool) returns (raised: Raised)
      requires key in artifacts
      modifies this`artifacts, this`log
      ensures var before := old(artifacts)[key];
              var p := After(handlers, |old(log)|, before.versions, ParseOf(location), keep);
              && raised == p.raised && log == old(log) + p.calls
              && artifacts == old(artifacts)[key := before.(versions := p.versions)]
    {
      hide ParsesTo, ChainFrom, PurgeFrom, ParseOf;
      var r := ParseUri(location);
      ParseIsUnique(location, r);
      if r.Malformed? {
        return PlanError;
      }
      if r.stack == [] {
        var registry := artifacts[key];
        artifacts := artifacts[key := registry.(versions := registry.versions + [Version([], r.location)])];
        return NoError;
      }
      raised := RunProtocols(key, r.stack, r.location);
      if raised == NoError && !keep {
        raised := RemoveIntermediates(key);
      }
    }

    /** The loop over the alternative locations, for a registry without installations. */
    method TryLocations(key: Key, locations: seq<string>, keep: bool) returns (raised: Raised)
      requires key in artifacts && artifacts[key].count == 0
      modifies this`artifacts, this`log
      ensures var t := AttemptsFrom(handlers, |old(log)|, old(artifacts)[key].versions, locations, keep);
              && raised == t.raised && log == old(log) + t.calls
              && artifacts == old(artifacts)[key := Registry(if raised == NoError && locations != [] then 1 else 0, t.versions)]
    {
      hide After, ParseOf, RemoveAll, AttemptsFrom;
      ghost var all := AttemptsFrom(handlers, |log|, artifacts[key].versions, locations, keep);
      var n := 0;
      assert locations[0..] == locations;
      while n < |locations|
        invariant n <= |locations| && (n == |locations| ==> locations == [])
        invariant key in artifacts && artifacts == old(artifacts)[key := Registry(0, artifacts[key].versions)]
        invariant var t := AttemptsFrom(handlers, |log|, artifacts[key].versions, locations[n..], keep);
                  log + t.calls == old(log) + all.calls && t.raised == all.raised && t.versions == all.versions
      {
        assert locations[n..][0] == locations[n] && locations[n..][1..] == locations[n + 1..];
        AttemptsStep(handlers, |log|, artifacts[key].versions, locations[n..], keep, log);
        raised := Attempt(key, locations[n], keep);
        if raised == NoError {
          artifacts := artifacts[key := artifacts[key].(count := 1)];
          return;
        }
        if raised != PlanError {
          return;
        }
        // clean up what the attempt left behind; the list of versions is not cleared
        var failed := RemoveVersions(artifacts[key].versions);
        if failed != NoError {
          return failed;
        }
        n := n + 1;
        if n >= |locations| {
          return;
        }
      }
      assert locations[n..] == [];
      NoAttempts(handlers, |log|, artifacts[key].versions, keep, log);
      raised := NoError;
    }

    method Install(key: Key, locations: seq<string>, keep: bool) returns (raised: Raised)
      requires Valid()
      modifies this`artifacts, this`log
      ensures Valid()
      ensures var before := if key in old(artifacts) then old(artifacts)[key] else Registry(0, []);
              if before.count > 0 then
                // a repeated installation only counts
                && raised == NoError && log == old(log)
                && artifacts == old(artifacts)[key := before.(count := (before.count + 1) % U32)]
              else
                // also after failures the versions stay in the list
                var t := AttemptsFrom(handlers, |old(log)|, before.versions, locations, keep);
                && raised == t.raised && log == old(log) + t.calls
                && artifacts == old(artifacts)[key := Registry(if raised == NoError && locations != [] then 1 else 0, t.versions)]
    {
      hide AttemptsFrom;
      if key !in artifacts {
        artifacts := artifacts[key := Registry(0, [])];
      }
      if artifacts[key].count > 0 {
        artifacts := artifacts[key := artifacts[key].(count := (artifacts[key].count + 1) % U32)];
        return NoError;
      }
      ghost var versions := artifacts[key].versions;
      AttemptsMean(handlers, |log|, versions, locations, keep);
      raised := TryLocations(key, locations, keep);
    }

    method Remove(key: Key) returns (raised: Raised)
      requires Valid()
      modifies this`artifacts, this`log
      ensures Valid()
      ensures key !in old(artifacts) ==> raised == PlanError && artifacts == old(artifacts) && log == old(log)
      ensures key in old(artifacts) ==>
                var before := old(artifacts)[key];
                if before.count == 1 then
                  // the last installation: unlinked, whether or not the versions can be removed
                  && artifacts == old(artifacts) - {key}
                  && (log, raised) == (old(log) + RemoveAll(handlers, |old(log)|, before.versions).0,
                                       RemoveAll(handlers, |old(log)|, before.versions).1)
                else
                  && raised == NoError && log == old(log)
                  && artifacts == old(artifacts)[key := before.(count := if before.count > 0 then before.count - 1 else 0)]
    {
      if key !in artifacts {
        return PlanError;
      }
      var registry := artifacts[key];
      if registry.count > 0 {
        artifacts := artifacts[key := registry.(count := registry.count - 1)];
        if registry.count == 1 {
          artifacts := artifacts - {key};
          raised := RemoveVersions(registry.versions);
          return;
        }
      }
      raised := NoError;
    }
  }

  // ------------------------------------------------------------------ whole histories

  datatype Op = InstallOp(key: Key, locations: seq<string>, keep: bool) | RemoveOp(key: Key)

  datatype Done = Done(op: Op, raised: Raised)

  /** The installations of an artifact: successful installs minus removes since its registry was created.  An
      install without any location succeeds but counts only on top of others. */
  function Count(history: seq<Done>, key: Key): nat {
    if history == [] then 0
    else
      var before, last := Count(history[..|history| - 1], key), history[|history| - 1];
      if last.op.key != key then before
      else if last.op.RemoveOp? then (if before > 0 then before - 1 else 0)
      else if last.raised == NoError && (before > 0 || last.op.locations != []) then (before + 1) % U32
      else before
  }

  function Installs(history: seq<Done>, key: Key): nat {
    if history == [] then 0
    else
      var before, last := history[..|history| - 1], history[|history| - 1];
      Installs(before, key)
      + if && last.op.key == key && last.op.InstallOp? && last.raised == NoError
           && (Count(before, key) > 0 || last.op.locations != []) then 1 else 0
  }

  /** The removes that found an installation to remove. */
  function Removes(history: seq<Done>, key: Key): nat {
    if history == [] then 0
    else
      var before, last := history[..|history| - 1], history[|history| - 1];
      Removes(before, key) + if last.op.key == key && last.op.RemoveOp? && Count(before, key) > 0 then 1 else 0
  }

  /** The 32 bit counter is the difference, exactly as long as it does not wrap. */
  lemma {:induction false} CountIsDifference(history: seq<Done>, key: Key)
    ensures Count(history, key) == (Installs(history, key) - Removes(history, key)) % U32
    ensures |history| < U32 ==> Count(history, key) == Installs(history, key) - Removes(history, key)
    ensures 0 <= Installs(history, key) - Removes(history, key) <= |history|
  {
    if history != [] {
      var before := history[..|history| - 1];
      CountIsDifference(before, key);
      CounterSteps(Count(before, key), Installs(before, key) - Removes(before, key), |before|);
    }
  }

  lemma CounterSteps(count: nat, difference: nat, n: nat)
    requires count == difference % U32 && difference <= n && (n < U32 ==> count == difference)
    ensures (count + 1) % U32 == (difference + 1) % U32 && (n + 1 < U32 ==> (count + 1) % U32 == difference + 1)
    ensures count > 0 ==> count - 1 == (difference - 1) % U32 && difference > 0
  {
  }

  /** A registry exists from the first install on, and goes when the count returns to zero. */
  function Linked(history: seq<Done>, key: Key): bool {
    if history == [] then false
    else
      var before, last := history[..|history| - 1], history[|history| - 1];
      if last.op.key != key then Linked(before, key)
      else last.op.InstallOp? || (Linked(before, key) && Count(before, key) != 1)
  }

  ghost predicate Agrees(artifacts: map<Key, Registry>, history: seq<Done>) {
    forall key :: && (key in artifacts <==> Linked(history, key))
                  && (key in artifacts ==> artifacts[key].count == Count(history, key))
                  && (key !in artifacts ==> Count(history, key) == 0)
  }

  lemma AgreesNext(before: map<Key, Registry>, after: map<Key, Registry>, history: seq<Done>, d: Done)
    requires Agrees(before, history)
    requires forall key :: key != d.op.key ==> ((key in before <==> key in after) && (key in before ==> after[key] == before[key]))
    requires var key := d.op.key;
             var count := if key in before then before[key].count else 0;
             if d.op.InstallOp? then
               && key in after
               && after[key].count == if d.raised == NoError && (count > 0 || d.op.locations != []) then (count + 1) % U32 else count
             else
               && (key in after <==> key in before && count != 1)
               && (key in after ==> after[key].count == if count > 0 then count - 1 else 0)
    ensures Agrees(after, history + [d])
  {
    var more := history + [d];
    assert more[..|history|] == history && more[|history|] == d;
  }

  /** Any sequence of installs and removes, with whatever failures of the handlers. */
  method RunOperations(handlers: Handlers, ops: seq<Op>) returns (artifacts: map<Key, Registry>, history: seq<Done>)
    ensures |history| == |ops| && forall k :: 0 <= k < |ops| ==> history[k].op == ops[k]
    ensures Agrees(artifacts, history)
    ensures forall key :: key in artifacts && artifacts[key].count > 0 ==> artifacts[key].versions != []
  {
    hide Linked, Count, RemoveAll;
    var installation := new ArtifactInstallation(handlers);
    history := [];
    NoHistory();
    for k := 0 to |ops|
      invariant fresh(installation) && installation.Valid()
      invariant |history| == k && forall m :: 0 <= m < k ==> history[m].op == ops[m]
      invariant Agrees(installation.artifacts, history)
    {
      ghost var before := installation.artifacts;
      var raised;
      if ops[k].InstallOp? {
        raised := installation.Install(ops[k].key, ops[k].locations, ops[k].keep);
      } else {
        raised := installation.Remove(ops[k].key);
      }
      AgreesNext(before, installation.artifacts, history, Done(ops[k], raised));
      history := history + [Done(ops[k], raised)];
    }
    artifacts := installation.artifacts;
  }

  lemma NoHistory()
    ensures Agrees(map[], [])
  {
  }

  // one step of the loops

  lemma ChainStep(h: Handlers, n: nat, stack: seq<string>, location: string, versions: seq<Version>, log: seq<Call>)
    requires stack != []
    ensures var top, c := stack[|stack| - 1], ChainFrom(h, n, stack, location);
            && (top !in h.known ==>
                  versions + c.versions == versions && log + c.calls == log && c.raised == PlanError)
            && (top in h.known && h.install(n, top, location).InstallFailed? ==>
                  && versions + c.versions == versions && log + c.calls == log + [InstallCall(top, location)]
                  && c.raised == (var r := h.install(n, top, location).raised; if r == NoError then OtherError else r))
            && (top in h.known && h.install(n, top, location).Installed? ==>
                  var next := h.install(n, top, location).location;
                  var more := ChainFrom(h, n + 1, stack[..|stack| - 1], next);
                  && versions + c.versions == versions + [Version(top, next)] + more.versions
                  && log + c.calls == log + [InstallCall(top, location)] + more.calls && c.raised == more.raised)
  {
  }

  lemma ChainEnd(h: Handlers, n: nat, location: string, versions: seq<Version>, log: seq<Call>)
    ensures var c := ChainFrom(h, n, [], location);
            versions + c.versions == versions && log + c.calls == log && c.raised == NoError
  {
  }

  lemma RemoveStep(h: Handlers, n: nat, versions: seq<Version>, log: seq<Call>)
    requires versions != []
    ensures var v, r := versions[0], RemoveAll(h, n, versions);
            if v.protocol == [] || v.protocol !in h.known then r == RemoveAll(h, n, versions[1..])
            else if h.remove(n, v.protocol, v.location) != NoError then
              && log + r.0 == log + [RemoveCall(v.protocol, v.location)]
              && r.1 == h.remove(n, v.protocol, v.location)
            else
              && log + r.0 == log + [RemoveCall(v.protocol, v.location)] + RemoveAll(h, n + 1, versions[1..]).0
              && r.1 == RemoveAll(h, n + 1, versions[1..]).1
  {
  }

  lemma AttemptsStep(h: Handlers, n: nat, versions: seq<Version>, locations: seq<string>, keep: bool, log: seq<Call>)
    requires locations != []
    ensures var t := AttemptsFrom(h, n, versions, locations, keep);
            var p := After(h, n, versions, ParseOf(locations[0]), keep);
            var (removals, failed) := RemoveAll(h, n + |p.calls|, p.versions);
            if p.raised != PlanError then t == p
            else if failed != NoError || |locations| == 1 then
              && log + t.calls == log + p.calls + removals && t.versions == p.versions
              && t.raised == if failed != NoError then failed else PlanError
            else
              var more := AttemptsFrom(h, n + |p.calls| + |removals|, p.versions, locations[1..], keep);
              && log + t.calls == log + p.calls + removals + more.calls
              && t.versions == more.versions && t.raised == more.raised
  {
    hide After, RemoveAll, ParseOf;
  }

  lemma NoAttempts(h: Handlers, n: nat, versions: seq<Version>, keep: bool, log: seq<Call>)
    ensures var t := AttemptsFrom(h, n, versions, [], keep);
            log + t.calls == log && t.versions == versions && t.raised == NoError
  {
  }

  lemma RemoveEnd(h: Handlers, n: nat, log: seq<Call>)
    ensures log + RemoveAll(h, n, []).0 == log && RemoveAll(h, n, []).1 == NoError
  {
  }
}
