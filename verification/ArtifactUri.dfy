/** Locations of artifacts, <protocol>:[<protocol>:[...]]//<path>:
    tools/artifact_installation/artifact_installation_impl.cpp, parse_uri. */
module ArtifactUri {
  import opened Collections

  /** `stack` has its top at the end. */
  datatype Parsed = Malformed | Parsed(stack: seq<string>, location: string)

  predicate IsName(p: string) {
    p != [] && ':' !in p
  }

  function Prefix(protocols: seq<string>): string {
    if protocols == [] then [] else protocols[0] + ([':'] + Prefix(protocols[1..]))
  }

  function PrintUri(protocols: seq<string>, path: string): string {
    Prefix(protocols) + (['/', '/'] + path)
  }

  predicate AllNames(protocols: seq<string>) {
    forall k :: 0 <= k < |protocols| ==> IsName(protocols[k])
  }

  /** The parts of a well-formed location with protocols. */
  predicate IsUri(location: string, protocols: seq<string>, path: string) {
    protocols != [] && AllNames(protocols) && ':' !in path && location == PrintUri(protocols, path)
  }

  method FindColon(s: string) returns (p: Option<nat>)
    ensures p.None? <==> ':' !in s
    ensures p.Some? ==> p.value < |s| && s[p.value] == ':' && ':' !in s[..p.value]
  {
    for i := 0 to |s|
      invariant ':' !in s[..i]
    {
      if s[i] == ':' {
        return Some(i);
      }
      assert s[..i + 1] == s[..i] + [s[i]];
    }
    assert s[..|s|] == s;
    p := None;
  }

  lemma {:induction false} PrefixAppend(protocols: seq<string>, p: string)
    ensures Prefix(protocols + [p]) == Prefix(protocols) + (p + [':'])
  {
    if protocols == [] {
      assert [p][1..] == [];
    } else {
      PrefixAppend(protocols[1..], p);
      assert (protocols + [p])[1..] == protocols[1..] + [p];
    }
  }

  lemma FirstColon(p: string, x: string)
    requires ':' !in p
    ensures var s := p + ([':'] + x);
            && |p| < |s| && s[|p|] == ':' && (forall i :: 0 <= i < |p| ==> s[i] != ':')
            && s[..|p|] == p && s[|p| + 1..] == x && ':' in s
  {
    var s := p + ([':'] + x);
    assert forall i :: 0 <= i < |p| ==> s[i] == p[i];
    assert s[|p|] == ':';
  }

  /** Text up to the first colon is determined. */
  lemma SameHead(p: string, q: string, x: string, y: string)
    requires ':' !in p && ':' !in q && p + ([':'] + x) == q + ([':'] + y)
    ensures p == q && x == y
  {
    FirstColon(p, x);
    FirstColon(q, y);
    assert |p| == |q|;
  }

  lemma PrefixStep(protocols: seq<string>, x: string)
    requires protocols != []
    ensures Prefix(protocols) + x == protocols[0] + ([':'] + (Prefix(protocols[1..]) + x))
  {
  }

  /** A text splits in only one way into protocols and a rest without colons. */
  lemma {:induction false} SplitIsUnique(ps: seq<string>, qs: seq<string>, x: string, y: string)
    requires AllNames(ps) && AllNames(qs) && ':' !in x && ':' !in y && Prefix(ps) + x == Prefix(qs) + y
    ensures ps == qs && x == y
  {
    assert Prefix([]) + x == x && Prefix([]) + y == y;
    if ps != [] {
      PrefixStep(ps, x);
      FirstColon(ps[0], Prefix(ps[1..]) + x);
    }
    if qs != [] {
      PrefixStep(qs, y);
      FirstColon(qs[0], Prefix(qs[1..]) + y);
    }
    if ps != [] && qs != [] {
      SameHead(ps[0], qs[0], Prefix(ps[1..]) + x, Prefix(qs[1..]) + y);
      SplitIsUnique(ps[1..], qs[1..], x, y);
      assert ps == [ps[0]] + ps[1..] && qs == [qs[0]] + qs[1..];
    }
  }

  /** No split exists when an empty protocol follows good ones. */
  lemma {:induction false} EmptyProtocol(ps: seq<string>, rest: string, qs: seq<string>, y: string)
    requires AllNames(ps) && AllNames(qs) && ':' !in y
    ensures Prefix(ps) + ([':'] + rest) != Prefix(qs) + y
  {
    var s, t := Prefix(ps) + ([':'] + rest), Prefix(qs) + y;
    assert s[|Prefix(ps)|] == ':' && ':' in s;
    if qs == [] {
      assert t == y;
    } else {
      PrefixStep(qs, y);
      if ps == [] {
        assert s[0] == ':' && t[0] == qs[0][0];
      } else {
        PrefixStep(ps, [':'] + rest);
        if s == t {
          SameHead(ps[0], qs[0], Prefix(ps[1..]) + ([':'] + rest), Prefix(qs[1..]) + y);
          EmptyProtocol(ps[1..], rest, qs[1..], y);
        }
      }
    }
  }

  predicate StartsPath(s: string) {
    |s| >= 2 && s[0] == '/' && s[1] == '/'
  }

  /** Without a colon the location is a path and stays as it is; otherwise exactly the well-formed locations are taken
      apart, the last protocol on top. */
  ghost predicate ParsesTo(location: string, r: Parsed) {
    if ':' !in location then r == Parsed([], location)
    else
      && (r.Parsed? ==> r.stack != [])
      && forall protocols, path :: IsUri(location, protocols, path) <==> r == Parsed(protocols, path)
  }

  /** The one result that parsing a location has. */
  ghost function ParseOf(location: string): (r: Parsed)
    ensures ParsesTo(location, r)
  {
    if ':' !in location then Parsed([], location)
    else if exists protocols, path :: IsUri(location, protocols, path) then
      var protocols, path :| IsUri(location, protocols, path);
      UriIsUnique(location, protocols, path);
      Parsed(protocols, path)
    else Malformed
  }

  lemma UriIsUnique(location: string, protocols: seq<string>, path: string)
    requires IsUri(location, protocols, path)
    ensures forall ps, x :: IsUri(location, ps, x) ==> ps == protocols && x == path
  {
    forall ps, x | IsUri(location, ps, x)
      ensures ps == protocols && x == path
    {
      SplitIsUnique(ps, protocols, ['/', '/'] + x, ['/', '/'] + path);
      assert (['/', '/'] + x)[2..] == x && (['/', '/'] + path)[2..] == path;
    }
  }

  lemma ParseIsUnique(location: string, r: Parsed)
    requires ParsesTo(location, r)
    ensures r == ParseOf(location)
  {
    var q := ParseOf(location);
    if ':' in location {
      if r.Parsed? {
        assert IsUri(location, r.stack, r.location);
      }
      if q.Parsed? {
        assert IsUri(location, q.stack, q.location);
      }
    }
  }

  method ParseUri(location: string) returns (r: Parsed)
    ensures ParsesTo(location, r)
  {
    var stack: seq<string> := [];
    var rest := location;
    var p := FindColon(rest);
    assert Prefix(stack) + rest == location;
    assert AllNames(stack);
    hide Prefix, AllNames, IsUri;
    while p.Some?
      invariant AllNames(stack) && location == Prefix(stack) + rest
      invariant p.None? <==> ':' !in rest
      invariant p.Some? ==> p.value < |rest| && rest[p.value] == ':' && ':' !in rest[..p.value]
      invariant stack == [] ==> rest == location
      decreases |rest|
    {
      if p.value == 0 {
        NoUri(location, stack, rest);
        return Malformed;
      }
      var protocol := rest[..p.value];
      OneMoreProtocol(location, stack, rest, p.value);
      stack := stack + [protocol];
      rest := rest[p.value + 1..];
      p := FindColon(rest);
    }
    if stack == [] {
      return Parsed([], location);
    }
    OnlySplit(location, stack, rest);
    if !StartsPath(rest) {
      return Malformed;
    }
    r := Parsed(stack, rest[2..]);
  }

  lemma NoUri(location: string, stack: seq<string>, rest: string)
    requires AllNames(stack) && rest != [] && rest[0] == ':' && location == Prefix(stack) + rest
    ensures forall protocols, path :: !IsUri(location, protocols, path)
  {
    assert rest == [':'] + rest[1..];
    forall protocols, path
      ensures !IsUri(location, protocols, path)
    {
      if AllNames(protocols) && ':' !in path {
        EmptyProtocol(stack, rest[1..], protocols, ['/', '/'] + path);
      }
    }
  }

  lemma OneMoreProtocol(location: string, stack: seq<string>, rest: string, p: nat)
    requires AllNames(stack) && location == Prefix(stack) + rest
    requires 0 < p < |rest| && rest[p] == ':' && ':' !in rest[..p]
    ensures AllNames(stack + [rest[..p]]) && location == Prefix(stack + [rest[..p]]) + rest[p + 1..]
  {
    PrefixAppend(stack, rest[..p]);
    assert rest == rest[..p] + ([':'] + rest[p + 1..]);
  }

  lemma OnlySplit(location: string, stack: seq<string>, rest: string)
    requires stack != [] && AllNames(stack) && ':' !in rest && location == Prefix(stack) + rest
    ensures forall protocols, path :: IsUri(location, protocols, path)
                                 <==> protocols == stack && StartsPath(rest) && path == rest[2..]
    ensures ':' in location
  {
    forall protocols, path
      ensures IsUri(location, protocols, path) <==> protocols == stack && StartsPath(rest) && path == rest[2..]
    {
      if IsUri(location, protocols, path) {
        SplitIsUnique(protocols, stack, ['/', '/'] + path, rest);
        assert (['/', '/'] + path)[2..] == path;
      }
      if StartsPath(rest) {
        assert rest == ['/', '/'] + rest[2..] && ':' !in rest[2..];
      }
    }
    assert location[|stack[0]|] == ':';
  }

  /** Printing and parsing are inverse. */
  method PrintAndParse(protocols: seq<string>, path: string) returns (r: Parsed)
    requires protocols != [] && AllNames(protocols) && ':' !in path
    ensures r == Parsed(protocols, path)
  {
    assert IsUri(PrintUri(protocols, path), protocols, path);
    HasColon(protocols, path);
    r := ParseUri(PrintUri(protocols, path));
  }

  lemma HasColon(protocols: seq<string>, path: string)
    requires protocols != []
    ensures ':' in PrintUri(protocols, path)
  {
    assert PrintUri(protocols, path)[|protocols[0]|] == ':';
  }
}
