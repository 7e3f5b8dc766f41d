/** Folders and artifacts of an installation repository:
    tools/artifact_installation/installation_repository_manager_impl.cpp. */
module RepositoryFolders {
  import opened Collections

  datatype Entry = Folder | Artifact

  // ------------------------------------------------------------------ paths

  predicate IsComponent(c: string) {
    c != [] && '/' !in c
  }

  predicate AreComponents(comps: seq<string>) {
    forall k :: 0 <= k < |comps| ==> IsComponent(comps[k])
  }

  /** The path of the components below `base`. */
  function PathOf(base: string, comps: seq<string>): string {
    if comps == [] then base else PathOf(base, comps[..|comps| - 1]) + (['/'] + comps[|comps| - 1])
  }

  /** The components as a relative path. */
  function Relative(comps: seq<string>): string {
    if comps == [] then []
    else if |comps| == 1 then comps[0]
    else Relative(comps[..|comps| - 1]) + (['/'] + comps[|comps| - 1])
  }

  function LastSlash(s: string): (n: Option<nat>)
    ensures n.Some? ==> n.value < |s| && s[n.value] == '/'
  {
    if s == [] then None else if s[|s| - 1] == '/' then Some(|s| - 1) else LastSlash(s[..|s| - 1])
  }

  function GetFolder(path: string): string {
    var n := LastSlash(path);
    if n.Some? then path[..n.value] else []
  }

  function Join(base: string, location: string): string {
    if location == [] then base else base + (['/'] + location)
  }

  /** A location that begins with the base counts as absolute. */
  function Normalize(base: string, location: string): string {
    if base <= location then location else Join(base, location)
  }

  lemma {:induction false} LastSlashOf(s: string, c: string)
    requires '/' !in c
    ensures LastSlash(s + (['/'] + c)) == Some(|s|)
  {
    var t := s + (['/'] + c);
    if c == [] {
      assert t[|t| - 1] == '/';
    } else {
      assert t[|t| - 1] == c[|c| - 1] && t[..|t| - 1] == s + (['/'] + c[..|c| - 1]);
      LastSlashOf(s, c[..|c| - 1]);
    }
  }

  /** The folder of a path is the path of all components but the last. */
  lemma FolderOfPath(base: string, comps: seq<string>)
    requires comps != [] && AreComponents(comps)
    ensures GetFolder(PathOf(base, comps)) == PathOf(base, comps[..|comps| - 1])
    ensures |PathOf(base, comps[..|comps| - 1])| < |PathOf(base, comps)|
  {
    var folder, last := PathOf(base, comps[..|comps| - 1]), comps[|comps| - 1];
    LastSlashOf(folder, last);
    assert (folder + (['/'] + last))[..|folder|] == folder;
  }

  lemma {:induction false} PathIsBelow(base: string, comps: seq<string>)
    ensures base <= PathOf(base, comps)
    ensures comps != [] ==> |base| < |PathOf(base, comps)|
  {
    if comps != [] {
      PathIsBelow(base, comps[..|comps| - 1]);
    }
  }

  lemma {:induction false} RelativePath(base: string, comps: seq<string>)
    requires AreComponents(comps) && base != [] && base[0] == '/'
    ensures Join(base, Relative(comps)) == PathOf(base, comps)
    ensures !(base <= Relative(comps)) && (comps != [] ==> Relative(comps) != [] && Relative(comps)[0] != '/')
  {
    if |comps| == 1 {
      assert comps[..0] == [];
      assert comps[0][0] != '/';
    } else if |comps| > 1 {
      var before, last := comps[..|comps| - 1], comps[|comps| - 1];
      RelativePath(base, before);
      assert base + (['/'] + (Relative(before) + (['/'] + last))) == base + (['/'] + Relative(before)) + (['/'] + last);
    }
  }

  /** Relative locations and absolute ones below the base. */
  predicate Locates(base: string, location: string, comps: seq<string>) {
    AreComponents(comps) && (location == Relative(comps) || location == PathOf(base, comps))
  }

  lemma Normalized(base: string, location: string, comps: seq<string>)
    requires Locates(base, location, comps) && base != [] && base[0] == '/'
    ensures Normalize(base, location) == PathOf(base, comps)
  {
    RelativePath(base, comps);
    PathIsBelow(base, comps);
  }

  // ------------------------------------------------------------------ the file tree

  type Files = map<string, Entry>

  predicate IsFolder(files: Files, path: string) {
    path in files && files[path] == Folder
  }

  /** The base is a folder, and so is what any other entry is in. */
  ghost predicate IsTree(files: Files, base: string) {
    && base != [] && base[0] == '/' && IsFolder(files, base)
    && forall path :: path in files && path != base ==> IsFolder(files, GetFolder(path))
  }

  /** Nothing along the components is an artifact, and what is missing can be made. */
  ghost predicate CanCreate(files: Files, base: string, comps: seq<string>, mkdirFails: string -> bool) {
    forall k :: 0 <= k <= |comps| ==>
                  var path := PathOf(base, comps[..k]);
                  if path in files then files[path] == Folder else !mkdirFails(path)
  }

  /** Only folders along the components were added. */
  ghost predicate Extends(before: Files, after: Files, base: string, comps: seq<string>) {
    && (forall path :: path in before ==> path in after && after[path] == before[path])
    && (forall path :: path in after && path !in before ==>
                         after[path] == Folder && exists k :: 0 < k <= |comps| && path == PathOf(base, comps[..k]))
  }

  lemma {:induction false} AncestorsAreFolders(files: Files, base: string, comps: seq<string>, k: nat)
    requires IsTree(files, base) && AreComponents(comps) && k <= |comps| && PathOf(base, comps) in files
    ensures PathOf(base, comps[..k]) in files && (k < |comps| ==> files[PathOf(base, comps[..k])] == Folder)
  {
    if k == |comps| {
      assert comps[..k] == comps;
    } else {
      FolderOfPath(base, comps);
      PathIsBelow(base, comps);
      var before := comps[..|comps| - 1];
      AncestorsAreFolders(files, base, before, k);
      assert before[..k] == comps[..k];
      if k == |comps| - 1 {
        assert comps[..k] == before;
      }
    }
  }

  lemma CanCreateLast(files: Files, base: string, comps: seq<string>, mkdirFails: string -> bool)
    requires comps != []
    ensures CanCreate(files, base, comps, mkdirFails)
       <==> && CanCreate(files, base, comps[..|comps| - 1], mkdirFails)
            && (var path := PathOf(base, comps); if path in files then files[path] == Folder else !mkdirFails(path))
  {
    hide PathOf;
    var before := comps[..|comps| - 1];
    assert forall k :: 0 <= k <= |before| ==> before[..k] == comps[..k];
    assert comps[..|comps|] == comps;
  }

  lemma ExistingCanBeCreated(files: Files, base: string, comps: seq<string>, mkdirFails: string -> bool)
    requires IsTree(files, base) && AreComponents(comps) && PathOf(base, comps) in files
    ensures CanCreate(files, base, comps, mkdirFails) <==> files[PathOf(base, comps)] == Folder
  {
    forall k | 0 <= k <= |comps|
      ensures PathOf(base, comps[..k]) in files && (k < |comps| ==> files[PathOf(base, comps[..k])] == Folder)
    {
      AncestorsAreFolders(files, base, comps, k);
    }
    assert comps[..|comps|] == comps;
  }

  lemma TreeWithFolder(files: Files, base: string, comps: seq<string>)
    requires IsTree(files, base) && AreComponents(comps) && comps != []
    requires PathOf(base, comps) !in files && IsFolder(files, PathOf(base, comps[..|comps| - 1]))
    ensures IsTree(files[PathOf(base, comps) := Folder], base) && IsTree(files[PathOf(base, comps) := Artifact], base)
  {
    hide PathOf, GetFolder, AreComponents;
    FolderOfPath(base, comps);
  }

  lemma ExtendsOne(before: Files, after: Files, base: string, comps: seq<string>)
    requires comps != [] && Extends(before, after, base, comps[..|comps| - 1])
    requires PathOf(base, comps) !in after
    ensures Extends(before, after[PathOf(base, comps) := Folder], base, comps)
    ensures Extends(before, after, base, comps)
  {
    var shorter := comps[..|comps| - 1];
    forall path | path in after && path !in before
      ensures exists k :: 0 < k <= |comps| && path == PathOf(base, comps[..k])
    {
      var k :| 0 < k <= |shorter| && path == PathOf(base, shorter[..k]);
      assert shorter[..k] == comps[..k];
    }
    assert comps[..|comps|] == comps;
  }

  // ------------------------------------------------------------------ the recursion

  datatype Outcome = Outcome(ok: bool, location: string, files: Files)

  /** What creating a folder comes to with at most `fuel` calls inside one another; None if they do not suffice. */
  function Create(files: Files, base: string, mkdirFails: string -> bool, location: string, exclusive: bool, fuel: nat)
    : Option<Outcome>
    decreases fuel, 0
  {
    var path := Normalize(base, location);
    if fuel == 0 then None
    else if path in files then
      Some(if exclusive || !IsFolder(files, Normalize(base, path)) then Outcome(false, location, files)
           else Outcome(true, path, files))
    else
      match Parent(files, base, mkdirFails, GetFolder(path), fuel - 1)
      case None => None
      case Some(parent) =>
        Some(if !parent.ok || mkdirFails(path) then Outcome(false, location, parent.files)
             else Outcome(true, path, parent.files[path := Folder]))
  }

  /** The folder that a new entry goes to: only created if it is not there. */
  function Parent(files: Files, base: string, mkdirFails: string -> bool, folder: string, fuel: nat): Option<Outcome>
    decreases fuel, 1
  {
    if IsFolder(files, Normalize(base, folder)) then Some(Outcome(true, folder, files))
    else Create(files, base, mkdirFails, folder, false, fuel)
  }

  /** The call returns with this outcome. */
  ghost predicate Returns(files: Files, base: string, mkdirFails: string -> bool, location: string, exclusive: bool, o: Outcome) {
    exists fuel: nat :: Create(files, base, mkdirFails, location, exclusive, fuel) == Some(o)
  }

  ghost predicate ParentReturns(files: Files, base: string, mkdirFails: string -> bool, folder: string, o: Outcome) {
    exists fuel: nat :: Parent(files, base, mkdirFails, folder, fuel) == Some(o)
  }

  lemma CreateByParent(files: Files, base: string, mkdirFails: string -> bool, location: string, exclusive: bool, parent: Outcome)
    requires var path := Normalize(base, location);
             path !in files && ParentReturns(files, base, mkdirFails, GetFolder(path), parent)
    ensures var path := Normalize(base, location);
            Returns(files, base, mkdirFails, location, exclusive,
                    if !parent.ok || mkdirFails(path) then Outcome(false, location, parent.files)
                    else Outcome(true, path, parent.files[path := Folder]))
  {
    var path := Normalize(base, location);
    var fuel: nat :| Parent(files, base, mkdirFails, GetFolder(path), fuel) == Some(parent);
    assert Create(files, base, mkdirFails, location, exclusive, fuel + 1).Some?;
  }

  lemma CreateExisting(files: Files, base: string, mkdirFails: string -> bool, location: string, exclusive: bool)
    requires Normalize(base, location) in files
    ensures var path := Normalize(base, location);
            Returns(files, base, mkdirFails, location, exclusive,
                    if exclusive || !IsFolder(files, Normalize(base, path)) then Outcome(false, location, files)
                    else Outcome(true, path, files))
  {
    assert Create(files, base, mkdirFails, location, exclusive, 1).Some?;
  }

  lemma ParentThere(files: Files, base: string, mkdirFails: string -> bool, folder: string)
    requires IsFolder(files, Normalize(base, folder))
    ensures ParentReturns(files, base, mkdirFails, folder, Outcome(true, folder, files))
  {
    assert Parent(files, base, mkdirFails, folder, 0).Some?;
  }

  lemma ParentMissing(files: Files, base: string, mkdirFails: string -> bool, folder: string, o: Outcome)
    requires !IsFolder(files, Normalize(base, folder)) && Returns(files, base, mkdirFails, folder, false, o)
    ensures ParentReturns(files, base, mkdirFails, folder, o)
  {
    var fuel: nat :| Create(files, base, mkdirFails, folder, false, fuel) == Some(o);
    assert Parent(files, base, mkdirFails, folder, fuel) == Some(o);
  }

  /** More calls do not change the outcome. */
  lemma {:induction false} MoreFuel(files: Files, base: string, mkdirFails: string -> bool, location: string, exclusive: bool,
                                    fuel: nat, more: nat)
    requires Create(files, base, mkdirFails, location, exclusive, fuel).Some? && fuel <= more
    ensures Create(files, base, mkdirFails, location, exclusive, more) == Create(files, base, mkdirFails, location, exclusive, fuel)
    decreases fuel
  {
    var path := Normalize(base, location);
    var folder := GetFolder(path);
    if path !in files && !IsFolder(files, Normalize(base, folder)) {
      MoreFuel(files, base, mkdirFails, folder, false, fuel - 1, more - 1);
    }
  }

  lemma OneOutcome(files: Files, base: string, mkdirFails: string -> bool, location: string, exclusive: bool, o: Outcome, o': Outcome)
    requires Returns(files, base, mkdirFails, location, exclusive, o) && Returns(files, base, mkdirFails, location, exclusive, o')
    ensures o == o'
  {
    var f: nat :| Create(files, base, mkdirFails, location, exclusive, f) == Some(o);
    var f': nat :| Create(files, base, mkdirFails, location, exclusive, f') == Some(o');
    MoreFuel(files, base, mkdirFails, location, exclusive, f, f + f');
    MoreFuel(files, base, mkdirFails, location, exclusive, f', f + f');
  }

  /** The path is the base or begins with the base and a separator. */
  predicate Inside(base: string, path: string) {
    path == base || base + ['/'] <= path
  }

  /** Whatever is in the base is in a folder; the base itself may be missing, or no folder. */
  ghost predicate IsForest(files: Files, base: string) {
    && base != [] && base[0] == '/'
    && forall path :: path in files && Inside(base, path) && path != base ==> IsFolder(files, GetFolder(path))
  }

  lemma {:induction false} LastSlashBound(s: string, k: nat)
    requires k < |s| && s[k] == '/'
    ensures LastSlash(s).Some? && LastSlash(s).value >= k
  {
    if s[|s| - 1] != '/' {
      LastSlashBound(s[..|s| - 1], k);
    }
  }

  /** The folder of a path in the base is in the base again, or that of the base itself. */
  lemma FolderInside(base: string, path: string)
    requires base != [] && base[0] == '/' && Inside(base, path)
    ensures |GetFolder(path)| < |path|
    ensures path == base ==> !(base <= GetFolder(path))
    ensures path != base ==> Inside(base, GetFolder(path)) && base <= GetFolder(path)
  {
    if path == base {
      LastSlashBound(path, 0);
    } else {
      assert path[|base|] == (base + ['/'])[|base|];
      LastSlashBound(path, |base|);
      var n := LastSlash(path).value;
      assert base == (base + ['/'])[..|base|] == path[..|base|] == path[..n][..|base|];
      if n > |base| {
        assert path[..n][..|base| + 1] == path[..|base| + 1] == base + ['/'];
      } else {
        assert path[..n] == base;
      }
    }
  }

  /** Wherever a call in the base goes on, it stays in the base. */
  lemma NormalizedInside(base: string, path: string)
    requires base != [] && base[0] == '/' && Inside(base, path)
    ensures Inside(base, Normalize(base, GetFolder(path)))
  {
    FolderInside(base, path);
    if path == base {
      var folder := GetFolder(path);
      assert folder != [] ==> base + (['/'] + folder) == base + ['/'] + folder;
    }
  }

  /** Without its base folder the repository makes no progress: the folder of the base, normalized, is in the base. */
  lemma {:induction false} MissingBaseRecurs(files: Files, base: string, mkdirFails: string -> bool, location: string,
                                             exclusive: bool, fuel: nat)
    requires base != [] && base[0] == '/' && Inside(base, Normalize(base, location))
    requires forall path :: path in files ==> !Inside(base, path)
    ensures Create(files, base, mkdirFails, location, exclusive, fuel).None?
    decreases fuel
  {
    var path := Normalize(base, location);
    NormalizedInside(base, path);
    if fuel > 0 {
      MissingBaseRecurs(files, base, mkdirFails, GetFolder(path), false, fuel - 1);
    }
  }

  lemma {:induction false} NothingWithoutBase(files: Files, base: string, path: string)
    requires IsForest(files, base) && path in files && Inside(base, path)
    ensures base in files
    decreases |path|
  {
    if path != base {
      FolderInside(base, path);
      NothingWithoutBase(files, base, GetFolder(path));
    }
  }

  lemma {:induction false} EnoughFuel(files: Files, base: string, mkdirFails: string -> bool, location: string, exclusive: bool,
                                      comps: seq<string>)
    requires base != [] && base[0] == '/' && base in files && Locates(base, location, comps)
    ensures Create(files, base, mkdirFails, location, exclusive, |comps| + 1).Some?
    decreases |comps|
  {
    Normalized(base, location, comps);
    if PathOf(base, comps) !in files {
      FolderOfPath(base, comps);
      var shorter := comps[..|comps| - 1];
      Normalized(base, PathOf(base, shorter), shorter);
      EnoughFuel(files, base, mkdirFails, PathOf(base, shorter), false, shorter);
    }
  }

  lemma {:induction false} PathInside(base: string, comps: seq<string>)
    ensures Inside(base, PathOf(base, comps))
  {
    if comps != [] {
      var folder, last := PathOf(base, comps[..|comps| - 1]), comps[|comps| - 1];
      PathInside(base, comps[..|comps| - 1]);
      assert folder == base ==> folder + (['/'] + last) == base + ['/'] + last;
    }
  }

  /** A call for a location in the repository returns exactly if the base exists, whatever else there is. */
  lemma ReturnsExactlyWithBase(files: Files, base: string, mkdirFails: string -> bool, location: string, exclusive: bool,
                               comps: seq<string>)
    requires IsForest(files, base) && Locates(base, location, comps)
    ensures (exists o :: Returns(files, base, mkdirFails, location, exclusive, o)) <==> base in files
  {
    Normalized(base, location, comps);
    PathInside(base, comps);
    if base in files {
      EnoughFuel(files, base, mkdirFails, location, exclusive, comps);
      var o := Create(files, base, mkdirFails, location, exclusive, |comps| + 1).value;
      assert Returns(files, base, mkdirFails, location, exclusive, o);
    } else {
      forall path | path in files
        ensures !Inside(base, path)
      {
        if Inside(base, path) {
          NothingWithoutBase(files, base, path);
        }
      }
      forall fuel: nat
        ensures Create(files, base, mkdirFails, location, exclusive, fuel).None?
      {
        MissingBaseRecurs(files, base, mkdirFails, location, exclusive, fuel);
      }
    }
  }

  /** The same for the folder of a new artifact. */
  lemma ArtifactReturnsExactlyWithBase(files: Files, base: string, mkdirFails: string -> bool, location: string, comps: seq<string>)
    requires IsForest(files, base) && Locates(base, location, comps) && comps != []
    ensures (exists o :: ParentReturns(files, base, mkdirFails, GetFolder(Normalize(base, location)), o)) <==> base in files
  {
    Normalized(base, location, comps);
    FolderOfPath(base, comps);
    var shorter := comps[..|comps| - 1];
    var folder := PathOf(base, shorter);
    ReturnsExactlyWithBase(files, base, mkdirFails, folder, false, shorter);
    Normalized(base, folder, shorter);
    if IsFolder(files, folder) {
      PathInside(base, shorter);
      NothingWithoutBase(files, base, folder);
      assert Parent(files, base, mkdirFails, folder, 0) == Some(Outcome(true, folder, files));
      assert ParentReturns(files, base, mkdirFails, folder, Outcome(true, folder, files));
    } else {
      forall o
        ensures ParentReturns(files, base, mkdirFails, folder, o) <==> Returns(files, base, mkdirFails, folder, false, o)
      {
        SameCall(files, base, mkdirFails, folder, o);
      }
    }
  }

  lemma SameCall(files: Files, base: string, mkdirFails: string -> bool, folder: string, o: Outcome)
    requires !IsFolder(files, Normalize(base, folder))
    ensures ParentReturns(files, base, mkdirFails, folder, o) <==> Returns(files, base, mkdirFails, folder, false, o)
  {
    assert forall fuel: nat :: Parent(files, base, mkdirFails, folder, fuel) == Create(files, base, mkdirFails, folder, false, fuel);
  }

  // ------------------------------------------------------------------ the class

  class InstallationRepository {
    const base: string
    var files: Files
    /** The paths that the file system refuses to make a folder, or an artifact, of. */
    const mkdirFails: string -> bool
    const openFails: string -> bool

    constructor (base: string, files: Files, mkdirFails: string -> bool, openFails: string -> bool)
      ensures this.base == base && this.files == files
      ensures this.mkdirFails == mkdirFails && this.openFails == openFails
    {
      this.base, this.files, this.mkdirFails, this.openFails := base, files, mkdirFails, openFails;
    }

    method HasFolder(location: string, ghost comps: seq<string>) returns (r: bool)
      requires IsTree(files, base) && Locates(base, location, comps)
      ensures r == IsFolder(files, PathOf(base, comps))
    {
      Normalized(base, location, comps);
      var path := Normalize(base, location);
      r := path in files && files[path] == Folder;
    }

    /** Makes the folder that a new entry goes to, unless it is there. */
    method MakeParent(folder: string, ghost comps: seq<string>) returns (ok: bool, ghost created: string)
      requires IsTree(files, base) && AreComponents(comps) && folder == PathOf(base, comps)
      modifies this`files
      ensures IsTree(files, base) && Extends(old(files), files, base, comps)
      ensures ok <==> CanCreate(old(files), base, comps, mkdirFails)
      ensures ok ==> IsFolder(files, folder)
      ensures ParentReturns(old(files), base, mkdirFails, folder, Outcome(ok, created, files))
      decreases |comps|, 2
    {
      Normalized(base, folder, comps);
      hide IsTree, CanCreate, PathOf, AreComponents, Returns, ParentReturns, Normalize;
      var there := HasFolder(folder, comps);
      if there {
        ExistingCanBeCreated(files, base, comps, mkdirFails);
        ParentThere(files, base, mkdirFails, folder);
        return true, folder;
      }
      NotThere(files, base, comps, mkdirFails);
      ghost var before := files;
      var location;
      ok, location := CreateFolder(folder, false, comps);
      created := location;
      ParentMissing(before, base, mkdirFails, folder, Outcome(ok, created, files));
      if ok {
        assert comps[..|comps|] == comps;
      }
    }

    /** Makes a folder with all folders it is in; `created` is the new value of the location argument. */
    method CreateFolder(location: string, exclusive: bool, ghost comps: seq<string>) returns (ok: bool, created: string)
      requires IsTree(files, base) && Locates(base, location, comps)
      modifies this`files
      ensures IsTree(files, base) && Extends(old(files), files, base, comps)
      ensures ok <==> && CanCreate(old(files), base, comps, mkdirFails)
                      && !(exclusive && PathOf(base, comps) in old(files))
      ensures ok ==> created == PathOf(base, comps) && forall k :: 0 <= k <= |comps| ==> IsFolder(files, PathOf(base, comps[..k]))
      ensures Returns(old(files), base, mkdirFails, location, exclusive, Outcome(ok, created, files))
      decreases |comps|, 1
    {
      hide CanCreate, Extends, PathOf, IsFolder, Returns, Normalize;
      Normalized(base, location, comps);
      var path := Normalize(base, location);
      created := location;
      if path !in files {
        ok := MakeFolder(location, path, exclusive, comps);
        if ok {
          created := path;
          FoldersAlong(files, base, comps);
        }
      } else {
        ExistingCanBeCreated(files, base, comps, mkdirFails);
        ExtendsItself(files, base, comps);
        CreateExisting(files, base, mkdirFails, location, exclusive);
        Normalized(base, path, comps);
        var isFolder := HasFolder(path, comps);
        FolderThere(files, path);
        if exclusive || !isFolder {
          return false, created;
        }
        FoldersAlong(files, base, comps);
        return true, path;
      }
    }

    /** The branch of create_folder for a path that does not exist. */
    method MakeFolder(ghost location: string, path: string, ghost exclusive: bool, ghost comps: seq<string>)
      returns (ok: bool)
      requires IsTree(files, base) && AreComponents(comps) && path == PathOf(base, comps) && path !in files
      requires path == Normalize(base, location)
      modifies this`files
      ensures IsTree(files, base) && Extends(old(files), files, base, comps)
      ensures ok <==> CanCreate(old(files), base, comps, mkdirFails)
      ensures ok ==> IsFolder(files, path)
      ensures Returns(old(files), base, mkdirFails, location, exclusive, Outcome(ok, if ok then path else location, files))
      decreases |comps|, 0
    {
      hide CanCreate, Extends, PathOf, IsTree, GetFolder, Returns, ParentReturns, Normalize;
      NotTheBase(files, base, comps);
      FolderOfPath(base, comps);
      ghost var parents, before := comps[..|comps| - 1], files;
      CanCreateLast(files, base, comps, mkdirFails);
      ghost var created;
      ok, created := MakeParent(GetFolder(path), parents);
      CreateByParent(before, base, mkdirFails, location, exclusive, Outcome(ok, created, files));
      ExtendsMore(before, files, base, comps);
      if ok {
        NotAmongParents(before, files, base, comps);
        ExtendsOne(before, files, base, comps);
        if mkdirFails(path) {
          return false;
        }
        TreeWithFolder(files, base, comps);
        files := files[path := Folder];
      }
    }

    /** Opens an artifact for writing, in a folder that is made if need be. */
    method CreateArtifact(location: string, exclusive: bool, ghost comps: seq<string>) returns (ok: bool, created: string)
      requires IsTree(files, base) && Locates(base, location, comps) && comps != []
      modifies this`files
      ensures IsTree(files, base)
      ensures var path := PathOf(base, comps);
              && (ok <==> if path in old(files) then !exclusive && old(files)[path] == Artifact && !openFails(path)
                          else CanCreate(old(files), base, comps[..|comps| - 1], mkdirFails) && !openFails(path))
              && (ok ==> created == path && path in files && files[path] == Artifact)
              && forall other :: other in old(files) ==> other in files && files[other] == old(files)[other]
    {
      Normalized(base, location, comps);
      hide CanCreate, PathOf, IsTree, GetFolder;
      FolderOfPath(base, comps);
      var path := Normalize(base, location);
      created := location;
      ghost var parents, before := comps[..|comps| - 1], files;
      if path in files {
        if exclusive || files[path] != Artifact || openFails(path) {
          return false, created;
        }
        assert files[path := Artifact] == files;
      } else {
        ghost var parent;
        ok, parent := MakeParent(GetFolder(path), parents);
        if !ok || openFails(path) {
          return false, created;
        }
        NotAmongParents(before, files, base, comps);
        TreeWithFolder(files, base, comps);
      }
      files := files[path := Artifact];
      created, ok := path, true;
    }
  }

  lemma NotTheBase(files: Files, base: string, comps: seq<string>)
    requires IsTree(files, base) && PathOf(base, comps) !in files
    ensures comps != []
  {
  }

  lemma FolderThere(files: Files, path: string)
    requires path in files
    ensures IsFolder(files, path) <==> files[path] == Folder
  {
  }

  lemma ExtendsItself(files: Files, base: string, comps: seq<string>)
    ensures Extends(files, files, base, comps)
  {
  }

  /** A path that is no folder is missing, or cannot be created. */
  lemma NotThere(files: Files, base: string, comps: seq<string>, mkdirFails: string -> bool)
    requires IsTree(files, base) && AreComponents(comps) && !IsFolder(files, PathOf(base, comps))
    ensures PathOf(base, comps) in files ==> !CanCreate(files, base, comps, mkdirFails)
  {
    if PathOf(base, comps) in files {
      ExistingCanBeCreated(files, base, comps, mkdirFails);
    }
  }

  lemma ExtendsMore(before: Files, after: Files, base: string, comps: seq<string>)
    requires comps != [] && Extends(before, after, base, comps[..|comps| - 1])
    ensures Extends(before, after, base, comps)
  {
    var shorter := comps[..|comps| - 1];
    forall path | path in after && path !in before
      ensures exists k :: 0 < k <= |comps| && path == PathOf(base, comps[..k])
    {
      var k :| 0 < k <= |shorter| && path == PathOf(base, shorter[..k]);
      assert shorter[..k] == comps[..k];
    }
  }

  lemma {:induction false} PathsGrow(base: string, comps: seq<string>, k: nat)
    requires k < |comps|
    ensures |PathOf(base, comps[..k])| < |PathOf(base, comps)|
  {
    var before := comps[..|comps| - 1];
    if k < |before| {
      PathsGrow(base, before, k);
      assert before[..k] == comps[..k];
    } else {
      assert comps[..k] == before;
    }
  }

  lemma NotAmongParents(before: Files, after: Files, base: string, comps: seq<string>)
    requires comps != [] && Extends(before, after, base, comps[..|comps| - 1]) && PathOf(base, comps) !in before
    ensures PathOf(base, comps) !in after
  {
    var path, shorter := PathOf(base, comps), comps[..|comps| - 1];
    if path in after {
      var k :| 0 < k <= |shorter| && path == PathOf(base, shorter[..k]);
      assert shorter[..k] == comps[..k];
      PathsGrow(base, comps, k);
    }
  }

  lemma FoldersAlong(files: Files, base: string, comps: seq<string>)
    requires IsTree(files, base) && AreComponents(comps) && IsFolder(files, PathOf(base, comps))
    ensures forall k :: 0 <= k <= |comps| ==> IsFolder(files, PathOf(base, comps[..k]))
  {
    forall k | 0 <= k <= |comps|
      ensures IsFolder(files, PathOf(base, comps[..k]))
    {
      AncestorsAreFolders(files, base, comps, k);
      assert comps[..|comps|] == comps;
    }
  }
}
