/**
 The two ways pkg/devcontainer/helpers.go finds devcontainer files: a depth-pruned walk over a local
 directory, and a filter over the flat list of paths that `git ls-tree -r` prints.
 */
module Finder {
  import opened Text
  import opened FileTree

  // ---- path strings ----

  function Count(s: string, c: char): nat {
    if s == "" then 0 else (if s[0] == c then 1 else 0) + Count(s[1..], c)
  }

  predicate IsDevcontainerFilename(path: string) {
    Base(path) == ".devcontainer.json" || Base(path) == "devcontainer.json"
  }

  predicate HasDevName(p: Path) {
    p != [] && (p[|p| - 1] == ".devcontainer.json" || p[|p| - 1] == "devcontainer.json")
  }

  lemma {:induction false} CountIsParts(s: string, c: char)
    ensures Count(s, c) == |Split(s, c)| - 1
  {
    if s != "" {
      CountIsParts(s[1..], c);
    }
  }

  lemma TextFacts(p: Path)
    requires OrdinaryPath(p) && p != []
    ensures Split(PathText(p), '/') == p
    ensures Count(PathText(p), '/') == |p| - 1
    ensures IsDevcontainerFilename(PathText(p)) <==> HasDevName(p)
    ensures Split("/" + PathText(p), '/') == [""] + p
    ensures Count("/" + PathText(p), '/') == |p|
    ensures IsDevcontainerFilename("/" + PathText(p)) <==> HasDevName(p)
  {
    SplitJoin(p, '/');
    CountIsParts(PathText(p), '/');
    SplitPart("", PathText(p), '/');
    assert "" + ['/'] + PathText(p) == "/" + PathText(p);
    CountIsParts("/" + PathText(p), '/');
    BaseIsLast(PathText(p), p);
    BaseIsLast("/" + PathText(p), [""] + p);
  }

  // ---- what a tree holds ----

  function Find(es: seq<Entry>, name: string): Option<Tree> {
    if es == [] then None
    else if es[0].name == name then Some(es[0].tree)
    else Find(es[1..], name)
  }

  function Lookup(t: Tree, p: Path): Option<Tree>
    decreases |p|
  {
    if p == [] then Some(t)
    else if !t.Dir? then None
    else match Find(t.entries, p[0])
      case None => None
      case Some(sub) => Lookup(sub, p[1..])
  }

  /** The paths `git ls-tree -r` knows: everything that is not a directory. */
  predicate IsLeafPath(t: Tree, p: Path) {
    Lookup(t, p).Some? && !Lookup(t, p).value.Dir?
  }

  predicate IsDirPath(t: Tree, p: Path) {
    Lookup(t, p).Some? && Lookup(t, p).value.Dir?
  }

  // ---- the local walk ----

  /** The paths the walk below `source` reports, in the order it visits them. */
  function Found(source: Path, p: Path, t: Tree, maxDepth: int): seq<Path>
    decreases t, 1
  {
    if t.Dir? && |p| > maxDepth then []
    else
      (if HasDevName(source + p) then [p] else [])
      + (if t.Dir? then FoundIn(source, p, t.entries, maxDepth) else [])
  }

  function FoundIn(source: Path, p: Path, es: seq<Entry>, maxDepth: int): seq<Path>
    decreases es, 0
  {
    if es == [] then []
    else Found(source, p + [es[0].name], es[0].tree, maxDepth) + FoundIn(source, p, es[1..], maxDepth)
  }

  /** `filepath.Rel` of a path below the source. */
  function RelText(p: Path): string {
    if p == [] then "." else PathText(p)
  }

  function Texts(ps: seq<Path>): seq<string> {
    seq(|ps|, k requires 0 <= k < |ps| => RelText(ps[k]))
  }

  lemma TextsNone()
    ensures Texts([]) == []
  {
  }

  lemma TextsAppend(a: seq<Path>, b: seq<Path>)
    ensures Texts(a + b) == Texts(a) + Texts(b)
  {
  }

  class LocalFinder {
    const rawSource: string
    const initialDepth: nat
    const maxDepth: int
    ghost const source: Path
    var configPaths: seq<string>

    ghost predicate Valid() {
      && source != [] && OrdinaryPath(source)
      && rawSource == "/" + PathText(source)
      && initialDepth == |source|
    }

    /** The source is a clean absolute path other than "/". */
    constructor (rawSource: string, maxDepth: int, ghost source: Path)
      requires source != [] && OrdinaryPath(source) && rawSource == "/" + PathText(source)
      ensures Valid() && this.rawSource == rawSource && this.maxDepth == maxDepth
      ensures this.source == source && configPaths == []
    {
      TextFacts(source);
      this.rawSource, this.maxDepth, this.source := rawSource, maxDepth, source;
      initialDepth := Count(rawSource, '/');
      configPaths := [];
    }

    /** WalkDir's visit of one path and, for a directory it does not skip, of what is below. */
    method Walk(path: string, p: Path, t: Tree)
      requires Valid() && OrdinaryPath(p) && WellNamed(t)
      requires path == "/" + PathText(source + p)
      modifies this
      ensures configPaths == old(configPaths) + Texts(Found(source, p, t, maxDepth))
      decreases t, 1
    {
      hide PathText, Count, IsDevcontainerFilename;
      TextFacts(source + p);
      var depth := Count(path, '/') - initialDepth;
      if t.Dir? && depth > maxDepth {
        return;
      }
      if IsDevcontainerFilename(path) {
        assert Texts([p]) == [RelText(p)];
        configPaths := configPaths + [RelText(p)];
      }
      if t.Dir? {
        TextsAppend(if HasDevName(source + p) then [p] else [], FoundIn(source, p, t.entries, maxDepth));
        WalkEntries(path, p, t.entries);
      }
    }

    method WalkEntries(path: string, p: Path, entries: seq<Entry>)
      requires Valid() && OrdinaryPath(p) && WellNamedEntries(entries)
      requires path == "/" + PathText(source + p)
      modifies this
      ensures configPaths == old(configPaths) + Texts(FoundIn(source, p, entries, maxDepth))
      decreases entries, 0
    {
      hide Texts, Found, PathText;
      ghost var done: seq<Path> := [];
      var rest := entries;
      TextsNone();
      while rest != []
        invariant WellNamedEntries(rest) && |rest| <= |entries|
        invariant rest == entries[|entries| - |rest|..]
        invariant done + FoundIn(source, p, rest, maxDepth) == FoundIn(source, p, entries, maxDepth)
        invariant configPaths == old(configPaths) + Texts(done)
        decreases |rest|
      {
        var e := rest[0];
        assert e == entries[|entries| - |rest|];
        ChildText(source, p, e.name);
        ghost var found := Found(source, p + [e.name], e.tree, maxDepth);
        TextsAppend(done, found);
        Walk(path + "/" + e.name, p + [e.name], e.tree);
        assert FoundIn(source, p, rest, maxDepth) == found + FoundIn(source, p, rest[1..], maxDepth);
        done := done + found;
        rest := rest[1..];
      }
      assert done + [] == done;
    }
  }

  lemma ChildText(source: Path, p: Path, name: string)
    requires source != []
    ensures "/" + PathText(source + p) + "/" + name == "/" + PathText(source + (p + [name]))
  {
    PathSnoc(source + p, name);
    assert source + p + [name] == source + (p + [name]);
    assert "/" + PathText(source + p) + "/" + name == "/" + (PathText(source + p) + "/" + name);
  }

  // ---- the filter over git's list ----

  function Kept(lines: seq<string>, maxDepth: int): seq<string> {
    if lines == [] then []
    else
      var s := lines[|lines| - 1];
      Kept(lines[..|lines| - 1], maxDepth)
      + if Count(s, '/') <= maxDepth && IsDevcontainerFilename(s) then [s] else []
  }

  /** The scanner loop of FindFilesInGitRepo. */
  method FilterGitPaths(lines: seq<string>, maxDepth: int) returns (configPaths: seq<string>)
    ensures configPaths == Kept(lines, maxDepth)
  {
    configPaths := [];
    for k := 0 to |lines|
      invariant configPaths == Kept(lines[..k], maxDepth)
    {
      assert lines[..k + 1][..k] == lines[..k];
      var depth := Count(lines[k], '/');
      if depth > maxDepth {
        continue;
      }
      if IsDevcontainerFilename(lines[k]) {
        configPaths := configPaths + [lines[k]];
      }
    }
    assert lines[..|lines|] == lines;
  }

  lemma {:induction false} KeptIff(lines: seq<string>, maxDepth: int, s: string)
    ensures s in Kept(lines, maxDepth) <==>
            s in lines && Count(s, '/') <= maxDepth && IsDevcontainerFilename(s)
  {
    if lines != [] {
      var n := |lines| - 1;
      KeptIff(lines[..n], maxDepth, s);
      assert lines == lines[..n] + [lines[n]];
    }
  }

  // ---- the walk's result, path by path ----

  predicate Reported(source: Path, p: Path, t: Tree, maxDepth: int, q: Path) {
    && p <= q && Lookup(t, q[|p|..]).Some? && HasDevName(source + q)
    && (if Lookup(t, q[|p|..]).value.Dir? then |q| <= maxDepth else q == p || |q| - 1 <= maxDepth)
  }

  lemma {:induction false} FoundIff(source: Path, p: Path, t: Tree, maxDepth: int, q: Path)
    requires WellNamed(t)
    ensures q in Found(source, p, t, maxDepth) <==> Reported(source, p, t, maxDepth, q)
    decreases t, 1
  {
    if t.Dir? {
      if p <= q && |p| > maxDepth && q != p {
        assert |q| > |p|;
      }
      FoundInIff(source, p, t.entries, maxDepth, q);
      if p <= q && q != p {
        assert q[|p|..] != [] && q[|p|..][0] == q[|p|] && q[|p|..][1..] == q[|p| + 1..];
      }
    } else if p <= q && q != p {
      assert q[|p|..] != [];
    }
  }

  /** The same for the entries of a directory that is not skipped. */
  lemma {:induction false} FoundInIff(source: Path, p: Path, es: seq<Entry>, maxDepth: int, q: Path)
    requires WellNamedEntries(es)
    ensures q in FoundIn(source, p, es, maxDepth) <==>
            && p < q && Find(es, q[|p|]).Some?
            && Reported(source, q[..|p| + 1], Find(es, q[|p|]).value, maxDepth, q)
    decreases es, 0
  {
    if es != [] {
      var first := p + [es[0].name];
      FoundIff(source, first, es[0].tree, maxDepth, q);
      FoundInIff(source, p, es[1..], maxDepth, q);
      if p < q {
        if q[|p|] == es[0].name {
          assert q[..|p| + 1] == first;
          FindAbsent(es[1..], es[0].name);
        } else {
          assert q[|p|] != first[|p|];
        }
      } else {
        assert first <= q ==> p < q;
      }
    }
  }

  lemma {:induction false} FindAbsent(es: seq<Entry>, name: string)
    requires forall k :: 0 <= k < |es| ==> es[k].name != name
    ensures Find(es, name) == None
  {
    if es != [] {
      FindAbsent(es[1..], name);
    }
  }

  // ---- both ways find the same files ----

  /** A directory that the walk visits and that bears a devcontainer file name. */
  ghost predicate DirBearsName(source: Path, t: Tree, maxDepth: int) {
    exists p: Path :: IsDirPath(t, p) && |p| <= maxDepth && HasDevName(source + p)
  }

  /** `lines` lists, in some order, exactly the paths of the tree that are no directories. */
  ghost predicate Lists(lines: seq<string>, t: Tree) {
    && (forall k :: 0 <= k < |lines| ==> exists p :: IsLeafPath(t, p) && lines[k] == PathText(p))
    && (forall p :: IsLeafPath(t, p) ==> PathText(p) in lines)
  }

  lemma {:induction false} LookupOrdinary(t: Tree, p: Path)
    requires WellNamed(t) && Lookup(t, p).Some?
    ensures OrdinaryPath(p)
    decreases |p|
  {
    if p != [] {
      var sub := FindOrdinary(t.entries, p[0]);
      LookupOrdinary(sub, p[1..]);
      assert p == [p[0]] + p[1..];
    }
  }

  lemma {:induction false} FindOrdinary(es: seq<Entry>, name: string) returns (sub: Tree)
    requires WellNamedEntries(es) && Find(es, name).Some?
    ensures Find(es, name) == Some(sub) && WellNamed(sub) && Ordinary(name)
    decreases |es|
  {
    if es[0].name == name {
      sub := es[0].tree;
    } else {
      sub := FindOrdinary(es[1..], name);
    }
  }

  lemma LocalIff(source: Path, t: Tree, maxDepth: int, p: Path)
    requires WellNamed(t) && t.Dir?
    ensures p in Found(source, [], t, maxDepth) <==>
            && HasDevName(source + p)
            && ((IsLeafPath(t, p) && |p| - 1 <= maxDepth) || (IsDirPath(t, p) && |p| <= maxDepth))
  {
    FoundIff(source, [], t, maxDepth, p);
    assert p[0..] == p;
  }

  lemma InTexts(ps: seq<Path>, s: string)
    ensures s in Texts(ps) <==> exists p :: p in ps && RelText(p) == s
  {
    if s in Texts(ps) {
      var k :| 0 <= k < |Texts(ps)| && Texts(ps)[k] == s;
      assert ps[k] in ps;
    }
    if p :| p in ps && RelText(p) == s {
      var k :| 0 <= k < |ps| && ps[k] == p;
      assert Texts(ps)[k] == s;
    }
  }

  lemma LeafKept(source: Path, t: Tree, maxDepth: int, lines: seq<string>, p: Path)
    requires WellNamed(t) && t.Dir? && Lists(lines, t) && IsLeafPath(t, p)
    ensures RelText(p) in Kept(lines, maxDepth) <==> |p| - 1 <= maxDepth && HasDevName(source + p)
  {
    hide PathText, Count, IsDevcontainerFilename, Kept;
    LookupOrdinary(t, p);
    assert p != [];
    TextFacts(p);
    KeptIff(lines, maxDepth, PathText(p));
    assert (source + p)[|source + p| - 1] == p[|p| - 1];
  }

  lemma TextsDiffer(p: Path, q: Path)
    requires OrdinaryPath(p) && OrdinaryPath(q) && q != [] && p != q
    ensures RelText(p) != PathText(q)
  {
    TextFacts(q);
    assert Ordinary(q[0]);
    if p == [] {
      SplitPart(".", "", '/');
    } else {
      TextFacts(p);
    }
  }

  /** A directory's path is never in git's list. */
  lemma DirNotKept(t: Tree, maxDepth: int, lines: seq<string>, p: Path)
    requires WellNamed(t) && t.Dir? && Lists(lines, t) && IsDirPath(t, p)
    ensures RelText(p) !in Kept(lines, maxDepth)
  {
    KeptIff(lines, maxDepth, RelText(p));
    if RelText(p) in lines {
      var k :| 0 <= k < |lines| && lines[k] == RelText(p);
      var q :| IsLeafPath(t, q) && lines[k] == PathText(q);
      LookupOrdinary(t, p);
      LookupOrdinary(t, q);
      TextsDiffer(p, q);
      assert false;
    }
  }

  /**
   For every tree, depth and listing, the walk and the filter report the same set of paths if and
   only if no directory the walk visits (the source included) bears a devcontainer file name.
   */
  lemma SameFiles(source: Path, t: Tree, maxDepth: int, lines: seq<string>)
    requires source != [] && WellNamed(t) && t.Dir? && Lists(lines, t)
    ensures (forall s :: s in Texts(Found(source, [], t, maxDepth)) <==> s in Kept(lines, maxDepth))
            <==> !DirBearsName(source, t, maxDepth)
  {
    var found, kept := Found(source, [], t, maxDepth), Kept(lines, maxDepth);
    if DirBearsName(source, t, maxDepth) {
      var p: Path :| IsDirPath(t, p) && |p| <= maxDepth && HasDevName(source + p);
      LocalIff(source, t, maxDepth, p);
      InTexts(found, RelText(p));
      DirNotKept(t, maxDepth, lines, p);
      assert RelText(p) in Texts(found) && RelText(p) !in kept;
    } else {
      forall s ensures s in Texts(found) <==> s in kept {
        InTexts(found, s);
        if s in Texts(found) {
          var p :| p in found && RelText(p) == s;
          LocalIff(source, t, maxDepth, p);
          LeafKept(source, t, maxDepth, lines, p);
        }
        KeptIff(lines, maxDepth, s);
        if s in kept {
          var k :| 0 <= k < |lines| && lines[k] == s;
          var p :| IsLeafPath(t, p) && lines[k] == PathText(p);
          assert p != [];
          LocalIff(source, t, maxDepth, p);
          LeafKept(source, t, maxDepth, lines, p);
        }
      }
    }
  }

  /** Under which names a file is found, and how deep, by the walk and by the filter. */
  lemma NamedFile(source: Path, t: Tree, maxDepth: int, lines: seq<string>, p: Path)
    requires WellNamed(t) && t.Dir? && Lists(lines, t) && IsLeafPath(t, p)
    ensures p != []
    ensures p in Found(source, [], t, maxDepth) <==>
            |p| - 1 <= maxDepth && (p[|p| - 1] == ".devcontainer.json" || p[|p| - 1] == "devcontainer.json")
    ensures PathText(p) in Kept(lines, maxDepth) <==>
            |p| - 1 <= maxDepth && (p[|p| - 1] == ".devcontainer.json" || p[|p| - 1] == "devcontainer.json")
  {
    assert p != [];
    LocalIff(source, t, maxDepth, p);
    LeafKept(source, t, maxDepth, lines, p);
    assert (source + p)[|source + p| - 1] == p[|p| - 1];
  }
}
