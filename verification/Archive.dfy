/** The pruning archiver of pkg/extract/compress.go. */
module Archive {
  import opened Text
  import opened FileTree

  datatype Kind = Regular(content: string) | Link(target: string) | Directory

  /** A tar header with its content; the header's name is the text of the path. */
  datatype TarEntry = TarEntry(path: Path, kind: Kind)

  // ---- a flat list: every file, link and originally empty directory ----

  function Leaves(p: Path, t: Tree): seq<TarEntry>
    decreases t, 1
  {
    match t
    case File(content) => [TarEntry(p, Regular(content))]
    case Symlink(target) => [TarEntry(p, Link(target))]
    case Dir(es) =>
      if es == [] then (if p == [] then [] else [TarEntry(p, Directory)]) else LeavesOf(p, es)
  }

  function LeavesOf(p: Path, es: seq<Entry>): seq<TarEntry>
    decreases es, 0
  {
    if es == [] then [] else Leaves(p + [es[0].name], es[0].tree) + LeavesOf(p, es[1..])
  }

  /** `path.Clean` of a relative path: the empty one becomes a dot. */
  function CleanText(p: Path): string {
    if p == [] then "." else PathText(p)
  }

  predicate Excluded(text: string, excludedPaths: seq<string>) {
    exists k :: 0 <= k < |excludedPaths| && excludedPaths[k] <= text
  }

  predicate Passes(e: TarEntry, excludedPaths: seq<string>) {
    !Excluded(CleanText(e.path) + (if e.kind.Directory? then "/" else ""), excludedPaths)
  }

  function Filter(es: seq<TarEntry>, excludedPaths: seq<string>): seq<TarEntry> {
    if es == [] then []
    else (if Passes(es[0], excludedPaths) then [es[0]] else []) + Filter(es[1..], excludedPaths)
  }

  // ---- the walk that prunes ----

  function Pruned(p: Path, t: Tree, excludedPaths: seq<string>): seq<TarEntry>
    decreases t, 1
  {
    if Excluded(CleanText(p) + (if t.Dir? then "/" else ""), excludedPaths) then []
    else match t
      case File(content) => [TarEntry(p, Regular(content))]
      case Symlink(target) => [TarEntry(p, Link(target))]
      case Dir(es) =>
        if es == [] then (if p == [] then [] else [TarEntry(p, Directory)])
        else PrunedOf(p, es, excludedPaths)
  }

  function PrunedOf(p: Path, es: seq<Entry>, excludedPaths: seq<string>): seq<TarEntry>
    decreases es, 0
  {
    if es == [] then []
    else Pruned(p + [es[0].name], es[0].tree, excludedPaths) + PrunedOf(p, es[1..], excludedPaths)
  }

  function Written(es: seq<TarEntry>): set<Path> {
    set k | 0 <= k < |es| :: es[k].path
  }

  lemma WrittenNone()
    ensures Written([]) == {}
  {
  }

  lemma WrittenOne(e: TarEntry)
    ensures Written([e]) == {e.path}
  {
    assert [e][0].path in Written([e]);
  }

  lemma WrittenAppend(a: seq<TarEntry>, b: seq<TarEntry>)
    ensures Written(a + b) == Written(a) + Written(b)
  {
    forall x | x in Written(a) + Written(b) ensures x in Written(a + b) {
      if x in Written(a) {
        var k :| 0 <= k < |a| && a[k].path == x;
        assert (a + b)[k].path == x;
      } else {
        var k :| 0 <= k < |b| && b[k].path == x;
        assert (a + b)[|a| + k].path == x;
      }
    }
  }

  /** Nothing at or below a path has been written yet. */
  predicate Untouched(written: set<Path>, p: Path) {
    forall w :: w in written ==> !(p <= w)
  }

  lemma ChildrenUntouched(written: set<Path>, p: Path)
    requires Untouched(written, p)
    ensures forall name: string :: Untouched(written, p + [name])
  {
  }

  lemma {:induction false} PrunedBelow(p: Path, t: Tree, excludedPaths: seq<string>)
    ensures forall k :: 0 <= k < |Pruned(p, t, excludedPaths)| ==> p <= Pruned(p, t, excludedPaths)[k].path
    decreases t, 1
  {
    if t.Dir? {
      PrunedOfBelow(p, t.entries, excludedPaths);
    }
  }

  lemma {:induction false} PrunedOfBelow(p: Path, es: seq<Entry>, excludedPaths: seq<string>)
    ensures forall k :: 0 <= k < |PrunedOf(p, es, excludedPaths)| ==> p <= PrunedOf(p, es, excludedPaths)[k].path
    decreases es, 0
  {
    if es != [] {
      PrunedBelow(p + [es[0].name], es[0].tree, excludedPaths);
      PrunedOfBelow(p, es[1..], excludedPaths);
    }
  }

  /** Writing below one entry leaves its differently named siblings untouched. */
  lemma SiblingsUntouched(p: Path, f: Entry, name: string, written: set<Path>, excludedPaths: seq<string>)
    requires Untouched(written, p + [name]) && name != f.name
    ensures Untouched(written + Written(Pruned(p + [f.name], f.tree, excludedPaths)), p + [name])
  {
    var added := Pruned(p + [f.name], f.tree, excludedPaths);
    PrunedBelow(p + [f.name], f.tree, excludedPaths);
    forall w | w in Written(added) ensures !(p + [name] <= w) {
      var k :| 0 <= k < |added| && added[k].path == w;
      assert w[|p|] == (p + [f.name])[|p|] == f.name;
    }
  }

  /** The Archiver: what it has put into the tar stream and which paths it remembers. */
  class Archiver {
    const excludedPaths: seq<string>
    var writtenFiles: set<Path>
    var writer: seq<TarEntry>

    constructor (excludedPaths: seq<string>)
      ensures writer == [] && writtenFiles == {} && this.excludedPaths == excludedPaths
    {
      this.excludedPaths := excludedPaths;
      writtenFiles, writer := {}, [];
    }

    method IsExcluded(text: string) returns (r: bool)
      ensures r == Excluded(text, excludedPaths)
    {
      for k := 0 to |excludedPaths|
        invariant forall j :: 0 <= j < k ==> !(excludedPaths[j] <= text)
      {
        if excludedPaths[k] <= text {
          return true;
        }
      }
      return false;
    }

    /** `t` is what Lstat finds at the path. */
    method AddToArchive(p: Path, t: Tree)
      requires WellNamed(t) && Untouched(writtenFiles, p)
      modifies this
      ensures writer == old(writer) + Pruned(p, t, excludedPaths)
      ensures writtenFiles == old(writtenFiles) + Written(Pruned(p, t, excludedPaths))
      decreases t, 2
    {
      if p in writtenFiles {
        return;
      }
      if t.Dir? {
        var excluded := IsExcluded(CleanText(p) + "/");
        if excluded {
          return;
        }
        TarFolder(p, t);
        return;
      }
      var excluded := IsExcluded(CleanText(p));
      if excluded {
        return;
      }
      TarFile(p, t);
    }

    method TarFolder(p: Path, t: Tree)
      requires t.Dir? && WellNamed(t) && Untouched(writtenFiles, p)
      requires !Excluded(CleanText(p) + "/", excludedPaths)
      modifies this
      ensures writer == old(writer) + Pruned(p, t, excludedPaths)
      ensures writtenFiles == old(writtenFiles) + Written(Pruned(p, t, excludedPaths))
      decreases t, 1
    {
      var files := t.entries;
      if |files| == 0 && p != [] {
        WrittenOne(TarEntry(p, Directory));
        writer := writer + [TarEntry(p, Directory)];
        writtenFiles := writtenFiles + {p};
      }
      TarEntries(p, files);
    }

    /** The loop of tarFolder over the directory's entries. */
    method TarEntries(p: Path, files: seq<Entry>)
      requires WellNamedEntries(files)
      requires files != [] ==> Untouched(writtenFiles, p)
      modifies this
      ensures writer == old(writer) + PrunedOf(p, files, excludedPaths)
      ensures writtenFiles == old(writtenFiles) + Written(PrunedOf(p, files, excludedPaths))
      decreases files, 0
    {
      hide Written, Pruned, Untouched;
      ghost var done: seq<TarEntry> := [];
      var rest := files;
      WrittenNone();
      if files != [] {
        ChildrenUntouched(writtenFiles, p);
      }
      while rest != []
        invariant WellNamedEntries(rest) && |rest| <= |files|
        invariant rest == files[|files| - |rest|..]
        invariant forall k :: 0 <= k < |rest| ==> Untouched(writtenFiles, p + [rest[k].name])
        invariant done + PrunedOf(p, rest, excludedPaths) == PrunedOf(p, files, excludedPaths)
        invariant writer == old(writer) + done
        invariant writtenFiles == old(writtenFiles) + Written(done)
        decreases |rest|
      {
        var f := rest[0];
        assert f == files[|files| - |rest|];
        ghost var before, added := writtenFiles, Pruned(p + [f.name], f.tree, excludedPaths);
        AddToArchive(p + [f.name], f.tree);
        forall k | 1 <= k < |rest| ensures Untouched(writtenFiles, p + [rest[k].name]) {
          SiblingsUntouched(p, f, rest[k].name, before, excludedPaths);
        }
        WrittenAppend(done, added);
        assert PrunedOf(p, rest, excludedPaths) == added + PrunedOf(p, rest[1..], excludedPaths);
        done := done + added;
        rest := rest[1..];
      }
      assert done + [] == done;
    }

    method TarFile(p: Path, t: Tree)
      requires !t.Dir? && !Excluded(CleanText(p), excludedPaths)
      modifies this
      ensures writer == old(writer) + Pruned(p, t, excludedPaths)
      ensures writtenFiles == old(writtenFiles) + Written(Pruned(p, t, excludedPaths))
    {
      var kind := match t case Symlink(target) => Link(target) case File(content) => Regular(content);
      WrittenOne(TarEntry(p, kind));
      writer := writer + [TarEntry(p, kind)];
      writtenFiles := writtenFiles + {p};
    }
  }

  // ---- pruning is exact ----

  lemma FilterCons(e: TarEntry, es: seq<TarEntry>, excludedPaths: seq<string>)
    ensures Filter([e] + es, excludedPaths)
            == (if Passes(e, excludedPaths) then [e] else []) + Filter(es, excludedPaths)
  {
    assert ([e] + es)[1..] == es;
  }

  lemma {:induction false} FilterAppend(a: seq<TarEntry>, b: seq<TarEntry>, excludedPaths: seq<string>)
    ensures Filter(a + b, excludedPaths) == Filter(a, excludedPaths) + Filter(b, excludedPaths)
  {
    if a == [] {
      assert a + b == b;
    } else {
      FilterAppend(a[1..], b, excludedPaths);
      FilterStep(a[0], a[1..], b, excludedPaths);
      assert a == [a[0]] + a[1..];
    }
  }

  lemma FilterStep(e: TarEntry, a: seq<TarEntry>, b: seq<TarEntry>, excludedPaths: seq<string>)
    requires Filter(a + b, excludedPaths) == Filter(a, excludedPaths) + Filter(b, excludedPaths)
    ensures Filter([e] + a + b, excludedPaths) == Filter([e] + a, excludedPaths) + Filter(b, excludedPaths)
  {
    hide Filter, Passes;
    FilterCons(e, a, excludedPaths);
    FilterCons(e, a + b, excludedPaths);
    assert [e] + (a + b) == [e] + a + b;
  }

  lemma {:induction false} FilterNone(es: seq<TarEntry>, excludedPaths: seq<string>)
    requires forall k :: 0 <= k < |es| ==> !Passes(es[k], excludedPaths)
    ensures Filter(es, excludedPaths) == []
  {
    if es != [] {
      FilterNone(es[1..], excludedPaths);
    }
  }

  lemma {:induction false} LeavesBelow(p: Path, t: Tree)
    ensures forall k :: 0 <= k < |Leaves(p, t)| ==> p <= Leaves(p, t)[k].path
    ensures t.Dir? ==> forall k :: 0 <= k < |Leaves(p, t)| ==>
              p < Leaves(p, t)[k].path || Leaves(p, t)[k].kind.Directory?
    decreases t, 1
  {
    if t.Dir? {
      LeavesOfBelow(p, t.entries);
    }
  }

  lemma {:induction false} LeavesOfBelow(p: Path, es: seq<Entry>)
    ensures forall k :: 0 <= k < |LeavesOf(p, es)| ==> p < LeavesOf(p, es)[k].path
    decreases es, 0
  {
    if es != [] {
      LeavesBelow(p + [es[0].name], es[0].tree);
      LeavesOfBelow(p, es[1..]);
    }
  }

  /** Everything below an excluded directory would fail the test on its own path too. */
  lemma ExcludedBelow(p: Path, e: TarEntry, excludedPaths: seq<string>)
    requires p != [] && Excluded(CleanText(p) + "/", excludedPaths)
    requires p < e.path || (p == e.path && e.kind.Directory?)
    ensures !Passes(e, excludedPaths)
  {
    var k :| 0 <= k < |excludedPaths| && excludedPaths[k] <= CleanText(p) + "/";
    if p < e.path {
      BelowHasPrefix(p, e.path);
    }
    assert excludedPaths[k] <= CleanText(e.path) + (if e.kind.Directory? then "/" else "");
  }

  lemma {:induction false} PrunedIsFilter(p: Path, t: Tree, excludedPaths: seq<string>)
    requires p != [] || (t.Dir? && !Excluded("./", excludedPaths))
    ensures Pruned(p, t, excludedPaths) == Filter(Leaves(p, t), excludedPaths)
    decreases t, 1
  {
    if t.Dir? {
      if Excluded(CleanText(p) + "/", excludedPaths) {
        LeavesBelow(p, t);
        forall k | 0 <= k < |Leaves(p, t)| ensures !Passes(Leaves(p, t)[k], excludedPaths) {
          ExcludedBelow(p, Leaves(p, t)[k], excludedPaths);
        }
        FilterNone(Leaves(p, t), excludedPaths);
      } else if t.entries != [] {
        PrunedOfIsFilter(p, t.entries, excludedPaths);
      }
    }
  }

  lemma {:induction false} PrunedOfIsFilter(p: Path, es: seq<Entry>, excludedPaths: seq<string>)
    ensures PrunedOf(p, es, excludedPaths) == Filter(LeavesOf(p, es), excludedPaths)
    decreases es, 0
  {
    if es != [] {
      PrunedIsFilter(p + [es[0].name], es[0].tree, excludedPaths);
      PrunedOfIsFilter(p, es[1..], excludedPaths);
      FilterAppend(Leaves(p + [es[0].name], es[0].tree), LeavesOf(p, es[1..]), excludedPaths);
    }
  }

  /**
   The walk over a whole folder writes exactly the leaves that pass the test on their own path, if
   and only if the root itself is not excluded (as it is by "." or "./") or no leaf passes anyway.
   */
  lemma PruningExact(t: Tree, excludedPaths: seq<string>)
    requires t.Dir?
    ensures Pruned([], t, excludedPaths) == Filter(Leaves([], t), excludedPaths)
            <==> (!Excluded("./", excludedPaths) || Filter(Leaves([], t), excludedPaths) == [])
    ensures Excluded("./", excludedPaths) <==>
            "" in excludedPaths || "." in excludedPaths || "./" in excludedPaths
  {
    if !Excluded("./", excludedPaths) {
      PrunedIsFilter([], t, excludedPaths);
    }
    RootExcluded(excludedPaths);
  }

  lemma RootExcluded(excludedPaths: seq<string>)
    ensures Excluded("./", excludedPaths) <==>
            "" in excludedPaths || "." in excludedPaths || "./" in excludedPaths
  {
    forall k | 0 <= k < |excludedPaths|
      ensures excludedPaths[k] <= "./" <==>
              excludedPaths[k] == "" || excludedPaths[k] == "." || excludedPaths[k] == "./"
    {
      if excludedPaths[k] <= "./" {
        assert excludedPaths[k] == "./"[..|excludedPaths[k]|];
      }
    }
  }

  /** No leaf is written twice. */
  lemma {:induction false} LeavesDistinct(p: Path, t: Tree)
    requires WellNamed(t)
    ensures forall j, k :: 0 <= j < k < |Leaves(p, t)| ==> Leaves(p, t)[j].path != Leaves(p, t)[k].path
    decreases t, 1
  {
    if t.Dir? {
      LeavesOfDistinct(p, t.entries);
    }
  }

  lemma {:induction false} LeavesOfNamed(p: Path, es: seq<Entry>, k: nat)
    requires k < |LeavesOf(p, es)|
    ensures exists i :: 0 <= i < |es| && p + [es[i].name] <= LeavesOf(p, es)[k].path
    decreases |es|
  {
    var first := Leaves(p + [es[0].name], es[0].tree);
    LeavesBelow(p + [es[0].name], es[0].tree);
    if k < |first| {
      assert LeavesOf(p, es)[k] == first[k];
    } else {
      LeavesOfNamed(p, es[1..], k - |first|);
      var i :| 0 <= i < |es[1..]| && p + [es[1..][i].name] <= LeavesOf(p, es[1..])[k - |first|].path;
      assert es[1..][i] == es[i + 1];
    }
  }

  lemma {:induction false} LeavesOfDistinct(p: Path, es: seq<Entry>)
    requires WellNamedEntries(es)
    ensures forall j, k :: 0 <= j < k < |LeavesOf(p, es)| ==> LeavesOf(p, es)[j].path != LeavesOf(p, es)[k].path
    decreases es, 0
  {
    if es != [] {
      var first, rest := Leaves(p + [es[0].name], es[0].tree), LeavesOf(p, es[1..]);
      LeavesDistinct(p + [es[0].name], es[0].tree);
      LeavesBelow(p + [es[0].name], es[0].tree);
      LeavesOfDistinct(p, es[1..]);
      forall j, k | 0 <= j < |first| && 0 <= k < |rest| ensures first[j].path != rest[k].path {
        LeavesOfNamed(p, es[1..], k);
        var i :| 0 <= i < |es[1..]| && p + [es[1..][i].name] <= rest[k].path;
        assert rest[k].path[|p|] == (p + [es[1..][i].name])[|p|] == es[i + 1].name;
        assert first[j].path[|p|] == (p + [es[0].name])[|p|] == es[0].name;
      }
    }
  }

  // ---- folders excluded ----

  lemma {:induction false} LeavesOrdinary(p: Path, t: Tree)
    requires OrdinaryPath(p) && WellNamed(t)
    ensures forall k :: 0 <= k < |Leaves(p, t)| ==> OrdinaryPath(Leaves(p, t)[k].path)
    decreases t, 1
  {
    if t.Dir? {
      LeavesOfOrdinary(p, t.entries);
    }
  }

  lemma {:induction false} LeavesOfOrdinary(p: Path, es: seq<Entry>)
    requires OrdinaryPath(p) && WellNamedEntries(es)
    ensures forall k :: 0 <= k < |LeavesOf(p, es)| ==> OrdinaryPath(LeavesOf(p, es)[k].path)
    decreases es, 0
  {
    if es != [] {
      LeavesOrdinary(p + [es[0].name], es[0].tree);
      LeavesOfOrdinary(p, es[1..]);
    }
  }

  lemma {:induction false} FilterIff(es: seq<TarEntry>, excludedPaths: seq<string>, e: TarEntry)
    ensures e in Filter(es, excludedPaths) <==> e in es && Passes(e, excludedPaths)
  {
    hide Passes;
    if es != [] {
      FilterIff(es[1..], excludedPaths, e);
      assert es == [es[0]] + es[1..];
    }
  }

  /** A folder's text with a slash begins the text of a path exactly if the path lies in the folder. */
  lemma PrefixIff(d: Path, q: Path, directory: bool)
    requires OrdinaryPath(d) && OrdinaryPath(q) && d != [] && q != []
    ensures PathText(d) + "/" <= PathText(q) + (if directory then "/" else "") <==> d < q || (d == q && directory)
  {
    hide Join, Split;
    var text, folder := PathText(q) + (if directory then "/" else ""), PathText(d) + "/";
    if d < q {
      BelowHasPrefix(d, q);
    }
    if folder <= text {
      var rest := text[|folder|..];
      assert text == PathText(d) + ['/'] + rest;
      SplitAppend(PathText(d), rest, '/');
      SplitJoin(d, '/');
      SplitJoin(q, '/');
      if directory {
        assert text == PathText(q) + ['/'] + "";
        SplitAppend(PathText(q), "", '/');
        SplitPart("", "", '/');
        assert q + [""] == d + Split(rest, '/');
        assert d == (q + [""])[..|d|] == q[..|d|];
      } else {
        assert text == PathText(q);
        assert q == d + Split(rest, '/');
      }
    }
  }

  function Slashed(folders: seq<Path>): seq<string> {
    seq(|folders|, i requires 0 <= i < |folders| => PathText(folders[i]) + "/")
  }

  /** An entry that is one of the folders or lies in one. */
  predicate Within(folders: seq<Path>, e: TarEntry) {
    exists i :: 0 <= i < |folders| && (folders[i] < e.path || (folders[i] == e.path && e.kind.Directory?))
  }

  lemma PassesIff(folders: seq<Path>, e: TarEntry)
    requires OrdinaryPath(e.path) && e.path != []
    requires forall i :: 0 <= i < |folders| ==> folders[i] != [] && OrdinaryPath(folders[i])
    ensures Passes(e, Slashed(folders)) <==> !Within(folders, e)
  {
    hide PathText, OrdinaryPath;
    forall i | 0 <= i < |folders| {
      PrefixIff(folders[i], e.path, e.kind.Directory?);
    }
    assert forall i :: 0 <= i < |folders| ==> Slashed(folders)[i] == PathText(folders[i]) + "/";
  }

  /**
   With folders excluded by name and slash, as an export does, the archive holds exactly the files,
   links and empty directories of the tree that lie in none of them.
   */
  lemma FoldersExcluded(t: Tree, folders: seq<Path>, e: TarEntry)
    requires t.Dir? && WellNamed(t)
    requires forall i :: 0 <= i < |folders| ==> folders[i] != [] && OrdinaryPath(folders[i])
    ensures e in Pruned([], t, Slashed(folders)) <==> e in Leaves([], t) && !Within(folders, e)
  {
    hide PathText, Passes, Within, Filter, Pruned, Leaves;
    RootExcluded(Slashed(folders));
    forall i | 0 <= i < |folders|
      ensures Slashed(folders)[i] != "" && Slashed(folders)[i] != "." && Slashed(folders)[i] != "./"
    {
      NotTheRoot(folders[i]);
    }
    PrunedIsFilter([], t, Slashed(folders));
    FilterIff(Leaves([], t), Slashed(folders), e);
    LeavesOrdinary([], t);
    NoRootLeaf(t);
    if e in Leaves([], t) {
      PassesIff(folders, e);
    }
  }

  lemma NotTheRoot(d: Path)
    requires d != [] && OrdinaryPath(d)
    ensures var text := PathText(d) + "/"; text != "" && text != "." && text != "./"
  {
    SplitJoin(d, '/');
    assert Ordinary(d[0]);
    if PathText(d) + "/" == "./" {
      assert PathText(d) == ("./")[..1] == ".";
      SplitPart(".", "", '/');
    }
    assert (PathText(d) + "/")[|PathText(d)|] == '/';
  }

  lemma NoRootLeaf(t: Tree)
    requires t.Dir?
    ensures forall k :: 0 <= k < |Leaves([], t)| ==> Leaves([], t)[k].path != []
  {
    LeavesOfBelow([], t.entries);
  }
}
