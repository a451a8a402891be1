/** The extractor of pkg/extract/extract.go over a file system given as a map from paths. */
module Extract {
  import opened Text
  import opened FileTree
  import opened Archive

  datatype FsNode = FsFile(content: string) | FsLink(target: string) | FsDir

  /** Absolute paths to what is there; the root is always a directory. */
  type Fs = map<Path, FsNode>

  // ---- where an entry goes ----

  function ReplaceChar(s: string, c: char, other: char): string {
    if s == "" then "" else [if s[0] == c then other else s[0]] + ReplaceChar(s[1..], c, other)
  }

  /** `strings.ReplaceAll(s, "//", "/")` */
  function CollapseSlashes(s: string): string {
    if |s| >= 2 && s[0] == '/' && s[1] == '/' then "/" + CollapseSlashes(s[2..])
    else if s == "" then "" else [s[0]] + CollapseSlashes(s[1..])
  }

  function TrimPrefix(s: string, prefix: string): string {
    if prefix <= s then s[|prefix|..] else s
  }

  function RelativeFromFullPath(fullpath: string): string {
    TrimPrefix(CollapseSlashes(ReplaceChar(fullpath, '\\', '/')), ".")
  }

  /** Index of the first slash, or the length if there is none. */
  function IndexSlash(s: string): (i: nat)
    ensures i <= |s|
  {
    if s == "" || s[0] == '/' then 0 else 1 + IndexSlash(s[1..])
  }

  function Stripped(relativePath: string, levels: nat): string {
    if levels == 0 then relativePath
    else
      var s := TrimPrefix(relativePath, "/");
      var i := IndexSlash(s);
      if i == |s| then s else Stripped(s[i + 1..], levels - 1)
  }

  /** The loop of extractNext that strips leading folders. */
  method Strip(relativePath: string, levels: nat) returns (r: string)
    ensures r == if levels == 0 then relativePath else "/" + Stripped(relativePath, levels)
  {
    r := relativePath;
    if levels > 0 {
      for i := 0 to levels
        invariant Stripped(r, levels - i) == Stripped(relativePath, levels)
      {
        r := TrimPrefix(r, "/");
        var index := IndexSlash(r);
        if index == |r| {
          break;
        }
        r := r[index + 1..];
      }
      r := "/" + r;
    }
  }

  function Resolve(base: Path, parts: seq<string>): Path
    decreases |parts|
  {
    if parts == [] then base
    else if parts[0] == "" || parts[0] == "." then Resolve(base, parts[1..])
    else if parts[0] == ".." then Resolve(if base == [] then [] else base[..|base| - 1], parts[1..])
    else Resolve(base + [parts[0]], parts[1..])
  }

  /** `path.Join(destFolder, relativePath)` */
  function OutPath(dest: Path, name: string, levels: nat): Path {
    var rel := RelativeFromFullPath("/" + name);
    Resolve(dest, Split(if levels == 0 then rel else "/" + Stripped(rel, levels), '/'))
  }

  // ---- what an entry does ----

  function Ancestors(p: Path): set<Path> {
    set k | 0 <= k <= |p| :: p[..k]
  }

  function DirsTo(p: Path): Fs {
    map q | q in Ancestors(p) :: FsDir
  }

  predicate DirsFree(fs: Fs, p: Path) {
    forall q :: q in fs && q <= p ==> fs[q].FsDir?
  }

  /** `os.MkdirAll`; fails on something that is not a directory. */
  function MkdirAll(fs: Fs, p: Path): Option<Fs> {
    if DirsFree(fs, p) then Some(fs + DirsTo(p)) else None
  }

  function DirName(p: Path): Path {
    if p == [] then [] else p[..|p| - 1]
  }

  /** One entry put at `out`, or None where the source returns an error. */
  function Place(fs: Fs, out: Path, kind: Kind): Option<Fs> {
    match MkdirAll(fs, DirName(out))
    case None => None
    case Some(fs) =>
      match kind
      case Directory => MkdirAll(fs, out)
      case Link(target) => if out in fs then None else Some(fs[out := FsLink(target)])
      case Regular(content) =>
        if out in fs && !fs[out].FsFile? then None else Some(fs[out := FsFile(content)])
  }

  function ExtractAll(fs: Fs, dest: Path, entries: seq<TarEntry>, levels: nat): Option<Fs>
    decreases |entries|
  {
    if entries == [] then Some(fs)
    else
      match Place(fs, OutPath(dest, PathText(entries[0].path), levels), entries[0].kind)
      case None => None
      case Some(fs) => ExtractAll(fs, dest, entries[1..], levels)
  }

  class Extractor {
    var fs: Fs

    constructor (fs: Fs)
      ensures this.fs == fs
    {
      this.fs := fs;
    }

    /** extractNext on a header that was read. */
    method ExtractNext(header: TarEntry, dest: Path, levels: nat) returns (ok: bool)
      modifies this
      ensures ok == Place(old(fs), OutPath(dest, PathText(header.path), levels), header.kind).Some?
      ensures ok ==> Some(fs) == Place(old(fs), OutPath(dest, PathText(header.path), levels), header.kind)
    {
      var relativePath := Strip(RelativeFromFullPath("/" + PathText(header.path)), levels);
      var out := Resolve(dest, Split(relativePath, '/'));
      var made := MkdirAll(fs, DirName(out));
      if made.None? {
        return false;
      }
      fs := made.value;
      match header.kind {
        case Directory =>
          made := MkdirAll(fs, out);
          if made.None? {
            return false;
          }
          fs := made.value;
        case Link(target) =>
          if out in fs {
            return false;
          }
          fs := fs[out := FsLink(target)];
        case Regular(content) =>
          if out in fs && !fs[out].FsFile? {
            return false;
          }
          fs := fs[out := FsFile(content)];
      }
      return true;
    }

    /** The loop of Extract over the headers of the stream. */
    method Extract(entries: seq<TarEntry>, dest: Path, levels: nat) returns (ok: bool)
      modifies this
      ensures ok == ExtractAll(old(fs), dest, entries, levels).Some?
      ensures ok ==> Some(fs) == ExtractAll(old(fs), dest, entries, levels)
    {
      var k := 0;
      while k < |entries|
        invariant 0 <= k <= |entries|
        invariant ExtractAll(fs, dest, entries[k..], levels) == ExtractAll(old(fs), dest, entries, levels)
      {
        assert entries[k..][1..] == entries[k + 1..];
        var placed := ExtractNext(entries[k], dest, levels);
        if !placed {
          return false;
        }
        k := k + 1;
      }
      return true;
    }
  }

  // ---- ordinary names survive the trip through the header ----

  lemma {:induction false} ReplaceAbsent(s: string, c: char, other: char)
    requires c !in s
    ensures ReplaceChar(s, c, other) == s
  {
    if s != "" {
      ReplaceAbsent(s[1..], c, other);
    }
  }

  predicate NoDoubleSlash(s: string) {
    forall i :: 0 <= i < |s| - 1 ==> !(s[i] == '/' && s[i + 1] == '/')
  }

  lemma {:induction false} CollapseAbsent(s: string)
    requires NoDoubleSlash(s)
    ensures CollapseSlashes(s) == s
  {
    if s != "" {
      forall i | 0 <= i < |s[1..]| - 1 ensures !(s[1..][i] == '/' && s[1..][i + 1] == '/') {
        assert s[1..][i] == s[i + 1] && s[1..][i + 1] == s[i + 1 + 1];
      }
      CollapseAbsent(s[1..]);
    }
  }

  lemma {:induction false} PathTextClean(p: Path)
    requires OrdinaryPath(p) && p != []
    ensures '\\' !in PathText(p) && PathText(p) != "" && PathText(p)[0] != '/'
    ensures NoDoubleSlash(PathText(p))
  {
    if |p| > 1 {
      PathTextClean(p[1..]);
      var rest := PathText(p[1..]);
      assert PathText(p) == p[0] + "/" + rest;
      forall i | 0 <= i < |PathText(p)| - 1
        ensures !(PathText(p)[i] == '/' && PathText(p)[i + 1] == '/')
      {
        if i > |p[0]| {
          assert PathText(p)[i] == rest[i - |p[0]| - 1] && PathText(p)[i + 1] == rest[i - |p[0]|];
        }
      }
    }
  }

  lemma FullPathClean(p: Path)
    requires OrdinaryPath(p) && p != []
    ensures RelativeFromFullPath("/" + PathText(p)) == "/" + PathText(p)
  {
    var s := "/" + PathText(p);
    PathTextClean(p);
    ReplaceAbsent(s, '\\', '/');
    forall i | 0 <= i < |s| - 1 ensures !(s[i] == '/' && s[i + 1] == '/') {
      if i > 0 {
        assert s[i] == PathText(p)[i - 1] && s[i + 1] == PathText(p)[i];
      }
    }
    CollapseAbsent(s);
  }

  lemma {:induction false} ResolveOrdinary(base: Path, p: Path)
    requires OrdinaryPath(p)
    ensures Resolve(base, p) == base + p
    decreases |p|
  {
    if p != [] {
      ResolveOrdinary(base + [p[0]], p[1..]);
    }
  }

  lemma ResolveText(dest: Path, p: Path)
    requires OrdinaryPath(p) && p != []
    ensures Resolve(dest, Split("/" + PathText(p), '/')) == dest + p
  {
    SplitPart("", PathText(p), '/');
    assert "" + ['/'] + PathText(p) == "/" + PathText(p);
    SplitJoin(p, '/');
    assert ([""] + p)[1..] == p;
    ResolveOrdinary(dest, p);
  }

  lemma OutPathExact(dest: Path, p: Path)
    requires OrdinaryPath(p) && p != []
    ensures OutPath(dest, PathText(p), 0) == dest + p
  {
    FullPathClean(p);
    ResolveText(dest, p);
  }

  // ---- stripping levels ----

  lemma {:induction false} IndexOfPart(a: string, b: string)
    requires '/' !in a
    ensures IndexSlash(a + "/" + b) == |a|
    ensures IndexSlash(a) == |a|
  {
    if a != "" {
      assert (a + "/" + b)[1..] == a[1..] + "/" + b;
      IndexOfPart(a[1..], b);
    }
  }

  function Min(a: nat, b: nat): nat {
    if a < b then a else b
  }

  /** One round of stripping removes one folder, or nothing but a leading slash from a bare name. */
  lemma StrippedOnce(p: Path, levels: nat, s: string)
    requires OrdinaryPath(p) && p != [] && levels > 0
    requires s == PathText(p) || s == "/" + PathText(p)
    ensures Stripped(s, levels)
            == if |p| == 1 then PathText(p) else Stripped(PathText(p[1..]), levels - 1)
  {
    PathTextClean(p);
    var text := PathText(p);
    assert TrimPrefix(s, "/") == text;
    if |p| == 1 {
      IndexOfPart(p[0], "");
    } else {
      var rest := PathText(p[1..]);
      assert text == p[0] + "/" + rest;
      IndexOfPart(p[0], rest);
      assert text[|p[0]| + 1..] == rest;
    }
  }

  lemma {:induction false} StrippedText(p: Path, k: nat, levels: nat)
    requires OrdinaryPath(p) && k < |p|
    ensures Stripped(PathText(p[k..]), levels) == PathText(p[Min(k + levels, |p| - 1)..])
    decreases |p| - k
  {
    if levels > 0 {
      StrippedOnce(p[k..], levels, PathText(p[k..]));
      if k + 1 < |p| {
        assert p[k..][1..] == p[k + 1..];
        StrippedText(p, k + 1, levels - 1);
      }
    }
  }

  /** Stripping drops the leading folders, as many as there are, and never the file name. */
  lemma StripKeepsName(dest: Path, p: Path, levels: nat)
    requires OrdinaryPath(p) && p != []
    ensures OutPath(dest, PathText(p), levels) == dest + p[Min(levels, |p| - 1)..]
  {
    FullPathClean(p);
    assert p[0..] == p;
    if levels > 0 {
      StrippedOnce(p, levels, "/" + PathText(p));
      StrippedOnce(p, levels, PathText(p));
      StrippedText(p, 0, levels);
    }
    ResolveText(dest, p[Min(levels, |p| - 1)..]);
  }

  // ---- extracting an archive gives back the tree ----

  /** The tree as it lies in a file system below a path. */
  function Flatten(p: Path, t: Tree): Fs
    decreases t, 1
  {
    match t
    case File(content) => map[p := FsFile(content)]
    case Symlink(target) => map[p := FsLink(target)]
    case Dir(es) => map[p := FsDir] + FlattenEntries(p, es)
  }

  function FlattenEntries(p: Path, es: seq<Entry>): Fs
    decreases es, 0
  {
    if es == [] then map[]
    else Flatten(p + [es[0].name], es[0].tree) + FlattenEntries(p, es[1..])
  }

  lemma {:induction false} FlattenKeys(p: Path, t: Tree)
    ensures forall q :: q in Flatten(p, t) ==> p <= q
    decreases t, 1
  {
    if t.Dir? {
      FlattenEntriesKeys(p, t.entries);
    }
  }

  lemma {:induction false} FlattenEntriesKeys(p: Path, es: seq<Entry>)
    ensures forall q :: q in FlattenEntries(p, es) ==>
              p < q && exists k :: 0 <= k < |es| && es[k].name == q[|p|]
    decreases es, 0
  {
    if es != [] {
      var name := es[0].name;
      FlattenKeys(p + [name], es[0].tree);
      FlattenEntriesKeys(p, es[1..]);
      forall q | q in FlattenEntries(p, es)
        ensures p < q && exists k :: 0 <= k < |es| && es[k].name == q[|p|]
      {
        if q in FlattenEntries(p, es[1..]) {
          var k :| 0 <= k < |es[1..]| && es[1..][k].name == q[|p|];
          assert es[k + 1].name == q[|p|];
        } else {
          assert q in Flatten(p + [name], es[0].tree);
          assert p + [name] <= q;
          assert q[|p|] == (p + [name])[|p|] == es[0].name;
        }
      }
    }
  }

  /** Nothing is there at or below a path. */
  predicate Vacant(fs: Fs, p: Path) {
    forall q :: q in fs ==> !(p <= q)
  }

  lemma {:induction false} ExtractAppend(fs: Fs, dest: Path, a: seq<TarEntry>, b: seq<TarEntry>)
    ensures ExtractAll(fs, dest, a + b, 0)
            == match ExtractAll(fs, dest, a, 0)
               case None => None
               case Some(fs') => ExtractAll(fs', dest, b, 0)
    decreases |a|
  {
    if a == [] {
      assert a + b == b;
    } else {
      assert (a + b)[0] == a[0] && (a + b)[1..] == a[1..] + b;
      match Place(fs, OutPath(dest, PathText(a[0].path), 0), a[0].kind)
      case None =>
      case Some(fs') => ExtractAppend(fs', dest, a[1..], b);
    }
  }

  lemma ExtractOne(fs: Fs, dest: Path, e: TarEntry)
    ensures ExtractAll(fs, dest, [e], 0) == Place(fs, OutPath(dest, PathText(e.path), 0), e.kind)
  {
    assert [e][1..] == [];
    match Place(fs, OutPath(dest, PathText(e.path), 0), e.kind)
    case None =>
    case Some(fs') => assert ExtractAll(fs', dest, [], 0) == Some(fs');
  }

  lemma AncestorsOf(p: Path)
    ensures forall q :: q in Ancestors(p) <==> q <= p
  {
    forall q | q <= p ensures q in Ancestors(p) {
      assert q == p[..|q|];
    }
  }

  lemma AncestorsSnoc(out: Path)
    requires out != []
    ensures Ancestors(out) == Ancestors(DirName(out)) + {out}
  {
    AncestorsOf(out);
    AncestorsOf(DirName(out));
    forall q | q in Ancestors(out) && q != out ensures q in Ancestors(DirName(out)) {
      assert q == DirName(out)[..|q|];
    }
    forall q | q in Ancestors(DirName(out)) ensures q in Ancestors(out) {
      assert q == out[..|q|];
    }
  }

  lemma DirsToSnoc(out: Path)
    requires out != []
    ensures DirsTo(out) == DirsTo(DirName(out)) + map[out := FsDir]
  {
    AncestorsSnoc(out);
  }

  function NodeOf(kind: Kind): FsNode {
    match kind
    case Directory => FsDir
    case Link(target) => FsLink(target)
    case Regular(content) => FsFile(content)
  }

  /** One leaf into a vacant place. */
  lemma PlaceVacant(fs: Fs, out: Path, kind: Kind)
    requires out != [] && Vacant(fs, out) && DirsFree(fs, DirName(out))
    ensures Place(fs, out, kind) == Some(fs + DirsTo(DirName(out)) + map[out := NodeOf(kind)])
  {
    var fs1 := fs + DirsTo(DirName(out));
    AncestorsOf(DirName(out));
    assert out !in fs1;
    if kind.Directory? {
      DirsToSnoc(out);
      assert DirsFree(fs1, out);
      assert fs1 + DirsTo(out) == fs1 + map[out := FsDir];
    } else {
      assert fs1[out := NodeOf(kind)] == fs1 + map[out := NodeOf(kind)];
    }
  }

  /** When an entry can be put at `out`. */
  lemma PlaceIff(fs: Fs, out: Path, kind: Kind)
    ensures Place(fs, out, kind).Some? <==>
            && (forall q :: q in fs && q <= out && q != out ==> fs[q].FsDir?)
            && match kind {
                 case Directory => out in fs ==> fs[out].FsDir?
                 case Link(_) => out != [] && out !in fs
                 case Regular(_) => out != [] && (out in fs ==> fs[out].FsFile?)
               }
  {
    var fs1 := fs + DirsTo(DirName(out));
    AncestorsOf(DirName(out));
    assert forall q :: q in fs && q <= out && q != out ==> q <= DirName(out);
    assert forall q :: q in fs && q <= DirName(out) && out != [] ==> q <= out && q != out;
  }

  /** What stands at every path after an entry was put at `out`. */
  lemma PlaceAt(fs: Fs, out: Path, kind: Kind, q: Path)
    requires Place(fs, out, kind).Some?
    ensures var after := Place(fs, out, kind).value;
            if q == out then
              q in after && match kind {
                case Directory => after[q] == FsDir
                case Link(target) => after[q] == FsLink(target)
                case Regular(content) => after[q] == FsFile(content)
              }
            else if q <= out then
              q in after && after[q] == FsDir
            else
              (q in after <==> q in fs) && (q in fs ==> after[q] == fs[q])
  {
    AncestorsOf(DirName(out));
    AncestorsOf(out);
    assert q <= out && q != out ==> q <= DirName(out);
  }

  /** A file's second entry replaces its content and nothing else. */
  lemma LaterContentWins(fs: Fs, out: Path, content: string, later: string)
    requires Place(fs, out, Regular(content)).Some?
    ensures var after := Place(fs, out, Regular(content)).value;
            Place(after, out, Regular(later)) == Some(after[out := FsFile(later)])
  {
    AncestorsOf(DirName(out));
    var after := Place(fs, out, Regular(content)).value;
    assert after + DirsTo(DirName(out)) == after;
  }

  lemma MergeDir(fs: Fs, dirs: Fs, out: Path, rest: Fs)
    ensures fs + (dirs + map[out := FsDir]) + rest == fs + dirs + (map[out := FsDir] + rest)
  {
  }

  lemma MergeTwice(fs: Fs, dirs: Fs, tree: Fs, rest: Fs)
    requires tree.Keys !! dirs.Keys
    ensures fs + dirs + tree + dirs + rest == fs + dirs + (tree + rest)
  {
  }

  lemma {:induction false} ExtractTree(fs: Fs, dest: Path, p: Path, t: Tree)
    requires OrdinaryPath(p) && p != [] && WellNamed(t)
    requires Vacant(fs, dest + p) && DirsFree(fs, DirName(dest + p))
    ensures ExtractAll(fs, dest, Leaves(p, t), 0)
            == Some(fs + DirsTo(DirName(dest + p)) + Flatten(dest + p, t))
    decreases t, 1
  {
    hide ExtractAll, Place, DirsTo, OutPath;
    var out := dest + p;
    if t.Dir? && t.entries != [] {
      VacantDir(fs, out);
      ExtractEntries(fs, dest, p, t.entries);
      DirsToSnoc(out);
      MergeDir(fs, DirsTo(DirName(out)), out, FlattenEntries(out, t.entries));
    } else {
      var e := Leaves(p, t)[0];
      assert Leaves(p, t) == [e];
      ExtractOne(fs, dest, e);
      OutPathExact(dest, p);
      PlaceVacant(fs, out, e.kind);
      assert Flatten(out, t) == map[out := NodeOf(e.kind)];
    }
  }

  lemma VacantDir(fs: Fs, out: Path)
    requires out != [] && Vacant(fs, out) && DirsFree(fs, DirName(out))
    ensures DirsFree(fs, out)
    ensures forall name: string :: Vacant(fs, out + [name])
  {
    forall q | q in fs && q <= out ensures fs[q].FsDir? {
      assert q == DirName(out)[..|q|];
    }
  }

  lemma {:induction false} ExtractEntries(fs: Fs, dest: Path, p: Path, es: seq<Entry>)
    requires OrdinaryPath(p) && WellNamedEntries(es) && es != []
    requires DirsFree(fs, dest + p)
    requires forall k :: 0 <= k < |es| ==> Vacant(fs, dest + p + [es[k].name])
    ensures ExtractAll(fs, dest, LeavesOf(p, es), 0)
            == Some(fs + DirsTo(dest + p) + FlattenEntries(dest + p, es))
    decreases es, 0
  {
    hide ExtractAll, Place, DirsTo, OutPath, Vacant, Flatten, Leaves, DirsFree;
    var out, first := dest + p, p + [es[0].name];
    assert dest + first == out + [es[0].name] && DirName(dest + first) == out;
    ExtractTree(fs, dest, first, es[0].tree);
    ExtractAppend(fs, dest, Leaves(first, es[0].tree), LeavesOf(p, es[1..]));
    var tree := Flatten(dest + first, es[0].tree);
    var fs1 := fs + DirsTo(out) + tree;
    if es[1..] == [] {
      assert LeavesOf(p, es[1..]) == [];
      ExtractNothing(fs1, dest);
      assert FlattenEntries(out, es[1..]) == map[];
      assert FlattenEntries(out, es) == tree + map[] == tree;
    } else {
      StillFree(fs, out, es[0]);
      forall k | 0 <= k < |es[1..]| ensures Vacant(fs1, out + [es[1..][k].name]) {
        assert es[1..][k] == es[k + 1];
        SiblingVacant(fs, out, es[0], es[1..][k].name);
      }
      ExtractEntries(fs1, dest, p, es[1..]);
      MergeTwice(fs, DirsTo(out), tree, FlattenEntries(out, es[1..]));
    }
  }

  lemma ExtractNothing(fs: Fs, dest: Path)
    ensures ExtractAll(fs, dest, [], 0) == Some(fs)
  {
  }

  /** A tree placed below a directory leaves the way to the directory free. */
  lemma StillFree(fs: Fs, out: Path, e: Entry)
    requires DirsFree(fs, out)
    ensures Flatten(out + [e.name], e.tree).Keys !! DirsTo(out).Keys
    ensures DirsFree(fs + DirsTo(out) + Flatten(out + [e.name], e.tree), out)
  {
    FlattenKeys(out + [e.name], e.tree);
    AncestorsOf(out);
  }

  lemma SiblingVacant(fs: Fs, out: Path, e: Entry, name: string)
    requires name != e.name && Vacant(fs, out + [name])
    ensures Vacant(fs + DirsTo(out) + Flatten(out + [e.name], e.tree), out + [name])
  {
    FlattenKeys(out + [e.name], e.tree);
    AncestorsOf(out);
    forall q | q in Flatten(out + [e.name], e.tree) ensures !(out + [name] <= q) {
      assert q[|out|] == (out + [e.name])[|out|] == e.name;
    }
  }

  /**
   Round trip: archiving a folder with nothing excluded and extracting the archive into an empty
   folder rebuilds the folder below it, empty directories included, and changes nothing else.
   */
  lemma RoundTrip(t: Tree, fs: Fs, dest: Path)
    requires t.Dir? && WellNamed(t)
    requires dest in fs && DirsFree(fs, dest)
    requires forall q :: q in fs ==> !(dest < q)
    requires forall q :: q <= dest ==> q in fs
    ensures ExtractAll(fs, dest, Pruned([], t, []), 0) == Some(fs + Flatten(dest, t))
  {
    hide ExtractAll, Place, DirsTo, OutPath, Flatten;
    PrunedIsFilter([], t, []);
    FilterAll(Leaves([], t));
    assert dest + [] == dest;
    ExistingDirs(fs, dest);
    FlattenDir(fs, dest, t.entries);
    if t.entries == [] {
      ExtractNothing(fs, dest);
      assert FlattenEntries(dest, t.entries) == map[] && fs + map[] == fs;
    } else {
      ExtractEntries(fs, dest, [], t.entries);
    }
  }

  lemma ExistingDirs(fs: Fs, dest: Path)
    requires DirsFree(fs, dest) && forall q :: q <= dest ==> q in fs
    ensures fs + DirsTo(dest) == fs
  {
    AncestorsOf(dest);
  }

  lemma FlattenDir(fs: Fs, dest: Path, es: seq<Entry>)
    requires dest in fs && fs[dest].FsDir?
    ensures fs + Flatten(dest, Dir(es)) == fs + FlattenEntries(dest, es)
  {
    FlattenEntriesKeys(dest, es);
  }

  lemma {:induction false} FilterAll(es: seq<TarEntry>)
    ensures Filter(es, []) == es
  {
    if es != [] {
      FilterAll(es[1..]);
    }
  }
}
