/** Finite directory trees and the slash-separated paths of their files. */
module FileTree {
  import opened Text

  type Path = seq<string>

  datatype Entry = Entry(name: string, tree: Tree)

  datatype Tree =
    | File(content: string)
    | Symlink(target: string)
    | Dir(entries: seq<Entry>)

  predicate Ordinary(name: string) {
    name != "" && name != "." && name != ".." && '/' !in name && '\\' !in name
  }

  predicate OrdinaryPath(p: Path) {
    forall k :: 0 <= k < |p| ==> Ordinary(p[k])
  }

  /** Every directory's names are ordinary and distinct. */
  predicate WellNamed(t: Tree)
    decreases t, 1
  {
    t.Dir? ==> WellNamedEntries(t.entries)
  }

  predicate WellNamedEntries(es: seq<Entry>)
    decreases es, 0
  {
    es != [] ==>
      && Ordinary(es[0].name) && WellNamed(es[0].tree)
      && (forall k :: 1 <= k < |es| ==> es[k].name != es[0].name)
      && WellNamedEntries(es[1..])
  }

  /** The path as the program writes it, `path.Join` of its components. */
  function PathText(p: Path): string {
    Join(p, "/")
  }

  lemma PathSnoc(p: Path, name: string)
    ensures PathText(p + [name]) == if p == [] then name else PathText(p) + "/" + name
  {
    if p == [] {
      assert p + [name] == [name];
    } else {
      JoinSnoc(p, name, "/");
    }
  }

  /** A directory's text with a slash is a prefix of the text of everything below it. */
  lemma {:induction false} BelowHasPrefix(p: Path, q: Path)
    requires p != [] && p < q
    ensures PathText(p) + "/" <= PathText(q)
  {
    var n := |q| - 1;
    var name, init := q[n], q[..n];
    assert q == init + [name];
    PathSnoc(init, name);
    if p != init {
      assert p < init;
      BelowHasPrefix(p, init);
    }
  }
}
