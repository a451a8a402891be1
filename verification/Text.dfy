/** The parts of Go's `strings` package that the modelled code relies on, and an option type. */
module Text {

  datatype Option<+T> = None | Some(value: T)

  function Map<T, U>(o: Option<T>, f: T -> U): Option<U> {
    if o.Some? then Some(f(o.value)) else None
  }

  /** Reading a Go map: a missing key yields the zero value. */
  function Get(m: map<string, string>, k: string): string {
    if k in m then m[k] else ""
  }

  // ---- letter case (ASCII is enough for the keywords compared in the source) ----

  function LowerChar(c: char): char {
    if 'A' <= c <= 'Z' then (c as int + 32) as char else c
  }

  function ToLower(s: string): string {
    seq(|s|, i requires 0 <= i < |s| => LowerChar(s[i]))
  }

  // ---- trimming ----

  function TrimLeft(s: string, cut: set<char>): string {
    if s != "" && s[0] in cut then TrimLeft(s[1..], cut) else s
  }

  function TrimRight(s: string, cut: set<char>): string {
    if s != "" && s[|s| - 1] in cut then TrimRight(s[..|s| - 1], cut) else s
  }

  function Trim(s: string, cut: set<char>): string {
    TrimRight(TrimLeft(s, cut), cut)
  }

  lemma TrimKeeps(s: string, cut: set<char>)
    requires s != "" && s[0] !in cut && s[|s| - 1] !in cut
    ensures Trim(s, cut) == s
  {
  }

  /** `strings.Trim(s, "\"'")` */
  function Unquote(s: string): string {
    Trim(s, {'"', '\''})
  }

  /** The white space of `unicode.IsSpace`. */
  const SPACES: set<char> := {
    '\t', '\n', '\U{0B}', '\U{0C}', '\r', ' ', '\U{85}', '\U{A0}', '\U{1680}',
    '\U{2000}', '\U{2001}', '\U{2002}', '\U{2003}', '\U{2004}', '\U{2005}', '\U{2006}',
    '\U{2007}', '\U{2008}', '\U{2009}', '\U{200A}', '\U{2028}', '\U{2029}', '\U{202F}',
    '\U{205F}', '\U{3000}'}

  predicate IsSpace(c: char) {
    c in SPACES
  }

  function TrimSpace(s: string): string {
    Trim(s, SPACES)
  }

  // ---- splitting and joining ----

  /** `strings.Split` on a one-character separator: never empty. */
  function Split(s: string, sep: char): (parts: seq<string>)
    ensures |parts| > 0
  {
    if s == "" then [""]
    else
      var rest := Split(s[1..], sep);
      if s[0] == sep then [""] + rest else [[s[0]] + rest[0]] + rest[1..]
  }

  function Join(parts: seq<string>, sep: string): string {
    if |parts| == 0 then ""
    else if |parts| == 1 then parts[0]
    else parts[0] + sep + Join(parts[1..], sep)
  }

  lemma {:induction false} JoinSplit(s: string, sep: char)
    ensures Join(Split(s, sep), [sep]) == s
  {
    if s != "" {
      var rest := Split(s[1..], sep);
      JoinSplit(s[1..], sep);
      if s[0] == sep {
        assert ([""] + rest)[1..] == rest;
        assert s == "" + [sep] + s[1..];
      } else {
        var parts := [[s[0]] + rest[0]] + rest[1..];
        assert parts[1..] == rest[1..];
        assert s == [s[0]] + s[1..];
      }
    }
  }

  lemma {:induction false} SplitPart(a: string, b: string, sep: char)
    requires sep !in a
    ensures Split(a + [sep] + b, sep) == [a] + Split(b, sep)
    ensures Split(a, sep) == [a]
  {
    if a == "" {
      assert a + [sep] + b == [sep] + b;
    } else {
      SplitPart(a[1..], b, sep);
      assert (a + [sep] + b)[1..] == a[1..] + [sep] + b;
      assert [a[0]] + a[1..] == a;
    }
  }

  /** Parts that do not contain the separator survive joining and splitting. */
  lemma {:induction false} SplitJoin(parts: seq<string>, sep: char)
    requires parts != [] && forall k :: 0 <= k < |parts| ==> sep !in parts[k]
    ensures Split(Join(parts, [sep]), sep) == parts
  {
    if |parts| == 1 {
      SplitPart(parts[0], "", sep);
    } else {
      SplitJoin(parts[1..], sep);
      SplitPart(parts[0], Join(parts[1..], [sep]), sep);
    }
  }

  lemma {:induction false} SplitClean(s: string, sep: char)
    ensures forall k :: 0 <= k < |Split(s, sep)| ==> sep !in Split(s, sep)[k]
  {
    if s != "" {
      SplitClean(s[1..], sep);
    }
  }

  /** `path.Base`, which `filepath.Base` is outside Windows. */
  function Base(path: string): string {
    var trimmed := TrimRight(path, {'/'});
    var parts := Split(trimmed, '/');
    if path == "" then "." else if trimmed == "" then "/" else parts[|parts| - 1]
  }

  /** The lines a line scanner yields: an empty last line is not one. */
  function Lines(s: string): seq<string> {
    var parts := Split(s, '\n');
    if parts[|parts| - 1] == "" then parts[..|parts| - 1] else parts
  }

  /** Removing every occurrence of one character, `strings.ReplaceAll(s, c, "")`. */
  function Without(s: string, c: char): string {
    if s == "" then "" else if s[0] == c then Without(s[1..], c) else [s[0]] + Without(s[1..], c)
  }

  /** A path whose last part is not empty has that part as its base. */
  lemma BaseIsLast(s: string, parts: seq<string>)
    requires parts != [] && parts[|parts| - 1] != "" && Split(s, '/') == parts
    ensures Base(s) == parts[|parts| - 1]
  {
    LastChar(s, parts);
    assert TrimRight(s, {'/'}) == s;
  }

  lemma {:induction false} LastChar(s: string, parts: seq<string>)
    requires parts != [] && parts[|parts| - 1] != "" && Split(s, '/') == parts
    ensures s != "" && s[|s| - 1] != '/'
  {
    if |s| > 1 {
      LastChar(s[1..], Split(s[1..], '/'));
    }
  }

  lemma SplitCons(c: char, s: string, sep: char)
    ensures Split([c] + s, sep) == if c == sep then [""] + Split(s, sep)
                                   else [[c] + Split(s, sep)[0]] + Split(s, sep)[1..]
  {
    assert ([c] + s)[1..] == s;
  }

  lemma ConsParts(x: string, parts: seq<string>, more: seq<string>)
    requires parts != []
    ensures [x] + (parts + more)[1..] == [x] + parts[1..] + more
    ensures [x] + (parts + more) == [x] + parts + more
  {
    assert (parts + more)[1..] == parts[1..] + more;
  }

  lemma ConsText(c: char, a: string, sep: char, b: string)
    ensures [c] + (a + [sep] + b) == ([c] + a) + [sep] + b
  {
  }

  lemma {:induction false} SplitAppend(a: string, b: string, sep: char)
    ensures Split(a + [sep] + b, sep) == Split(a, sep) + Split(b, sep)
  {
    hide Split;
    if a == "" {
      SplitPart("", b, sep);
    } else {
      var parts := Split(a[1..], sep);
      SplitAppend(a[1..], b, sep);
      SplitCons(a[0], a[1..], sep);
      SplitCons(a[0], a[1..] + [sep] + b, sep);
      ConsText(a[0], a[1..], sep, b);
      assert [a[0]] + a[1..] == a;
      ConsParts(if a[0] == sep then "" else [a[0]] + parts[0], parts, Split(b, sep));
    }
  }

  lemma BaseOf(dir: string, last: string)
    requires last != "" && '/' !in last
    ensures Base(dir + "/" + last) == last
  {
    SplitAppend(dir, last, '/');
    SplitPart(last, "", '/');
    assert dir + ['/'] + last == dir + "/" + last;
    BaseIsLast(dir + "/" + last, Split(dir, '/') + [last]);
  }

  // ---- what trimming, lowering, cutting and removing do ----

  predicate AllIn(s: string, cut: set<char>) {
    forall k :: 0 <= k < |s| ==> s[k] in cut
  }

  lemma {:induction false} TrimLeftExact(s: string, cut: set<char>) returns (left: string)
    ensures s == left + TrimLeft(s, cut) && AllIn(left, cut)
    ensures TrimLeft(s, cut) != "" ==> TrimLeft(s, cut)[0] !in cut
  {
    if s != "" && s[0] in cut {
      var rest := TrimLeftExact(s[1..], cut);
      left := [s[0]] + rest;
      assert s == [s[0]] + s[1..];
    } else {
      left := "";
    }
  }

  lemma {:induction false} TrimRightExact(s: string, cut: set<char>) returns (right: string)
    ensures s == TrimRight(s, cut) + right && AllIn(right, cut) && TrimRight(s, cut) <= s
    ensures TrimRight(s, cut) != "" ==> TrimRight(s, cut)[|TrimRight(s, cut)| - 1] !in cut
  {
    if s != "" && s[|s| - 1] in cut {
      var rest := TrimRightExact(s[..|s| - 1], cut);
      right := rest + [s[|s| - 1]];
      assert s == s[..|s| - 1] + [s[|s| - 1]];
    } else {
      right := "";
    }
  }

  /** Trimming takes exactly the cut characters off both ends, as many as there are. */
  lemma TrimExact(s: string, cut: set<char>) returns (left: string, right: string)
    ensures s == left + Trim(s, cut) + right && AllIn(left, cut) && AllIn(right, cut)
    ensures Trim(s, cut) != "" ==> Trim(s, cut)[0] !in cut && Trim(s, cut)[|Trim(s, cut)| - 1] !in cut
  {
    left := TrimLeftExact(s, cut);
    right := TrimRightExact(TrimLeft(s, cut), cut);
  }

  lemma {:induction false} TrimAround(left: string, s: string, right: string, cut: set<char>)
    requires s != "" && s[0] !in cut && s[|s| - 1] !in cut && AllIn(left, cut) && AllIn(right, cut)
    ensures Trim(left + s + right, cut) == s
    decreases |left| + |right|
  {
    var all := left + s + right;
    if left != "" {
      TrimAround(left[1..], s, right, cut);
      assert all[1..] == left[1..] + s + right;
    } else if right != "" {
      var n := |right| - 1;
      TrimAround(left, s, right[..n], cut);
      assert all[..|all| - 1] == left + s + right[..n];
      assert TrimLeft(all, cut) == all && TrimLeft(left + s + right[..n], cut) == left + s + right[..n];
    } else {
      assert all == s;
      TrimKeeps(s, cut);
    }
  }

  /** Removing a character keeps the order of all others. */
  /** Quotes of either kind at the ends go, whatever their number; quotes inside stay. */
  lemma UnquoteMeans(left: string, s: string, right: string)
    requires s != "" && s[0] != '"' && s[0] != '\'' && s[|s| - 1] != '"' && s[|s| - 1] != '\''
    requires AllIn(left, {'"', '\''}) && AllIn(right, {'"', '\''})
    ensures Unquote(left + s + right) == s
  {
    TrimAround(left, s, right, {'"', '\''});
  }

  lemma {:induction false} WithoutAppend(a: string, b: string, c: char)
    ensures Without(a + b, c) == Without(a, c) + Without(b, c)
    ensures Without([c], c) == "" && c !in Without(a, c)
    ensures c !in a ==> Without(a, c) == a
  {
    assert [c][1..] == "";
    if a == "" {
      assert a + b == b;
      WithoutClean(b, c);
    } else {
      WithoutAppend(a[1..], b, c);
      assert (a + b)[1..] == a[1..] + b && [a[0]] + a[1..] == a;
    }
  }

  lemma {:induction false} WithoutClean(a: string, c: char)
    ensures c !in Without(a, c)
  {
    if a != "" {
      WithoutClean(a[1..], c);
    }
  }

  /** A text is its lines, each ended by a newline, except that the last may lack it. */
  lemma LinesExact(s: string)
    ensures s == "" ==> Lines(s) == []
    ensures s != "" ==> Lines(s) != [] && (s == Join(Lines(s), "\n") || s == Join(Lines(s), "\n") + "\n")
    ensures s != "" && s[|s| - 1] != '\n' ==> s == Join(Lines(s), "\n")
    ensures forall k :: 0 <= k < |Lines(s)| ==> '\n' !in Lines(s)[k]
  {
    var parts := Split(s, '\n');
    JoinSplit(s, '\n');
    SplitClean(s, '\n');
    var n := |parts| - 1;
    if parts[n] == "" && n > 0 {
      JoinSnoc(parts[..n], "", "\n");
      assert parts[..n] + [""] == parts;
      assert Join(parts[..n], "\n") + "\n" + "" == Join(parts[..n], "\n") + "\n";
    } else if n == 0 {
      assert parts == [parts[0]];
    }
  }

  lemma {:induction false} JoinSnoc(parts: seq<string>, last: string, sep: string)
    requires parts != []
    ensures Join(parts + [last], sep) == Join(parts, sep) + sep + last
  {
    var all := parts + [last];
    assert all[1..] == parts[1..] + [last];
    if |parts| > 1 {
      JoinSnoc(parts[1..], last, sep);
      assert parts[0] + sep + (Join(parts[1..], sep) + sep + last)
          == (parts[0] + sep + Join(parts[1..], sep)) + sep + last;
    }
  }

  /** Lower case differs only where there is an ASCII capital. */
  lemma LowerExact(s: string)
    ensures |ToLower(s)| == |s|
    ensures forall k :: 0 <= k < |s| ==>
              && !('A' <= ToLower(s)[k] <= 'Z')
              && (!('A' <= s[k] <= 'Z') ==> ToLower(s)[k] == s[k])
              && ('A' <= s[k] <= 'Z' ==> ToLower(s)[k] as int - 'a' as int == s[k] as int - 'A' as int)
  {
  }
}
