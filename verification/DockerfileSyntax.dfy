/**
 The Dockerfile as pkg/dockerfile/parse.go sees it: buildkit's linked nodes, the key/value pairs
 read out of ARG, ENV and USER instructions, and the variable references inside a value.
 */
module DockerfileSyntax {
  import opened Text

  /** buildkit's parser.Node; Nil is Go's nil pointer. */
  datatype Node =
    | Nil
    | Node(value: string, flags: seq<string>, comments: seq<string>,
           startLine: nat, endLine: nat, next: Node)

  datatype KeyValue = KeyValue(key: string, value: string, line: nat)

  predicate Is(n: Node, keyword: string) {
    n.Node? && ToLower(n.value) == keyword
  }

  predicate IsFrom(n: Node) { Is(n, "from") }

  predicate IsEnv(n: Node) { Is(n, "env") }

  /** An ARG or USER instruction that has an argument; without one the source dereferences nil. */
  predicate IsArg(n: Node) { Is(n, "arg") && n.next.Node? }

  predicate IsUser(n: Node) { Is(n, "user") && n.next.Node? }

  // ---- reading one instruction ----

  function ParseUser(n: Node): KeyValue
    requires IsUser(n)
  {
    KeyValue(Split(n.next.value, ':')[0], "", n.startLine)
  }

  function ParseArg(n: Node): KeyValue
    requires IsArg(n)
  {
    var arg := n.next;
    if arg.next.Node? then KeyValue(arg.value, arg.next.value, n.startLine)
    else if '=' in arg.value then
      var parts := Split(arg.value, '=');
      KeyValue(parts[0], Join(parts[1..], "="), n.startLine)
    else KeyValue(arg.value, "", n.startLine)
  }

  function EnvPair(key: string, value: string, line: nat): KeyValue {
    KeyValue(TrimSpace(key), Unquote(Without(value, '\\')), line)
  }

  /** The pairs parseEnv reads off a chain of argument nodes, two nodes a pair. */
  function EnvPairs(chain: Node, line: nat): seq<KeyValue> {
    if chain.Nil? || chain.next.Nil? then []
    else [EnvPair(chain.value, chain.next.value, line)] + EnvPairs(chain.next.next, line)
  }

  function ParseEnv(n: Node): seq<KeyValue>
    requires n.Node?
  {
    EnvPairs(n.next, n.startLine)
  }

  /** The loop of parseEnv. */
  method ReadEnv(instruction: Node) returns (envs: seq<KeyValue>)
    requires instruction.Node?
    ensures envs == ParseEnv(instruction)
  {
    envs := [];
    var line := instruction.startLine;
    var node := instruction.next;
    while node.Node?
      invariant envs + EnvPairs(node, line) == ParseEnv(instruction)
      decreases node
    {
      if node.next.Nil? {
        return;
      }
      assert EnvPairs(node, line)
          == [EnvPair(node.value, node.next.value, line)] + EnvPairs(node.next.next, line);
      envs := envs + [EnvPair(node.value, node.next.value, line)];
      node := node.next.next;
    }
  }

  /**
   The argument chain buildkit builds for `ENV k1=v1 k2=v2 ...`: THREE nodes a pair, the third
   holding the separator.
   */
  function EnvChain(pairs: seq<(string, string)>): Node {
    if pairs == [] then Nil
    else Token(pairs[0].0, Token(pairs[0].1, Token("=", EnvChain(pairs[1..]))))
  }

  function Token(value: string, next: Node): Node {
    Node(value, [], [], 0, 0, next)
  }

  function Written(pairs: seq<(string, string)>, line: nat): seq<KeyValue> {
    seq(|pairs|, i requires 0 <= i < |pairs| => EnvPair(pairs[i].0, pairs[i].1, line))
  }

  function ChainLength(chain: Node): nat {
    if chain.Nil? then 0 else 1 + ChainLength(chain.next)
  }

  lemma {:induction false} EnvPairsCount(chain: Node, line: nat)
    ensures |EnvPairs(chain, line)| == ChainLength(chain) / 2
    decreases chain
  {
    if chain.Node? && chain.next.Node? {
      EnvPairsCount(chain.next.next, line);
    }
  }

  lemma {:induction false} EnvChainLength(pairs: seq<(string, string)>)
    ensures ChainLength(EnvChain(pairs)) == 3 * |pairs|
  {
    if pairs != [] {
      EnvChainLength(pairs[1..]);
      var rest := Token("=", EnvChain(pairs[1..]));
      assert ChainLength(rest) == 1 + 3 * |pairs[1..]|;
      assert ChainLength(Token(pairs[0].1, rest)) == 1 + ChainLength(rest);
    }
  }

  /**
   Stepping two nodes at a time over three-node groups reads an ENV instruction back as it was
   written exactly when it sets at most one variable.
   */
  lemma EnvReadAsWritten(pairs: seq<(string, string)>, line: nat)
    ensures EnvPairs(EnvChain(pairs), line) == Written(pairs, line) <==> |pairs| <= 1
  {
    EnvChainLength(pairs);
    EnvPairsCount(EnvChain(pairs), line);
    if |pairs| == 1 {
      var chain := EnvChain(pairs);
      assert EnvChain(pairs[1..]) == Nil;
      assert EnvPairs(chain.next.next, line) == [];
    }
  }

  // ---- variable references ----

  predicate IsNameChar(c: char) {
    'a' <= c <= 'z' || 'A' <= c <= 'Z' || '0' <= c <= '9' || c == '_'
  }

  /** `:-word` or `:+word` behind a variable name. */
  datatype Alternative = Alternative(op: char, word: string)

  datatype Piece =
    | Plain(c: char)
    | Ref(open: bool, name: string, alt: Option<Alternative>, close: bool)

  /** Length of the longest prefix of `s` made of name characters. */
  function NameLength(s: string): (n: nat)
    ensures n <= |s|
  {
    if s != "" && IsNameChar(s[0]) then 1 + NameLength(s[1..]) else 0
  }

  /** Length of the longest prefix of `s` without a closing brace. */
  function WordLength(s: string): (n: nat)
    ensures n <= |s|
  {
    if s != "" && s[0] != '}' then 1 + WordLength(s[1..]) else 0
  }

  function ScanOptional(s: string, c: char): (r: (bool, string))
    ensures |r.1| <= |s|
  {
    if s != "" && s[0] == c then (true, s[1..]) else (false, s)
  }

  function RenderOptional(present: bool, c: char): string {
    if present then [c] else ""
  }

  lemma ScanOptionalExact(s: string, c: char)
    ensures s == RenderOptional(ScanOptional(s, c).0, c) + ScanOptional(s, c).1
  {
  }

  /** The optional group `(:(-|\+)([^\}]+))?` at the start of `s`, and what follows it. */
  function ScanAlternative(s: string): (r: (Option<Alternative>, string))
    ensures |r.1| <= |s|
  {
    var n := if |s| >= 3 && s[0] == ':' && (s[1] == '-' || s[1] == '+')
             then WordLength(s[2..]) else 0;
    if n > 0 then (Some(Alternative(s[1], s[2..2 + n])), s[2 + n..]) else (None, s)
  }

  /** One match of the pattern `\$\{?([a-zA-Z0-9_]+)(:(-|\+)([^\}]+))?\}?` at the start of `s`. */
  function ScanRef(s: string): (r: Option<(Piece, string)>)
    ensures r.Some? ==> r.value.0.Ref? && |r.value.1| < |s|
  {
    if s == "" || s[0] != '$' then None
    else
      var (open, name) := ScanOptional(s[1..], '{');
      var n := NameLength(name);
      if n == 0 then None
      else
        var (alt, rest) := ScanAlternative(name[n..]);
        var (close, tail) := ScanOptional(rest, '}');
        Some((Ref(open, name[..n], alt, close), tail))
  }

  /** A value cut into references and plain characters, left to right. */
  function Scan(s: string): seq<Piece>
    decreases |s|
  {
    if s == "" then []
    else match ScanRef(s)
      case None => [Plain(s[0])] + Scan(s[1..])
      case Some((piece, rest)) => [piece] + Scan(rest)
  }

  function RenderPiece(p: Piece): string {
    match p
    case Plain(c) => [c]
    case Ref(open, name, alt, close) =>
      "$" + RenderOptional(open, '{') + name + RenderAlternative(alt) + RenderOptional(close, '}')
  }

  function Render(ps: seq<Piece>): string {
    if ps == [] then "" else RenderPiece(ps[0]) + Render(ps[1..])
  }

  function RenderAlternative(alt: Option<Alternative>): string {
    if alt.Some? then ":" + [alt.value.op] + alt.value.word else ""
  }

  lemma ScanAlternativeExact(s: string)
    ensures RenderAlternative(ScanAlternative(s).0) + ScanAlternative(s).1 == s
  {
    var n := if |s| >= 3 && s[0] == ':' && (s[1] == '-' || s[1] == '+')
             then WordLength(s[2..]) else 0;
    if n > 0 {
      assert s == ":" + [s[1]] + s[2..2 + n] + s[2 + n..];
    }
  }

  lemma ScanRefParts(s: string) returns (open: bool, body: string, n: nat, alt: Option<Alternative>,
                                         rest: string, close: bool, tail: string)
    requires ScanRef(s).Some?
    ensures n <= |body| && ScanRef(s) == Some((Ref(open, body[..n], alt, close), tail))
    ensures s[0] == '$' && s[1..] == RenderOptional(open, '{') + body
    ensures body[n..] == RenderAlternative(alt) + rest
    ensures rest == RenderOptional(close, '}') + tail
  {
    open, body := ScanOptional(s[1..], '{').0, ScanOptional(s[1..], '{').1;
    n := NameLength(body);
    alt, rest := ScanAlternative(body[n..]).0, ScanAlternative(body[n..]).1;
    close, tail := ScanOptional(rest, '}').0, ScanOptional(rest, '}').1;
    ScanAlternativeExact(body[n..]);
    ScanOptionalExact(s[1..], '{');
    ScanOptionalExact(rest, '}');
  }

  lemma ScanRefExact(s: string)
    requires ScanRef(s).Some?
    ensures RenderPiece(ScanRef(s).value.0) + ScanRef(s).value.1 == s
  {
    hide ScanRef, RenderAlternative, RenderOptional;
    var open, body, n, alt, rest, close, tail := ScanRefParts(s);
    Regroup(s, s[1..], RenderOptional(open, '{'), body, body[..n], body[n..],
            RenderAlternative(alt), rest, RenderOptional(close, '}'), tail);
  }

  lemma Regroup(s: string, s1: string, a: string, s2: string, b: string, s3: string,
                c: string, s4: string, d: string, s5: string)
    requires s == "$" + s1 && s1 == a + s2 && s2 == b + s3 && s3 == c + s4 && s4 == d + s5
    ensures "$" + a + b + c + d + s5 == s
  {
    assert b + (c + (d + s5)) == (b + c + d) + s5;
    assert "$" + (a + ((b + c + d) + s5)) == "$" + a + b + c + d + s5;
  }

  /** Scanning loses nothing: printing the pieces gives the value back. */
  lemma {:induction false} RenderScan(s: string)
    ensures Render(Scan(s)) == s
    decreases |s|
  {
    if s != "" {
      match ScanRef(s)
      case None =>
        RenderScan(s[1..]);
        assert ([Plain(s[0])] + Scan(s[1..]))[1..] == Scan(s[1..]);
      case Some((piece, rest)) =>
        ScanRefExact(s);
        RenderScan(rest);
        assert ([piece] + Scan(rest))[1..] == Scan(rest);
    }
  }

  function ExpressionValue(alt: Alternative, value: string): string {
    Unquote(if alt.op == '-' then (if value != "" then value else alt.word)
            else if alt.op == '+' then (if value != "" then alt.word else value)
            else "")
  }

  /** What one piece turns into once the value of its variable is known. */
  function Substitute(p: Piece, value: string): string {
    match p
    case Plain(c) => [c]
    case Ref(_, _, None, _) => value
    case Ref(_, _, Some(alt), _) => ExpressionValue(alt, value)
  }

  function ExpandPieces(ps: seq<Piece>, vars: map<string, string>): string {
    if ps == [] then ""
    else
      var p := ps[|ps| - 1];
      ExpandPieces(ps[..|ps| - 1], vars) + Substitute(p, if p.Ref? then Get(vars, p.name) else "")
  }

  /** A value with every reference replaced by what the variable holds in `vars`. */
  function Expand(s: string, vars: map<string, string>): string {
    ExpandPieces(Scan(s), vars)
  }

  // ---- what references mean in a text ----

  lemma {:induction false} ScanPlain(s: string)
    requires '$' !in s
    ensures |Scan(s)| == |s| && forall k :: 0 <= k < |s| ==> Scan(s)[k] == Plain(s[k])
  {
    if s != "" {
      ScanPlain(s[1..]);
      assert ScanRef(s) == None;
    }
  }

  lemma {:induction false} ExpandPlain(ps: seq<Piece>, s: string, vars: map<string, string>)
    requires |ps| == |s| && forall k :: 0 <= k < |s| ==> ps[k] == Plain(s[k])
    ensures ExpandPieces(ps, vars) == s
  {
    if s != "" {
      var n := |s| - 1;
      ExpandPlain(ps[..n], s[..n], vars);
      assert s[..n] + [s[n]] == s;
    }
  }

  /** A text without references means itself. */
  lemma ExpandSame(s: string, vars: map<string, string>)
    requires '$' !in s
    ensures Expand(s, vars) == s
  {
    ScanPlain(s);
    ExpandPlain(Scan(s), s, vars);
  }

  lemma {:induction false} ExpandAppend(a: seq<Piece>, b: seq<Piece>, vars: map<string, string>)
    ensures ExpandPieces(a + b, vars) == ExpandPieces(a, vars) + ExpandPieces(b, vars)
    decreases |b|
  {
    hide Substitute;
    if b == [] {
      assert a + b == a;
    } else {
      var n := |b| - 1;
      ExpandAppend(a, b[..n], vars);
      assert (a + b)[..|a + b| - 1] == a + b[..n];
    }
  }

  lemma NotAReference(s: string)
    requires s == "" || s[0] != '$'
    ensures ScanRef(s) == None
  {
  }

  lemma {:induction false} ScanBehind(before: string, s: string)
    requires '$' !in before
    ensures Scan(before + s) == Scan(before) + Scan(s)
  {
    hide ScanRef;
    if before == "" {
      assert before + s == s;
    } else {
      var all := before + s;
      ScanBehind(before[1..], s);
      assert all[1..] == before[1..] + s && all[0] == before[0] != '$';
      NotAReference(all);
      NotAReference(before);
    }
  }

  predicate IsName(name: string) {
    name != "" && forall k :: 0 <= k < |name| ==> IsNameChar(name[k])
  }

  lemma {:induction false} NameEnds(name: string, rest: string)
    requires forall k :: 0 <= k < |name| ==> IsNameChar(name[k])
    requires rest == "" || !IsNameChar(rest[0])
    ensures NameLength(name + rest) == |name|
  {
    if name == "" {
      assert name + rest == rest;
    } else {
      NameEnds(name[1..], rest);
      assert (name + rest)[1..] == name[1..] + rest;
    }
  }

  lemma {:induction false} WordEnds(word: string, rest: string)
    requires '}' !in word && (rest == "" || rest[0] == '}')
    ensures WordLength(word + rest) == |word|
  {
    if word == "" {
      assert word + rest == rest;
    } else {
      WordEnds(word[1..], rest);
      assert (word + rest)[1..] == word[1..] + rest;
    }
  }

  /** `$name` in front of a text that does not carry on the reference. */
  lemma ScanBare(name: string, after: string)
    requires IsName(name) && (after == "" || (!IsNameChar(after[0]) && after[0] != ':' && after[0] != '}'))
    ensures ScanRef("$" + name + after) == Some((Ref(false, name, None, false), after))
  {
    var s, body := "$" + name + after, name + after;
    assert s[1..] == body && body[0] == name[0];
    NameEnds(name, after);
    assert body[..|name|] == name && body[|name|..] == after;
    assert ScanAlternative(after) == (None, after);
  }

  lemma ScanBraced(name: string, after: string)
    requires IsName(name)
    ensures ScanRef("${" + name + "}" + after) == Some((Ref(true, name, None, true), after))
  {
    var s, body, rest := "${" + name + "}" + after, name + ("}" + after), "}" + after;
    assert s[1..] == ['{'] + body && s[1..][1..] == body;
    NameEnds(name, rest);
    assert body[..|name|] == name && body[|name|..] == rest;
    assert ScanAlternative(rest) == (None, rest);
    assert rest[1..] == after;
  }

  lemma ScanOneAlternative(op: char, word: string, tail: string)
    requires (op == '-' || op == '+') && word != "" && '}' !in word && tail != "" && tail[0] == '}'
    ensures ScanAlternative(":" + [op] + (word + tail)) == (Some(Alternative(op, word)), tail)
  {
    var rest := ":" + [op] + (word + tail);
    assert rest[2..] == word + tail;
    WordEnds(word, tail);
    assert rest[2..2 + |word|] == word && rest[2 + |word|..] == tail;
  }

  lemma ScanAlternatives(name: string, op: char, word: string, after: string)
    requires IsName(name) && (op == '-' || op == '+') && word != "" && '}' !in word
    ensures ScanRef("${" + name + ":" + [op] + word + "}" + after)
            == Some((Ref(true, name, Some(Alternative(op, word)), true), after))
  {
    hide ScanAlternative;
    var tail := "}" + after;
    var rest := ":" + [op] + (word + tail);
    var s, body := "${" + name + ":" + [op] + word + "}" + after, name + rest;
    assert s[1..] == ['{'] + body && s[1..][1..] == body;
    NameEnds(name, rest);
    assert body[..|name|] == name && body[|name|..] == rest;
    ScanOneAlternative(op, word, tail);
    assert tail[1..] == after;
  }

  lemma ScanAround(before: string, ref: string, after: string, piece: Piece)
    requires '$' !in before && '$' !in after && ScanRef(ref + after) == Some((piece, after)) && ref != ""
    ensures Scan(before + ref + after) == Scan(before) + ([piece] + Scan(after))
    ensures forall k :: 0 <= k < |Scan(before + ref + after)| && Scan(before + ref + after)[k].Ref? ==>
              Scan(before + ref + after)[k] == piece
  {
    hide ScanRef;
    var s := ref + after;
    assert before + ref + after == before + s;
    ScanBehind(before, s);
    assert Scan(s) == [piece] + Scan(after);
    ScanPlain(before);
    ScanPlain(after);
  }

  lemma ExpandOne(p: Piece, vars: map<string, string>)
    requires p.Ref?
    ensures ExpandPieces([p], vars) == Substitute(p, Get(vars, p.name))
  {
    hide Substitute;
    assert [p][..0] == [];
    assert "" + Substitute(p, Get(vars, p.name)) == Substitute(p, Get(vars, p.name));
  }

  /** One reference with text around it. */
  lemma ExpandAround(before: string, ref: string, after: string, piece: Piece, vars: map<string, string>)
    requires '$' !in before && '$' !in after && ScanRef(ref + after) == Some((piece, after)) && piece.Ref? && ref != ""
    ensures Expand(before + ref + after, vars) == before + Substitute(piece, Get(vars, piece.name)) + after
  {
    hide Substitute, ScanRef, Scan, ExpandPieces;
    ScanAround(before, ref, after, piece);
    ExpandAppend(Scan(before), [piece] + Scan(after), vars);
    ExpandAppend([piece], Scan(after), vars);
    ExpandSame(before, vars);
    ExpandSame(after, vars);
    ExpandOne(piece, vars);
    var v := Substitute(piece, Get(vars, piece.name));
    assert before + (v + after) == before + v + after;
  }

  /** `$name` and `${name}` mean the value. */
  lemma VariableMeans(before: string, name: string, after: string, vars: map<string, string>)
    requires IsName(name) && '$' !in before && '$' !in after
    ensures Expand(before + ("${" + name + "}") + after, vars) == before + Get(vars, name) + after
    ensures (after == "" || (!IsNameChar(after[0]) && after[0] != ':' && after[0] != '}')) ==>
              Expand(before + ("$" + name) + after, vars) == before + Get(vars, name) + after
  {
    hide Expand, ScanRef;
    ScanBraced(name, after);
    ExpandAround(before, "${" + name + "}", after, Ref(true, name, None, true), vars);
    if after == "" || (!IsNameChar(after[0]) && after[0] != ':' && after[0] != '}') {
      ScanBare(name, after);
      ExpandAround(before, "$" + name, after, Ref(false, name, None, false), vars);
    }
  }

  /** `${name:-word}` means the word where the variable is unset or empty, and otherwise the value, both unquoted. */
  lemma DefaultMeans(before: string, name: string, word: string, after: string, vars: map<string, string>)
    requires IsName(name) && word != "" && '}' !in word && '$' !in before && '$' !in after
    ensures Expand(before + ("${" + name + ":-" + word + "}") + after, vars)
            == before + Unquote(if name !in vars || vars[name] == "" then word else vars[name]) + after
  {
    hide Expand, ScanRef, Trim;
    ScanAlternatives(name, '-', word, after);
    var ref := "${" + name + ":" + ['-'] + word + "}";
    assert ref == "${" + name + ":-" + word + "}";
    ExpandAround(before, ref, after, Ref(true, name, Some(Alternative('-', word)), true), vars);
  }

  /** `${name:+word}` means the unquoted word where the variable has a value, and nothing otherwise. */
  lemma AlternativeMeans(before: string, name: string, word: string, after: string, vars: map<string, string>)
    requires IsName(name) && word != "" && '}' !in word && '$' !in before && '$' !in after
    ensures Expand(before + ("${" + name + ":+" + word + "}") + after, vars)
            == before + (if name !in vars || vars[name] == "" then "" else Unquote(word)) + after
  {
    hide Expand, ScanRef;
    ScanAlternatives(name, '+', word, after);
    var ref := "${" + name + ":" + ['+'] + word + "}";
    assert ref == "${" + name + ":+" + word + "}";
    ExpandAround(before, ref, after, Ref(true, name, Some(Alternative('+', word)), true), vars);
  }

  // ---- what instructions mean in a text ----

  /** The words of an argument chain. */
  function Words(chain: Node): seq<string> {
    if chain.Nil? then [] else [chain.value] + Words(chain.next)
  }

  /** A USER's group is dropped: the user is what stands before the first colon. */
  lemma UserMeans(n: Node)
    requires IsUser(n)
    ensures ':' !in ParseUser(n).key
    ensures n.next.value == ParseUser(n).key || ParseUser(n).key + ":" <= n.next.value
  {
    FirstPart(n.next.value, ':');
  }

  lemma {:induction false} FirstPart(s: string, sep: char)
    ensures sep !in Split(s, sep)[0] && (s == Split(s, sep)[0] || Split(s, sep)[0] + [sep] <= s)
  {
    if s != "" && s[0] != sep {
      FirstPart(s[1..], sep);
      assert s == [s[0]] + s[1..];
    }
  }

  /** `ARG key=default` splits at the first equals sign; the default may contain more of them, or be empty. */
  lemma ArgMeans(n: Node, key: string, value: string)
    requires IsArg(n) && '=' !in key
    ensures n.next.next.Nil? && n.next.value == key + "=" + value ==> ParseArg(n) == KeyValue(key, value, n.startLine)
    ensures n.next.next.Nil? && n.next.value == key ==> ParseArg(n) == KeyValue(key, "", n.startLine)
  {
    SplitPart(key, value, '=');
    assert key + ['='] + value == key + "=" + value;
    assert (key + "=" + value)[|key|] == '=';
    assert ([key] + Split(value, '='))[1..] == Split(value, '=');
    JoinSplit(value, '=');
  }

  /** An ENV value loses its backslashes and then its outer quotes, a key the white space around it. */
  lemma EnvMeans(left: string, key: string, right: string, value: string, line: nat)
    requires key != "" && !IsSpace(key[0]) && !IsSpace(key[|key| - 1]) && AllIn(left, SPACES) && AllIn(right, SPACES)
    requires value != "" && '\\' !in value && value[0] !in {'"', '\''} && value[|value| - 1] !in {'"', '\''}
    ensures EnvPair(left + key + right, value, line) == KeyValue(key, value, line)
    ensures EnvPair(key, "\"" + value + "\"", line) == KeyValue(key, value, line)
    ensures EnvPair(key, "\\" + value, line) == KeyValue(key, value, line)
  {
    hide SPACES;
    TrimAround(left, key, right, SPACES);
    TrimKeeps(key, SPACES);
    TrimKeeps(value, {'"', '\''});
    TrimAround("\"", value, "\"", {'"', '\''});
    WithoutAppend(value, "", '\\');
    WithoutAppend("\\", value, '\\');
    WithoutAppend("\"" + value + "\"", "", '\\');
  }
}
