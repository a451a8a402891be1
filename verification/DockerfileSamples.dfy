/** Small Dockerfiles as buildkit's nodes, and what the parser reads out of them. */
module DockerfileSamples {
  import opened Text
  import opened DockerfileSyntax
  import opened Dockerfile
  import opened DockerfileScope
  import opened DockerfileBindings

  // ---- instructions ----

  function Instruction(keyword: string, line: nat, chain: Node): Node {
    Node(keyword, [], [], line, line, chain)
  }

  function From(image: string, line: nat): Node {
    Instruction("FROM", line, Token(image, Nil))
  }

  function FromAs(image: string, target: string, line: nat): Node {
    Instruction("FROM", line, Token(image, Token("AS", Token(target, Nil))))
  }

  function Env(key: string, value: string, line: nat): Node {
    Instruction("ENV", line, EnvChain([(key, value)]))
  }

  function Arg(key: string, value: string, line: nat): Node {
    Instruction("ARG", line, Token(key + "=" + value, Nil))
  }

  function User(name: string, line: nat): Node {
    Instruction("USER", line, Token(name, Nil))
  }

  lemma Keywords()
    ensures ToLower("FROM") == "from" && ToLower("ENV") == "env" && ToLower("AS") == "as"
    ensures ToLower("ARG") == "arg" && ToLower("USER") == "user"
  {
  }

  lemma FromRead(image: string, target: string, line: nat)
    ensures IsFrom(From(image, line)) && ImageOf(From(image, line)) == image && TargetOf(From(image, line)) == ""
    ensures IsFrom(FromAs(image, target, line))
    ensures ImageOf(FromAs(image, target, line)) == image && TargetOf(FromAs(image, target, line)) == target
  {
    hide ToLower;
    Keywords();
  }

  predicate Neat(s: string) {
    s != "" && forall k :: 0 <= k < |s| ==> IsNameChar(s[k]) || s[k] == '$' || s[k] == '-'
  }

  /** Neat texts have nothing to trim, unquote or unescape. */
  lemma NeatKept(s: string)
    requires Neat(s)
    ensures TrimSpace(s) == s && Unquote(s) == s && Without(s, '\\') == s && '=' !in s && ':' !in s
  {
    NeatChar(s[0]);
    NeatChar(s[|s| - 1]);
    TrimKeeps(s, SPACES);
    TrimKeeps(s, {'"', '\''});
    WithoutAppend(s, "", '\\');
  }

  lemma NeatChar(c: char)
    requires IsNameChar(c) || c == '$' || c == '-'
    ensures c !in SPACES
  {
  }

  lemma EnvRead(key: string, value: string, line: nat)
    requires Neat(key) && Neat(value)
    ensures IsEnv(Env(key, value, line)) && ParseEnv(Env(key, value, line)) == [KeyValue(key, value, line)]
    ensures !IsFrom(Env(key, value, line)) && !IsArg(Env(key, value, line)) && !IsUser(Env(key, value, line))
  {
    hide TrimSpace, Unquote, Without, ToLower, EnvPairs;
    Keywords();
    NeatKept(key);
    NeatKept(value);
    EnvReadAsWritten([(key, value)], line);
  }

  lemma ArgRead(key: string, value: string, line: nat)
    requires Neat(key) && Neat(value)
    ensures IsArg(Arg(key, value, line)) && ParseArg(Arg(key, value, line)) == KeyValue(key, value, line)
    ensures !IsFrom(Arg(key, value, line)) && !IsEnv(Arg(key, value, line)) && !IsUser(Arg(key, value, line))
  {
    hide ToLower, Split, Join, TrimSpace, Unquote, Without;
    Keywords();
    NeatKept(key);
    NeatKept(value);
    SplitPart(key, value, '=');
    SplitPart(value, "", '=');
    assert ([key] + [value])[1..] == [value];
    JoinOne(value);
    assert (key + "=" + value)[|key|] == '=';
  }

  lemma JoinOne(s: string)
    ensures Join([s], "=") == s
  {
  }

  lemma UserRead(name: string, line: nat)
    requires Neat(name)
    ensures IsUser(User(name, line)) && ParseUser(User(name, line)) == KeyValue(name, "", line)
    ensures !IsFrom(User(name, line)) && !IsEnv(User(name, line)) && !IsArg(User(name, line))
  {
    hide ToLower, Split, TrimSpace, Unquote, Without;
    Keywords();
    NeatKept(name);
    SplitPart(name, "", ':');
  }

  lemma OneEnvStage(image: string, target: string, key: string, value: string, line: nat)
    requires Neat(key) && Neat(value)
    ensures var ns := [FromAs(image, target, line), Env(key, value, line + 1)];
            && StageOf(ns) == Stage(image, target, [], [KeyValue(key, value, line + 1)], [], ns)
            && IsStage(StageOf(ns))
  {
    hide IsFrom, IsEnv, IsArg, IsUser, ParseEnv, ImageOf, TargetOf, FromAs, Env, Neat;
    var from, env := FromAs(image, target, line), Env(key, value, line + 1);
    FromRead(image, target, line);
    EnvRead(key, value, line + 1);
    FirstStage(from);
    assert [from, env] == [from] + [env];
    Extend([from], env);
  }

  lemma OneEnv(e: KeyValue, variable: string, line: nat)
    ensures LastEnvIndex([e], variable, line) == if Sets(e, variable, line) then 0 else -1
  {
    assert [e][..0] == [];
  }

  // ---- files ----

  function File(preamble: seq<Node>, stages: seq<Stage>): Dockerfile {
    Dockerfile(PreambleOf(preamble), stages, TargetIndex(stages))
  }

  lemma TwoStages(s: Stage, t: Stage)
    ensures FlatStages([s, t]) == s.instructions + t.instructions
    ensures s.target != "" && t.target != "" && s.target != t.target ==>
              TargetIndex([s, t]) == map[s.target := 0, t.target := 1]
  {
    var ss := [s, t];
    assert ss[..1] == [s] && [s][..0] == [];
    assert FlatStages([s]) == FlatStages([]) + s.instructions;
    if s.target != "" {
      assert TargetIndex([s]) == map[s.target := 0];
    }
  }

  /** A file of two named stages without references in their FROMs. */
  lemma TwoStageFile(s: Stage, t: Stage)
    requires IsStage(s) && IsStage(t) && s.target != "" && t.target != "" && s.target != t.target
    ensures var d := File([], [s, t]);
            && Shaped(d) && Flat(d) == s.instructions + t.instructions
            && d.byTarget == map[s.target := 0, t.target := 1]
  {
    hide IsStage, FlatStages, TargetIndex;
    TwoStages(s, t);
    assert [] + (s.instructions + t.instructions) == s.instructions + t.instructions;
  }

  lemma PlainParent(d: Dockerfile, buildArgs: Vars, baseEnv: Vars, i: nat)
    requires Shaped(d) && i < |d.stages| && '$' !in d.stages[i].image
    ensures Parent(d, buildArgs, baseEnv, i)
            == if d.stages[i].image in d.byTarget then Some(d.byTarget[d.stages[i].image]) else None
  {
    hide Expand, IsStage, TargetIndex, PreambleEnd;
    ExpandSame(d.stages[i].image, Visible(PreambleEnd(d, buildArgs, baseEnv)));
  }
}
