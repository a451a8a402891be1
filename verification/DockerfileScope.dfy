/**
 A forward evaluator for Dockerfiles: instructions run in file order over an ARG map and an ENV map,
 a stage starts with the ENV of the stage it is built from, and a stage built from an outside image
 starts with everything visible at the end of the preamble. It never looks backward, follows no
 chain of lookups and needs no guard against cycles; it is what the search of
 pkg/dockerfile/parse.go is measured against.
 */
module DockerfileScope {
  import opened Text
  import opened DockerfileSyntax
  import opened Dockerfile

  type Vars = map<string, string>

  datatype Scope = Scope(args: Vars, env: Vars, user: string)

  /** The code lets an ARG win over an ENV of the same name, wherever the two stand. */
  function Visible(s: Scope): Vars {
    s.env + s.args
  }

  // ---- running instructions ----

  predicate Effective(a: KeyValue, buildArgs: Vars) {
    Get(buildArgs, a.key) != "" || a.value != ""
  }

  function ArgValue(a: KeyValue, vars: Vars, buildArgs: Vars): string {
    Unquote(if Get(buildArgs, a.key) != "" then Get(buildArgs, a.key) else Expand(a.value, vars))
  }

  function BindEnvs(pairs: seq<KeyValue>, vars: Vars): Vars {
    if pairs == [] then map[]
    else
      var p := pairs[|pairs| - 1];
      var m := BindEnvs(pairs[..|pairs| - 1], vars);
      if p.value == "" then m else m[p.key := Expand(p.value, vars)]
  }

  function Exec(n: Node, s: Scope, buildArgs: Vars): Scope {
    if IsArg(n) then
      var a := ParseArg(n);
      if Effective(a, buildArgs) then s.(args := s.args[a.key := ArgValue(a, Visible(s), buildArgs)])
      else s
    else if IsEnv(n) then s.(env := s.env + BindEnvs(ParseEnv(n), Visible(s)))
    else if IsUser(n) then s.(user := Expand(ParseUser(n).key, Visible(s)))
    else s
  }

  function Run(ns: seq<Node>, s: Scope, buildArgs: Vars): Scope {
    if ns == [] then s else Exec(ns[|ns| - 1], Run(ns[..|ns| - 1], s, buildArgs), buildArgs)
  }

  // ---- the whole file ----

  function PreambleEnd(d: Dockerfile, buildArgs: Vars, baseEnv: Vars): Scope {
    Run(d.preamble.instructions, Scope(map[], baseEnv, ""), buildArgs)
  }

  /** The name behind FROM with its variables replaced. */
  function BaseName(d: Dockerfile, buildArgs: Vars, baseEnv: Vars, i: nat): string
    requires i < |d.stages|
  {
    Expand(d.stages[i].image, Visible(PreambleEnd(d, buildArgs, baseEnv)))
  }

  /** The stage a stage is built from, if its FROM names one. */
  function Parent(d: Dockerfile, buildArgs: Vars, baseEnv: Vars, i: nat): (r: Option<nat>)
    requires Shaped(d) && i < |d.stages|
    ensures r.Some? ==> r.value < |d.stages|
  {
    var name := BaseName(d, buildArgs, baseEnv, i);
    if name in d.byTarget then Some(d.byTarget[name]) else None
  }

  function Start(d: Dockerfile, buildArgs: Vars, baseEnv: Vars, i: nat): Scope
    requires Shaped(d) && i < |d.stages|
    decreases i, 0
  {
    match Parent(d, buildArgs, baseEnv, i)
    case Some(j) =>
      if j < i then
        var parent := End(d, buildArgs, baseEnv, j);
        Scope(map[], parent.env, parent.user)
      else Scope(map[], map[], "")
    case None => Scope(map[], Visible(PreambleEnd(d, buildArgs, baseEnv)), "")
  }

  function End(d: Dockerfile, buildArgs: Vars, baseEnv: Vars, i: nat): Scope
    requires Shaped(d) && i < |d.stages|
    decreases i, 1
  {
    Run(d.stages[i].instructions, Start(d, buildArgs, baseEnv, i), buildArgs)
  }

  /** The instructions that stand before a line. */
  function Before(ns: seq<Node>, line: nat): seq<Node> {
    if ns == [] then []
    else if ns[|ns| - 1].Node? && ns[|ns| - 1].startLine < line then ns
    else Before(ns[..|ns| - 1], line)
  }

  datatype Place = AtPreamble | AtStage(i: nat)

  predicate InFile(d: Dockerfile, p: Place) {
    p.AtStage? ==> p.i < |d.stages|
  }

  function StageAt(d: Dockerfile, p: Place): Stage
    requires InFile(d, p)
  {
    if p.AtPreamble? then d.preamble else d.stages[p.i]
  }

  function StartOf(d: Dockerfile, buildArgs: Vars, baseEnv: Vars, p: Place): Scope
    requires Shaped(d) && InFile(d, p)
  {
    if p.AtPreamble? then Scope(map[], baseEnv, "") else Start(d, buildArgs, baseEnv, p.i)
  }

  /** What holds just before `line` in the preamble or in a stage. */
  function ScopeAt(d: Dockerfile, buildArgs: Vars, baseEnv: Vars, p: Place, line: nat): Scope
    requires Shaped(d) && InFile(d, p)
  {
    Run(Before(StageAt(d, p).instructions, line), StartOf(d, buildArgs, baseEnv, p), buildArgs)
  }

  // ---- files whose instructions are in order ----

  predicate Ordered(ns: seq<Node>) {
    && (forall k :: 0 <= k < |ns| ==> ns[k].Node?)
    && (forall j, k :: 0 <= j < k < |ns| ==> ns[j].startLine < ns[k].startLine)
  }

  predicate InOrder(d: Dockerfile) {
    Shaped(d) && d.stages != [] && Ordered(Flat(d))
  }

  predicate AllBelow(ns: seq<Node>, line: nat) {
    forall k :: 0 <= k < |ns| ==> ns[k].Node? && ns[k].startLine < line
  }

  function FirstLine(s: Stage): nat
    requires IsStage(s)
  {
    s.instructions[0].startLine
  }

  function LastLine(s: Stage): nat
    requires IsStage(s) && Ordered(s.instructions)
  {
    s.instructions[|s.instructions| - 1].startLine
  }

  lemma OrderedSplit(a: seq<Node>, b: seq<Node>)
    requires Ordered(a + b)
    ensures Ordered(a) && Ordered(b)
    ensures forall j, k :: 0 <= j < |a| && 0 <= k < |b| ==> a[j].startLine < b[k].startLine
  {
    var ab := a + b;
    forall k | 0 <= k < |a| ensures a[k].Node? { assert ab[k] == a[k]; }
    forall k | 0 <= k < |b| ensures b[k].Node? { assert ab[|a| + k] == b[k]; }
    forall j, k | 0 <= j < k < |a| ensures a[j].startLine < a[k].startLine {
      assert ab[j] == a[j] && ab[k] == a[k];
    }
    forall j, k | 0 <= j < k < |b| ensures b[j].startLine < b[k].startLine {
      assert ab[|a| + j] == b[j] && ab[|a| + k] == b[k];
    }
    forall j, k | 0 <= j < |a| && 0 <= k < |b| ensures a[j].startLine < b[k].startLine {
      assert ab[j] == a[j] && ab[|a| + k] == b[k];
    }
  }

  /** Where the instructions of stage i begin in the flat list of all stages. */
  function Offset(stages: seq<Stage>, i: nat): nat
    requires i <= |stages|
  {
    |FlatStages(stages[..i])|
  }

  lemma OffsetNext(stages: seq<Stage>, i: nat)
    requires i < |stages|
    ensures Offset(stages, i + 1) == Offset(stages, i) + |stages[i].instructions|
    ensures FlatStages(stages[..i + 1]) == FlatStages(stages[..i]) + stages[i].instructions
  {
    assert stages[..i + 1][..i] == stages[..i];
  }

  lemma {:induction false} OffsetGrows(stages: seq<Stage>, j: nat, i: nat)
    requires j <= i <= |stages|
    ensures Offset(stages, j) <= Offset(stages, i)
    ensures FlatStages(stages[..j]) <= FlatStages(stages[..i])
    decreases i
  {
    if j < i {
      OffsetGrows(stages, j, i - 1);
      OffsetNext(stages, i - 1);
    }
  }

  lemma FlatAt(stages: seq<Stage>, i: nat, k: nat)
    requires i < |stages| && k < |stages[i].instructions|
    ensures Offset(stages, i) + k < |FlatStages(stages)|
    ensures FlatStages(stages)[Offset(stages, i) + k] == stages[i].instructions[k]
  {
    OffsetNext(stages, i);
    OffsetGrows(stages, i + 1, |stages|);
    assert stages[..|stages|] == stages;
  }

  lemma StageInOrder(d: Dockerfile, i: nat)
    requires InOrder(d) && i < |d.stages|
    ensures Ordered(d.stages[i].instructions)
  {
    hide IsStage, FlatStages;
    var ns, flat := d.stages[i].instructions, FlatStages(d.stages);
    OrderedSplit(d.preamble.instructions, flat);
    forall k | 0 <= k < |ns| ensures ns[k].Node? {
      FlatAt(d.stages, i, k);
    }
    forall j, k | 0 <= j < k < |ns| ensures ns[j].startLine < ns[k].startLine {
      FlatAt(d.stages, i, j);
      FlatAt(d.stages, i, k);
    }
  }

  lemma StagePairInOrder(d: Dockerfile, j: nat, i: nat)
    requires InOrder(d) && j < i < |d.stages|
    ensures Ordered(d.stages[j].instructions) && LastLine(d.stages[j]) < FirstLine(d.stages[i])
  {
    hide StageOf, FlatStages, NoFrom, PreambleOf, TargetIndex;
    StageInOrder(d, j);
    OrderedSplit(d.preamble.instructions, FlatStages(d.stages));
    FlatAt(d.stages, j, |d.stages[j].instructions| - 1);
    FlatAt(d.stages, i, 0);
    OffsetNext(d.stages, j);
    OffsetGrows(d.stages, j + 1, i);
  }

  /** What being in order means for the preamble and for every stage. */
  lemma InOrderParts(d: Dockerfile)
    requires InOrder(d)
    ensures Ordered(d.preamble.instructions)
    ensures AllBelow(d.preamble.instructions, FirstLine(d.stages[0]))
    ensures forall i :: 0 <= i < |d.stages| ==> Ordered(d.stages[i].instructions)
    ensures forall i, j :: 0 <= j < i < |d.stages| ==> LastLine(d.stages[j]) < FirstLine(d.stages[i])
  {
    forall i | 0 <= i < |d.stages| ensures Ordered(d.stages[i].instructions) {
      StageInOrder(d, i);
    }
    forall i, j | 0 <= j < i < |d.stages| ensures LastLine(d.stages[j]) < FirstLine(d.stages[i]) {
      StagePairInOrder(d, j, i);
    }
    OrderedSplit(d.preamble.instructions, FlatStages(d.stages));
    FlatAt(d.stages, 0, 0);
  }

  lemma {:induction false} BeforeAll(ns: seq<Node>, line: nat)
    requires AllBelow(ns, line)
    ensures Before(ns, line) == ns
  {
  }
}
