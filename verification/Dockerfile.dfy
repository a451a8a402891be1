/** Partitioning a Dockerfile into a preamble and stages, `Parse` of pkg/dockerfile/parse.go. */
module Dockerfile {
  import opened Text
  import opened DockerfileSyntax

  /** BaseStage and Stage; the preamble is one with no image, target or users. */
  datatype Stage = Stage(image: string, target: string, args: seq<KeyValue>, envs: seq<KeyValue>,
                         users: seq<KeyValue>, instructions: seq<Node>)

  /** A pointer to a stage is its index in `stages`. */
  datatype Dockerfile = Dockerfile(preamble: Stage, stages: seq<Stage>, byTarget: map<string, nat>)

  datatype ParseResult = Parsed(file: Dockerfile) | EmptyFile | NilDereference

  // ---- what a stage collects from its instructions ----

  function ArgsOf(ns: seq<Node>): seq<KeyValue> {
    if ns == [] then []
    else
      var n := ns[|ns| - 1];
      ArgsOf(ns[..|ns| - 1]) + if IsArg(n) then [ParseArg(n)] else []
  }

  function EnvsOf(ns: seq<Node>): seq<KeyValue> {
    if ns == [] then []
    else
      var n := ns[|ns| - 1];
      EnvsOf(ns[..|ns| - 1]) + if IsEnv(n) then ParseEnv(n) else []
  }

  function UsersOf(ns: seq<Node>): seq<KeyValue> {
    if ns == [] then []
    else
      var n := ns[|ns| - 1];
      UsersOf(ns[..|ns| - 1]) + if IsUser(n) then [ParseUser(n)] else []
  }

  function ImageOf(from: Node): string {
    if from.Node? && from.next.Node? then from.next.value else ""
  }

  predicate Named(from: Node) {
    from.Node? && from.next.Node? && from.next.next.Node? && Is(from.next.next, "as")
    && from.next.next.next.Node?
  }

  function TargetOf(from: Node): string {
    if Named(from) then from.next.next.next.value else ""
  }

  /** `FROM image AS name`: the words decide, whatever the case of AS; without it the stage has no name. */
  lemma FromMeans(from: Node)
    requires from.Node?
    ensures var ws := Words(from.next);
            && ImageOf(from) == (if |ws| > 0 then ws[0] else "")
            && TargetOf(from) == (if |ws| > 2 && ToLower(ws[1]) == "as" then ws[2] else "")
  {
    hide ToLower;
    var ws := Words(from.next);
    if |ws| > 0 {
      assert ws[1..] == Words(from.next.next);
      if |ws| > 1 {
        assert ws[2..] == Words(from.next.next.next);
      }
    }
  }

  function StageOf(ns: seq<Node>): Stage
    requires ns != []
  {
    Stage(ImageOf(ns[0]), TargetOf(ns[0]), ArgsOf(ns), EnvsOf(ns), UsersOf(ns), ns)
  }

  function PreambleOf(ns: seq<Node>): Stage {
    Stage("", "", ArgsOf(ns), EnvsOf(ns), [], ns)
  }

  predicate NoFrom(ns: seq<Node>) {
    forall k :: 0 <= k < |ns| ==> !IsFrom(ns[k])
  }

  predicate IsStage(s: Stage) {
    && s.instructions != [] && IsFrom(s.instructions[0])
    && (forall k :: 1 <= k < |s.instructions| ==> !IsFrom(s.instructions[k]))
    && s == StageOf(s.instructions)
  }

  /** StagesByTarget: a later stage of the same name replaces an earlier one. */
  function TargetIndex(stages: seq<Stage>): (m: map<string, nat>)
    ensures forall t :: t in m ==> m[t] < |stages| && stages[m[t]].target == t && t != ""
  {
    if stages == [] then map[]
    else
      var last := |stages| - 1;
      var m := TargetIndex(stages[..last]);
      if stages[last].target == "" then m else m[stages[last].target := last]
  }

  /** What holds of every Dockerfile value that Parse returns. */
  predicate Shaped(d: Dockerfile) {
    && NoFrom(d.preamble.instructions)
    && d.preamble == PreambleOf(d.preamble.instructions)
    && (forall i :: 0 <= i < |d.stages| ==> IsStage(d.stages[i]))
    && d.byTarget == TargetIndex(d.stages)
  }

  function FlatStages(stages: seq<Stage>): seq<Node> {
    if stages == [] then []
    else FlatStages(stages[..|stages| - 1]) + stages[|stages| - 1].instructions
  }

  /** The instructions in file order, which is what Dump prints. */
  function Flat(d: Dockerfile): seq<Node> {
    d.preamble.instructions + FlatStages(d.stages)
  }

  // ---- Parse ----

  predicate HasFrom(ns: seq<Node>) {
    !NoFrom(ns)
  }

  /** Instruction k makes Parse follow a nil pointer: ARG, or USER inside a stage, with no argument. */
  predicate Dereferences(ns: seq<Node>, k: nat)
    requires k < |ns|
  {
    && ns[k].Node? && ns[k].next.Nil?
    && (Is(ns[k], "arg") || (Is(ns[k], "user") && HasFrom(ns[..k])))
  }

  lemma Extend(ns: seq<Node>, n: Node)
    ensures ArgsOf(ns + [n]) == ArgsOf(ns) + if IsArg(n) then [ParseArg(n)] else []
    ensures EnvsOf(ns + [n]) == EnvsOf(ns) + if IsEnv(n) then ParseEnv(n) else []
    ensures UsersOf(ns + [n]) == UsersOf(ns) + if IsUser(n) then [ParseUser(n)] else []
  {
    assert (ns + [n])[..|ns|] == ns;
  }

  /** One instruction appended to the stage or preamble it belongs to. */
  function Append(s: Stage, n: Node, inPreamble: bool): Stage {
    var s := s.(instructions := s.instructions + [n]);
    if IsEnv(n) then s.(envs := s.envs + ParseEnv(n))
    else if IsArg(n) then s.(args := s.args + [ParseArg(n)])
    else if IsUser(n) && !inPreamble then s.(users := s.users + [ParseUser(n)])
    else s
  }

  lemma AppendStage(s: Stage, n: Node)
    requires IsStage(s) && !IsFrom(n)
    ensures IsStage(Append(s, n, false))
  {
    var ns := s.instructions + [n];
    Extend(s.instructions, n);
    assert Append(s, n, false) == StageOf(ns);
  }

  lemma AppendPreamble(s: Stage, n: Node)
    requires s == PreambleOf(s.instructions)
    ensures Append(s, n, true) == PreambleOf(s.instructions + [n])
  {
    Extend(s.instructions, n);
  }

  lemma FirstStage(n: Node)
    requires IsFrom(n)
    ensures IsStage(StageOf([n]))
    ensures StageOf([n]) == Stage(ImageOf(n), TargetOf(n), [], [], [], [n])
  {
    assert [n][..0] == [];
    assert ArgsOf([n]) == ArgsOf([]) + [];
    assert EnvsOf([n]) == EnvsOf([]) + [];
    assert UsersOf([n]) == UsersOf([]) + [];
  }

  lemma FlatAppend(stages: seq<Stage>, s: Stage)
    ensures FlatStages(stages + [s]) == FlatStages(stages) + s.instructions
  {
    assert (stages + [s])[..|stages|] == stages;
  }

  lemma {:induction false} FromInFlat(stages: seq<Stage>)
    requires forall i :: 0 <= i < |stages| ==> IsStage(stages[i])
    requires stages != []
    ensures HasFrom(FlatStages(stages))
  {
    var last := stages[|stages| - 1];
    var before := FlatStages(stages[..|stages| - 1]);
    assert FlatStages(stages)[|before|] == last.instructions[0];
  }

  /** The preamble and stages built from the instructions `ns` read so far. */
  predicate Built(preamble: Stage, stages: seq<Stage>, ns: seq<Node>) {
    && NoFrom(preamble.instructions)
    && preamble == PreambleOf(preamble.instructions)
    && (forall i :: 0 <= i < |stages| ==> IsStage(stages[i]))
    && preamble.instructions + FlatStages(stages) == ns
  }

  lemma BuiltEmpty()
    ensures Built(Stage("", "", [], [], [], []), [], [])
  {
  }

  lemma BuiltFrom(preamble: Stage, stages: seq<Stage>, ns: seq<Node>, n: Node)
    requires Built(preamble, stages, ns) && IsFrom(n)
    ensures Built(preamble, stages + [StageOf([n])], ns + [n])
    ensures StageOf([n]) == Stage(ImageOf(n), TargetOf(n), [], [], [], [n])
  {
    FirstStage(n);
    FlatAppend(stages, StageOf([n]));
  }

  lemma BuiltInPreamble(preamble: Stage, ns: seq<Node>, n: Node)
    requires Built(preamble, [], ns) && !IsFrom(n)
    ensures Built(Append(preamble, n, true), [], ns + [n])
  {
    AppendPreamble(preamble, n);
  }

  lemma AppendInstructions(s: Stage, n: Node)
    ensures Append(s, n, false).instructions == s.instructions + [n]
  {
  }

  lemma BuiltInStage(preamble: Stage, stages: seq<Stage>, ns: seq<Node>, n: Node)
    requires Built(preamble, stages, ns) && !IsFrom(n) && stages != []
    ensures Built(preamble, stages[|stages| - 1 := Append(stages[|stages| - 1], n, false)], ns + [n])
  {
    hide IsStage, PreambleOf, NoFrom;
    var before, last := stages[..|stages| - 1], stages[|stages| - 1];
    AppendStage(last, n);
    AppendInstructions(last, n);
    FlatAppend(before, Append(last, n, false));
    assert stages[|stages| - 1 := Append(last, n, false)] == before + [Append(last, n, false)];
  }

  lemma BuiltHasFrom(preamble: Stage, stages: seq<Stage>, ns: seq<Node>)
    requires Built(preamble, stages, ns)
    ensures HasFrom(ns) <==> stages != []
  {
    if stages != [] {
      FromInFlat(stages);
      var j :| 0 <= j < |FlatStages(stages)| && IsFrom(FlatStages(stages)[j]);
      assert ns[|preamble.instructions| + j] == FlatStages(stages)[j];
    }
  }

  /** Every name of a stage is a key, for the last stage of that name. */
  predicate MapsToLast(stages: seq<Stage>, byTarget: map<string, nat>) {
    && (forall t :: t in byTarget ==> t != "" && byTarget[t] < |stages| && stages[byTarget[t]].target == t)
    && (forall i :: 0 <= i < |stages| && stages[i].target != "" ==>
          stages[i].target in byTarget && i <= byTarget[stages[i].target])
  }

  lemma {:induction false} TargetIndexLast(stages: seq<Stage>)
    ensures MapsToLast(stages, TargetIndex(stages))
  {
    if stages != [] {
      var init := stages[..|stages| - 1];
      TargetIndexLast(init);
      assert forall i :: 0 <= i < |init| ==> stages[i] == init[i];
    }
  }

  /** The loop of Parse that maps targets to stages. */
  method IndexTargets(stages: seq<Stage>) returns (byTarget: map<string, nat>)
    ensures byTarget == TargetIndex(stages) && MapsToLast(stages, byTarget)
  {
    byTarget := map[];
    for i := 0 to |stages|
      invariant byTarget == TargetIndex(stages[..i])
    {
      assert stages[..i + 1][..i] == stages[..i];
      if stages[i].target == "" {
        continue;
      }
      byTarget := byTarget[stages[i].target := i];
    }
    assert stages[..|stages|] == stages;
    TargetIndexLast(stages);
  }

  /** The body of Parse's loop: where one more instruction goes. */
  method PlaceInstruction(preamble: Stage, stages: seq<Stage>, n: Node, ghost ns: seq<Node>)
    returns (crash: bool, preamble': Stage, stages': seq<Stage>)
    requires Built(preamble, stages, ns) && n.Node?
    ensures crash <==> n.next.Nil? && (Is(n, "arg") || (Is(n, "user") && HasFrom(ns)))
    ensures !crash ==> Built(preamble', stages', ns + [n])
  {
    hide IsStage, FlatStages, PreambleOf, Append;
    crash, preamble', stages' := false, preamble, stages;
    assert HasFrom(ns) <==> stages != [] by {
      BuiltHasFrom(preamble, stages, ns);
    }
    if IsFrom(n) {
      BuiltFrom(preamble, stages, ns, n);
      stages' := stages + [Stage(ImageOf(n), TargetOf(n), [], [], [], [n])];
    } else if stages == [] {
      BuiltInPreamble(preamble, ns, n);
      crash := Is(n, "arg") && n.next.Nil?;
      preamble' := Append(preamble, n, true);
    } else {
      BuiltInStage(preamble, stages, ns, n);
      crash := (Is(n, "arg") || Is(n, "user")) && n.next.Nil?;
      stages' := stages[|stages| - 1 := Append(stages[|stages| - 1], n, false)];
    }
  }

  /** Parse, from the instruction nodes on. */
  method Parse(instructions: seq<Node>) returns (r: ParseResult)
    requires forall k :: 0 <= k < |instructions| ==> instructions[k].Node?
    ensures r.EmptyFile? <==> instructions == []
    ensures r.NilDereference? <==>
            exists k :: 0 <= k < |instructions| && Dereferences(instructions, k)
    ensures r.Parsed? ==> Shaped(r.file) && Flat(r.file) == instructions
  {
    if |instructions| == 0 {
      return EmptyFile;
    }
    BuiltEmpty();
    hide IsStage, FlatStages, PreambleOf, HasFrom;
    var preamble := Stage("", "", [], [], [], []);
    var stages: seq<Stage> := [];
    for k := 0 to |instructions|
      invariant Built(preamble, stages, instructions[..k])
      invariant forall i :: 0 <= i < k ==> !Dereferences(instructions, i)
    {
      var crash;
      crash, preamble, stages := PlaceInstruction(preamble, stages, instructions[k], instructions[..k]);
      assert instructions[..k + 1] == instructions[..k] + [instructions[k]];
      if crash {
        assert Dereferences(instructions, k);
        return NilDereference;
      }
    }
    assert instructions[..|instructions|] == instructions;
    var byTarget := IndexTargets(stages);
    r := Parsed(Dockerfile(preamble, stages, byTarget));
  }

  // ---- the parse is determined by the instructions ----

  lemma SharedElement(a: seq<Node>, b: seq<Node>, a': seq<Node>, b': seq<Node>)
    requires a + b == a' + b' && |a| < |a'| && b' != []
    ensures |a'| - |a| < |b| && b[|a'| - |a|] == b'[0]
  {
    assert (a + b)[|a'|] == b'[0];
  }

  lemma LastStageStart(before: seq<Node>, s: Stage, before': seq<Node>, s': Stage)
    requires IsStage(s) && IsStage(s') && before + s.instructions == before' + s'.instructions
    ensures s == s' && before == before'
  {
    var ns, ns' := s.instructions, s'.instructions;
    if |before| < |before'| {
      SharedElement(before, ns, before', ns');
      assert false;
    } else if |before'| < |before| {
      SharedElement(before', ns', before, ns);
      assert false;
    }
    var whole := before + ns;
    assert before == whole[..|before|] && before' == whole[..|before'|];
    assert ns == whole[|before|..] && ns' == whole[|before'|..];
  }

  lemma PartitionHasFrom(p: seq<Node>, ss: seq<Stage>)
    requires NoFrom(p) && forall i :: 0 <= i < |ss| ==> IsStage(ss[i])
    ensures HasFrom(p + FlatStages(ss)) <==> ss != []
  {
    BuiltHasFrom(PreambleOf(p), ss, p + FlatStages(ss));
  }

  lemma {:induction false} PartitionUnique(p: seq<Node>, ss: seq<Stage>, p': seq<Node>, ss': seq<Stage>)
    requires NoFrom(p) && forall i :: 0 <= i < |ss| ==> IsStage(ss[i])
    requires NoFrom(p') && forall i :: 0 <= i < |ss'| ==> IsStage(ss'[i])
    requires p + FlatStages(ss) == p' + FlatStages(ss')
    ensures p == p' && ss == ss'
  {
    hide IsStage, NoFrom;
    PartitionHasFrom(p, ss);
    PartitionHasFrom(p', ss');
    if ss == [] {
      assert p + [] == p && p' + [] == p';
    } else {
      var init, last := ss[..|ss| - 1], ss[|ss| - 1];
      var init', last' := ss'[..|ss'| - 1], ss'[|ss'| - 1];
      assert p + FlatStages(ss) == p + FlatStages(init) + last.instructions;
      assert p' + FlatStages(ss') == p' + FlatStages(init') + last'.instructions;
      LastStageStart(p + FlatStages(init), last, p' + FlatStages(init'), last');
      PartitionUnique(p, init, p', init');
      assert ss == init + [last] && ss' == init' + [last'];
    }
  }

  /** Only one Dockerfile value has the shape Parse promises for given instructions. */
  lemma ParseUnique(d: Dockerfile, d': Dockerfile)
    requires Shaped(d) && Shaped(d') && Flat(d) == Flat(d')
    ensures d == d'
  {
    PartitionUnique(d.preamble.instructions, d.stages, d'.preamble.instructions, d'.stages);
  }
}
