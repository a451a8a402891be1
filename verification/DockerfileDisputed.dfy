/** A file on which the code and the Dockerfile reference differ, on an ENV and on an ARG of the preamble. */
module DockerfileDisputed {
  import opened Text
  import opened DockerfileSyntax
  import opened Dockerfile
  import opened DockerfileScope
  import opened DockerfileBindings
  import opened DockerfileSearch
  import opened DockerfileExact
  import opened DockerfileSamples
  import opened DockerfileRules

  const HEAD := [Arg("A", "1", 1)]
  const BODY := [From("i", 2), Arg("X", "1", 3), Env("X", "2", 4)]

  /** ARG A=1 / FROM i / ARG X=1 / ENV X=2 */
  const DISPUTED := File(HEAD, [StageOf(BODY)])

  /** What both evaluators see of the file. */
  predicate Disputed(d: Dockerfile) {
    && InOrder(d) && Indexed(d) && |d.stages| == 1 && d.byTarget == map[] && FromLine(d) == 2
    && d.preamble == Stage("", "", [KeyValue("A", "1", 1)], [], [], HEAD)
    && d.stages[0].image == "i" && d.stages[0].target == ""
    && d.stages[0].args == [KeyValue("X", "1", 3)] && d.stages[0].envs == [KeyValue("X", "2", 4)]
    && d.stages[0].instructions == BODY
  }

  lemma Lists()
    ensures PreambleOf(HEAD) == Stage("", "", [KeyValue("A", "1", 1)], [], [], HEAD) && NoFrom(HEAD)
    ensures StageOf(BODY) == Stage("i", "", [KeyValue("X", "1", 3)], [KeyValue("X", "2", 4)], [], BODY)
    ensures IsStage(StageOf(BODY))
  {
    hide IsFrom, IsEnv, IsArg, IsUser, ParseEnv, ParseArg, ImageOf, TargetOf, From, Env, Arg;
    FromRead("i", "", 2);
    ArgRead("A", "1", 1);
    ArgRead("X", "1", 3);
    EnvRead("X", "2", 4);
    FirstStage(BODY[0]);
    assert HEAD == [] + [HEAD[0]] && BODY == [BODY[0]] + [BODY[1]] + [BODY[2]];
    Extend([], HEAD[0]);
    Extend([BODY[0]], BODY[1]);
    Extend([BODY[0]] + [BODY[1]], BODY[2]);
  }

  lemma OneStage(s: Stage)
    ensures FlatStages([s]) == s.instructions
    ensures s.target == "" ==> TargetIndex([s]) == map[]
  {
    assert [s][..0] == [];
    assert FlatStages([s]) == FlatStages([]) + s.instructions;
  }

  lemma DisputedParsed()
    ensures Disputed(DISPUTED) && Flat(DISPUTED) == HEAD + BODY
  {
    hide StageOf, PreambleOf, IsStage, FlatStages, TargetIndex, NoFrom;
    Lists();
    OneStage(StageOf(BODY));
    assert HEAD + BODY == [HEAD[0], BODY[0], BODY[1], BODY[2]];
    InOrderIndexed(DISPUTED);
  }

  lemma OneArg(a: KeyValue, variable: string, line: nat, buildArgs: Vars)
    ensures LastArgIndex([a], variable, line, buildArgs) == if Binds(a, variable, line, buildArgs) then 0 else -1
  {
    assert [a][..0] == [];
  }

  lemma NoParent(d: Dockerfile, buildArgs: Vars, baseEnv: Vars)
    requires Disputed(d)
    ensures Parent(d, buildArgs, baseEnv, 0) == None && EarlierParents(d, buildArgs, baseEnv)
  {
    hide BaseName, IsStage, FlatStages, Ordered, NoFrom, TargetIndex;
  }

  /** The code reads the ARG of the stage, not the ENV behind it. */
  lemma CodeReadsArg(d: Dockerfile, buildArgs: Vars, baseEnv: Vars)
    requires Disputed(d) && Get(buildArgs, "X") == ""
    ensures Answers(d, buildArgs, baseEnv, Ask("X", AtStage(0), 5), "1")
  {
    hide Ordered, FlatStages, IsStage, NoFrom, TargetIndex, PreambleOf, Indexed, Replace, Scan, StageId, Unquote, BODY,
         HEAD;
    var q := Ask("X", AtStage(0), 5);
    OneArg(d.stages[0].args[0], "X", 5, buildArgs);
    ReplaceSame(d, buildArgs, baseEnv, "1", AtStage(0), 3, 0);
    NeatKept("1");
    TextAnswers(d, buildArgs, baseEnv, q, "1");
  }

  /** The code reads the ARG of the preamble, which the stage has not declared. */
  lemma CodeReadsGlobal(d: Dockerfile, buildArgs: Vars, baseEnv: Vars)
    requires Disputed(d) && Get(buildArgs, "A") == ""
    ensures Answers(d, buildArgs, baseEnv, Ask("A", AtStage(0), 5), "1")
  {
    hide Ordered, FlatStages, IsStage, NoFrom, TargetIndex, PreambleOf, Indexed, Replace, Scan, Unquote, BODY, HEAD;
    var q := Ask("A", AtStage(0), 5);
    var q' := Onward(d, q, "i");
    OneArg(d.stages[0].args[0], "A", 5, buildArgs);
    OneEnv(d.stages[0].envs[0], "A", 5);
    OneArg(d.preamble.args[0], "A", 2, buildArgs);
    assert StageId(d.preamble) == "-" && |StageId(d.stages[0])| == 2;
    ReplaceSame(d, buildArgs, baseEnv, "i", AtPreamble, FromLine(d), 0);
    ReplaceSame(d, buildArgs, baseEnv, "1", AtPreamble, 1, 0);
    NeatKept("1");
    TextAnswers(d, buildArgs, baseEnv, q', "1");
    OnwardAnswers(d, buildArgs, baseEnv, q, "i", "1");
  }

  lemma OnePair(key: string, value: string, line: nat, vars: Vars)
    requires '$' !in value && value != ""
    ensures BindEnvs([KeyValue(key, value, line)], vars) == map[key := value]
  {
    hide Expand;
    assert [KeyValue(key, value, line)][..0] == [];
    ExpandSame(value, vars);
  }

  lemma RuleSnoc(ns: seq<Node>, n: Node, s: Scope, buildArgs: Vars, globals: Vars)
    ensures RuleRun(ns + [n], s, buildArgs, globals)
            == RuleExec(n, RuleRun(ns, s, buildArgs, globals), buildArgs, globals)
    ensures RuleRun([], s, buildArgs, globals) == s
  {
    assert (ns + [n])[..|ns|] == ns;
  }

  /** By the rules a stage ends with what its instructions add to the preamble's environment. */
  lemma RuleBody(s: Scope, buildArgs: Vars, globals: Vars)
    requires s.args == map[]
    ensures var t := RuleRun(BODY, s, buildArgs, globals);
            t.args.Keys == {"X"} && t.env == s.env["X" := "2"]
  {
    hide IsFrom, IsEnv, IsArg, IsUser, ParseEnv, ParseArg, From, Env, Arg, BindEnvs, ArgValue, RuleRun;
    FromRead("i", "", 2);
    ArgRead("X", "1", 3);
    EnvRead("X", "2", 4);
    FromIsNothingElse("i", 2);
    var from, arg, env := BODY[0], BODY[1], BODY[2];
    assert BODY == [] + [from] + [arg] + [env];
    RuleSnoc([], from, s, buildArgs, globals);
    RuleSnoc([] + [from], arg, s, buildArgs, globals);
    RuleSnoc([] + [from] + [arg], env, s, buildArgs, globals);
    var s2 := RuleRun([] + [from] + [arg], s, buildArgs, globals);
    OnePair("X", "2", 4, RuleVisible(s2));
    assert s2.env + map["X" := "2"] == s.env["X" := "2"];
  }

  lemma FromIsNothingElse(image: string, line: nat)
    ensures !IsArg(From(image, line)) && !IsEnv(From(image, line)) && !IsUser(From(image, line))
  {
    hide ToLower;
    Keywords();
  }

  lemma HeadKeepsEnv(baseEnv: Vars, buildArgs: Vars)
    ensures Run(HEAD, Scope(map[], baseEnv, ""), buildArgs).env == baseEnv
  {
    hide IsEnv, IsArg, IsUser, ParseArg, Arg, ArgValue;
    ArgRead("A", "1", 1);
    assert HEAD[..0] == [];
  }

  /** The reference reads the ENV, and only the base image's A. */
  lemma ReferenceValues(d: Dockerfile, buildArgs: Vars, baseEnv: Vars)
    requires Disputed(d)
    ensures Get(RuleVisible(RuleAt(d, buildArgs, baseEnv, 0, 5)), "X") == "2"
    ensures Get(RuleVisible(RuleAt(d, buildArgs, baseEnv, 0, 5)), "A") == Get(baseEnv, "A")
  {
    hide Ordered, FlatStages, IsStage, NoFrom, TargetIndex, PreambleOf, Indexed, Parent, Run, RuleRun, HEAD;
    NoParent(d, buildArgs, baseEnv);
    HeadKeepsEnv(baseEnv, buildArgs);
    assert BODY[2].startLine == 4 && Before(BODY, 5) == BODY;
    RuleBody(RuleStart(d, buildArgs, baseEnv, 0), buildArgs, PreambleEnd(d, buildArgs, baseEnv).args);
  }
}
