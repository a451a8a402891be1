/**
 Why FROMs must not go in a circle: the guard against revisiting stages is made afresh for every
 lookup, so two stages that refer to each other send findValue and replaceVariables round for ever.
 */
module DockerfileCycle {
  import opened Text
  import opened DockerfileSyntax
  import opened Dockerfile
  import opened DockerfileScope
  import opened DockerfileBindings
  import opened DockerfileSearch
  import opened DockerfileEnds
  import opened DockerfileSamples

  const FIRST := [FromAs("b", "a", 1), Env("X", "$Y", 2)]
  const SECOND := [FromAs("a", "b", 3), Env("Y", "$X", 4)]

  /** FROM b AS a / ENV X=$Y / FROM a AS b / ENV Y=$X */
  const CYCLIC := File([], [StageOf(FIRST), StageOf(SECOND)])

  /** What the search sees of the file. */
  predicate Cyclic(d: Dockerfile) {
    && Indexed(d) && |d.stages| == 2 && d.byTarget == map["a" := 0, "b" := 1]
    && EndLine(d, 0) == 3 && EndLine(d, 1) == 5
    && d.stages[0] == Stage("b", "a", [], [KeyValue("X", "$Y", 2)], [], d.stages[0].instructions)
    && d.stages[1] == Stage("a", "b", [], [KeyValue("Y", "$X", 4)], [], d.stages[1].instructions)
  }

  /** The cyclic file is what Parse makes of those four instructions. */
  lemma CyclicIsParsed()
    ensures Cyclic(CYCLIC) && InOrder(CYCLIC) && Flat(CYCLIC) == FIRST + SECOND
  {
    hide StageOf, IsStage, FlatStages, TargetIndex;
    OneEnvStage("b", "a", "X", "$Y", 1);
    OneEnvStage("a", "b", "Y", "$X", 3);
    TwoStageFile(StageOf(FIRST), StageOf(SECOND));
    InOrderIndexed(CYCLIC);
  }

  /** The variable that stage i sets and the one it refers to. */
  function Own(i: nat): string {
    if i == 0 then "X" else "Y"
  }

  function Other(i: nat): string {
    if i == 0 then "Y" else "X"
  }

  lemma Identities(d: Dockerfile)
    requires Cyclic(d)
    ensures StageId(d.stages[0]) != StageId(d.stages[1])
  {
    hide Indexed;
    assert StageId(d.stages[0])[0] == 'b' && StageId(d.stages[1])[0] == 'a';
  }

  lemma ScanName(c: char)
    requires IsNameChar(c)
    ensures Scan(['$', c]) == [Ref(false, [c], None, false)]
  {
    var s := ['$', c];
    assert s[1..] == [c] && c != '{';
    assert ScanOptional([c], '{') == (false, [c]);
    assert NameLength([c]) == 1 + NameLength([c][1..]) && NameLength("") == 0;
    assert [c][1..] == "" && [c][..1] == [c];
    assert ScanAlternative("") == (None, "");
    assert ScanRef(s) == Some((Ref(false, [c], None, false), ""));
  }

  /** A text that is one reference is replaced by what the lookup answers. */
  lemma ReplaceRef(d: Dockerfile, buildArgs: Vars, baseEnv: Vars, c: char, place: Place, line: nat, fuel: nat)
    requires Indexed(d) && InFile(d, place) && IsNameChar(c)
    requires Search(d, buildArgs, baseEnv, Ask([c], place, line), fuel) == None
    ensures Replace(d, buildArgs, baseEnv, Scan(['$', c]), place, line, fuel) == None
  {
    hide Search, Indexed, Scan;
    var p := Ref(false, [c], None, false);
    ScanName(c);
    ReplaceSnoc(d, buildArgs, baseEnv, [], place, line, p, fuel);
    assert [] + [p] == [p];
  }

  /** What the lookup of the other stage's variable, just before the one ENV of stage i, meets. */
  lemma Rounds(d: Dockerfile, buildArgs: Vars, i: nat)
    requires Cyclic(d) && i < 2
    ensures var q := Ask(Other(i), AtStage(i), 2 * i + 2);
            var q' := Onward(d, q, d.stages[i].image);
            && !Stopped(d, q) && Found(d, buildArgs, q) == Unset
            && q'.place == AtStage(1 - i) && !Stopped(d, q')
            && Found(d, buildArgs, q') == SetTo("$" + Own(i), 4 - 2 * i, false)
  {
    hide StageId, Indexed, LastEnvIndex;
    var q := Ask(Other(i), AtStage(i), 2 * i + 2);
    var q' := Onward(d, q, d.stages[i].image);
    Identities(d);
    OneEnv(d.stages[i].envs[0], Other(i), q.line);
    OneEnv(d.stages[1 - i].envs[0], Other(i), q'.line);
  }

  /** No amount of fuel answers the lookup in either stage. */
  lemma {:induction false} CycleNeverAnswers(d: Dockerfile, buildArgs: Vars, baseEnv: Vars, i: nat, fuel: nat)
    requires Cyclic(d) && i < 2
    ensures Search(d, buildArgs, baseEnv, Ask(Other(i), AtStage(i), 2 * i + 2), fuel) == None
    decreases fuel
  {
    hide StageId, Indexed, BindingAt, Scan, Replace, Onward;
    var q := Ask(Other(i), AtStage(i), 2 * i + 2);
    Rounds(d, buildArgs, i);
    if fuel > 0 {
      ReplaceSame(d, buildArgs, baseEnv, d.stages[i].image, AtPreamble, FromLine(d), fuel - 1);
      if fuel > 1 {
        CycleNeverAnswers(d, buildArgs, baseEnv, 1 - i, fuel - 2);
        assert Other(1 - i) == Own(i) == [Own(i)[0]] && "$" + Own(i) == ['$', Own(i)[0]];
        ReplaceRef(d, buildArgs, baseEnv, Own(i)[0], AtStage(1 - i), 4 - 2 * i, fuel - 2);
      }
    }
  }

  lemma CycleHasNoAnswer(d: Dockerfile, buildArgs: Vars, baseEnv: Vars, i: nat, r: string)
    requires Cyclic(d) && i < 2
    ensures !Answers(d, buildArgs, baseEnv, Ask(Other(i), AtStage(i), 2 * i + 2), r)
  {
    hide Search, Indexed;
    var q := Ask(Other(i), AtStage(i), 2 * i + 2);
    forall fuel: nat ensures Search(d, buildArgs, baseEnv, q, fuel) != Some(r) {
      CycleNeverAnswers(d, buildArgs, baseEnv, i, fuel);
    }
  }

  /** Each of the two lookups leads back to itself. */
  lemma CycleIsCircular(d: Dockerfile, buildArgs: Vars, baseEnv: Vars, i: nat)
    requires Cyclic(d) && i < 2
    ensures Circular(d, buildArgs, baseEnv, Key(Other(i), AtStage(i), 2 * i + 2))
  {
    hide Answers, Indexed, Circular;
    var x := Key(Other(i), AtStage(i), 2 * i + 2);
    AnswersIff(d, buildArgs, baseEnv, x);
    if HasAnswer(d, buildArgs, baseEnv, x) {
      var r :| Answers(d, buildArgs, baseEnv, AskFor(x), r);
      CycleHasNoAnswer(d, buildArgs, baseEnv, i, r);
    }
  }
}
