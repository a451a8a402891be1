/**
 Why the unnamed final stage must have an identity of its own: naming it changes that identity, so
 the guard can stop the search for a user in the original file and not in the rewritten one.
 */
module DockerfileRejoin {
  import opened DockerfileSyntax
  import opened Dockerfile
  import opened DockerfileScope
  import opened DockerfileSearch
  import opened DockerfileSamples
  import opened DockerfileRename

  const LOW := [FromAs("a", "b-", 1), User("u", 2)]
  const MIDDLE := [FromAs("b-", "a-b", 3)]
  const HIGH := [From("a-b", 4)]

  /** FROM a AS b- / USER u / FROM b- AS a-b / FROM a-b */
  const REJOINING := File([], [StageOf(LOW), StageOf(MIDDLE), StageOf(HIGH)])

  predicate Rejoins(d: Dockerfile) {
    && InOrder(d) && Indexed(d) && |d.stages| == 3 && d.byTarget == map["b-" := 0, "a-b" := 1]
    && d.stages[0] == Stage("a", "b-", [], [], [KeyValue("u", "", 2)], d.stages[0].instructions)
    && d.stages[1] == Stage("b-", "a-b", [], [], [], d.stages[1].instructions)
    && d.stages[2] == Stage("a-b", "", [], [], [], d.stages[2].instructions)
    && d.stages[2].instructions[0].next.Node?
  }

  lemma Lists()
    ensures StageOf(LOW) == Stage("a", "b-", [], [], [KeyValue("u", "", 2)], LOW) && IsStage(StageOf(LOW))
    ensures StageOf(MIDDLE) == Stage("b-", "a-b", [], [], [], MIDDLE) && IsStage(StageOf(MIDDLE))
    ensures StageOf(HIGH) == Stage("a-b", "", [], [], [], HIGH) && IsStage(StageOf(HIGH))
  {
    hide IsFrom, IsEnv, IsArg, IsUser, ImageOf, TargetOf, FromAs, From, User;
    FromRead("a", "b-", 1);
    FromRead("b-", "a-b", 3);
    FromRead("a-b", "", 4);
    UserRead("u", 2);
    FirstStage(LOW[0]);
    FirstStage(MIDDLE[0]);
    FirstStage(HIGH[0]);
    assert LOW == [LOW[0]] + [LOW[1]] && MIDDLE == [MIDDLE[0]] && HIGH == [HIGH[0]];
    Extend([LOW[0]], LOW[1]);
  }

  lemma ThreeStages(s: Stage, t: Stage, u: Stage)
    requires s.target != "" && t.target != "" && s.target != t.target && u.target == ""
    ensures FlatStages([s, t, u]) == s.instructions + t.instructions + u.instructions
    ensures TargetIndex([s, t, u]) == map[s.target := 0, t.target := 1]
  {
    TwoStages(s, t);
    assert [s, t, u][..2] == [s, t];
  }

  lemma ThreeStageFile(s: Stage, t: Stage, u: Stage)
    requires IsStage(s) && IsStage(t) && IsStage(u)
    requires s.target != "" && t.target != "" && s.target != t.target && u.target == ""
    ensures var d := File([], [s, t, u]);
            && Shaped(d) && Flat(d) == s.instructions + t.instructions + u.instructions
            && d.byTarget == map[s.target := 0, t.target := 1]
  {
    hide IsStage, FlatStages, TargetIndex;
    ThreeStages(s, t, u);
    var all := s.instructions + t.instructions + u.instructions;
    assert [] + all == all;
  }

  lemma InLineOrder()
    ensures Ordered(LOW + MIDDLE + HIGH)
  {
    assert LOW + MIDDLE + HIGH == [LOW[0], LOW[1], MIDDLE[0], HIGH[0]];
  }

  lemma RejoiningParsed()
    ensures Rejoins(REJOINING) && Flat(REJOINING) == LOW + MIDDLE + HIGH
  {
    hide StageOf, IsStage, FlatStages, TargetIndex, Ordered, NoFrom, Indexed;
    Lists();
    InLineOrder();
    ThreeStageFile(StageOf(LOW), StageOf(MIDDLE), StageOf(HIGH));
    InOrderIndexed(REJOINING);
  }

  lemma Identities(d: Dockerfile)
    requires Rejoins(d)
    ensures StageId(d.stages[0]) == StageId(d.stages[2]) != StageId(d.stages[1])
    ensures forall name :: name != "" ==>
              StageId(d.stages[0]) != "a-b" + "-" + name && StageId(d.stages[1]) != "a-b" + "-" + name
  {
    hide InOrder, Indexed;
    assert StageId(d.stages[0]) == "a-b-" == StageId(d.stages[2]);
    assert StageId(d.stages[1])[0] == 'b';
    forall name | name != "" ensures |"a-b" + "-" + name| > 4 && ("a-b" + "-" + name)[0] == 'a' {
    }
  }

  /** In the original file the search meets the identity of the final stage again, and gives up. */
  lemma OriginalLosesUser(d: Dockerfile, buildArgs: Vars, baseEnv: Vars)
    requires Rejoins(d)
    ensures UserAnswers(d, buildArgs, baseEnv, 2, {}, "")
  {
    hide InOrder, Indexed, StageId, Replace, Scan, UserAnswers;
    Identities(d);
    var seen := {} + {StageId(d.stages[2])};
    ReplaceSame(d, buildArgs, baseEnv, "a-b", AtPreamble, FromLine(d), 0);
    ReplaceSame(d, buildArgs, baseEnv, "b-", AtPreamble, FromLine(d), 0);
    UserStopped(d, buildArgs, baseEnv, 0, seen + {StageId(d.stages[1])});
    UserOnward(d, buildArgs, baseEnv, 1, seen, "b-", "");
    UserOnward(d, buildArgs, baseEnv, 2, {}, "a-b", "");
  }

  /** In the rewritten file it reaches the USER. */
  lemma RenamedFindsUser(d: Dockerfile, buildArgs: Vars, baseEnv: Vars, name: string)
    requires Rejoins(d) && name != "" && name != "b-" && name != "a-b"
    ensures UserAnswers(Renamed(d, name), buildArgs, baseEnv, 2, {}, "u")
  {
    hide Ordered, FlatStages, IsStage, NoFrom, PreambleOf, TargetIndex, Indexed, StageId, Replace, Scan, UserAnswers,
         Renamed;
    var d' := Renamed(d, name);
    RenamedShaped(d, name);
    RenamedInOrder(d, name);
    InOrderIndexed(d');
    Identities(d);
    RenamedId(d, name, AtStage(0));
    RenamedId(d, name, AtStage(1));
    RenamedId(d, name, AtStage(2));
    assert d'.stages[0] == d'.stages[..2][0] == d.stages[0] && d'.stages[1] == d'.stages[..2][1] == d.stages[1];
    var seen := {} + {StageId(d'.stages[2])};
    ReplaceSame(d', buildArgs, baseEnv, "a-b", AtPreamble, FromLine(d'), 0);
    ReplaceSame(d', buildArgs, baseEnv, "b-", AtPreamble, FromLine(d'), 0);
    ReplaceSame(d', buildArgs, baseEnv, "u", AtStage(0), 2, 0);
    UserFound(d', buildArgs, baseEnv, 0, seen + {StageId(d'.stages[1])}, "u");
    UserOnward(d', buildArgs, baseEnv, 1, seen, "b-", "u");
    UserOnward(d', buildArgs, baseEnv, 2, {}, "a-b", "u");
  }
}
