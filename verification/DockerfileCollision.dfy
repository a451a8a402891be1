/**
 Identities are not unique: two stages of one chain that share theirs make the search give up before
 it reaches the value, and the user, that are in force.
 */
module DockerfileCollision {
  import opened Text
  import opened DockerfileSyntax
  import opened Dockerfile
  import opened DockerfileScope
  import opened DockerfileSearch
  import opened DockerfileExact
  import opened DockerfileSamples

  const BASE := [FromAs("a-b", "a", 1), Env("X", "1", 2), User("u", 3)]
  const TOP := [FromAs("a", "b-a", 4)]

  /** FROM a-b AS a / ENV X=1 / USER u / FROM a AS b-a */
  const COLLIDING := File([], [StageOf(BASE), StageOf(TOP)])

  lemma Lists()
    ensures StageOf(BASE) == Stage("a-b", "a", [], [KeyValue("X", "1", 2)], [KeyValue("u", "", 3)], BASE)
    ensures StageOf(TOP) == Stage("a", "b-a", [], [], [], TOP)
    ensures IsStage(StageOf(BASE)) && IsStage(StageOf(TOP))
  {
    hide IsFrom, IsEnv, IsArg, IsUser, ParseEnv, ImageOf, TargetOf, FromAs, Env, User;
    var from, env, user := BASE[0], BASE[1], BASE[2];
    FromRead("a-b", "a", 1);
    FromRead("a", "b-a", 4);
    EnvRead("X", "1", 2);
    UserRead("u", 3);
    FirstStage(from);
    FirstStage(TOP[0]);
    assert BASE == [from] + [env] + [user] && TOP == [TOP[0]];
    Extend([from], env);
    Extend([from] + [env], user);
  }

  /** What the search sees of the file. */
  predicate Collides(d: Dockerfile) {
    && InOrder(d) && Indexed(d) && |d.stages| == 2 && EndLine(d, 0) == 4 && d.byTarget == map["a" := 0, "b-a" := 1]
    && d.stages[0] == Stage("a-b", "a", [], [KeyValue("X", "1", 2)], [KeyValue("u", "", 3)], d.stages[0].instructions)
    && d.stages[1] == Stage("a", "b-a", [], [], [], d.stages[1].instructions)
  }

  lemma CollidingParsed()
    ensures Collides(COLLIDING) && Flat(COLLIDING) == BASE + TOP
  {
    hide StageOf, IsStage, FlatStages, TargetIndex;
    Lists();
    TwoStageFile(StageOf(BASE), StageOf(TOP));
    InOrderIndexed(COLLIDING);
  }

  lemma Parents(d: Dockerfile, buildArgs: Vars, baseEnv: Vars)
    requires Collides(d)
    ensures Parent(d, buildArgs, baseEnv, 0) == None && Parent(d, buildArgs, baseEnv, 1) == Some(0)
    ensures EarlierParents(d, buildArgs, baseEnv)
  {
    hide Parent, IsStage, NoFrom, FlatStages, Ordered, PreambleOf, TargetIndex;
    PlainParent(d, buildArgs, baseEnv, 0);
    PlainParent(d, buildArgs, baseEnv, 1);
  }

  lemma SameIdentity(d: Dockerfile)
    requires Collides(d)
    ensures StageId(d.stages[0]) == StageId(d.stages[1])
  {
    hide InOrder, Indexed;
    assert StageId(d.stages[0]) == "a-b-a" && StageId(d.stages[1]) == "a-b-a";
  }

  /** Run forward, the second stage has the X of the first. */
  lemma ForwardValue(d: Dockerfile, buildArgs: Vars, baseEnv: Vars, line: nat)
    requires Collides(d)
    ensures Searchable(d, buildArgs, baseEnv, AtStage(1))
    ensures Forward(d, buildArgs, baseEnv, Ask("X", AtStage(1), line)) == "1"
  {
    hide Forward, Ordered, FlatStages, IsStage, NoFrom, TargetIndex, PreambleOf, Indexed, Expand, ScopeAt, StageId,
         BaseName;
    Parents(d, buildArgs, baseEnv);
    var q := Ask("X", AtStage(1), line);
    var q' := Next(d, buildArgs, baseEnv, q);
    OneEnv(d.stages[0].envs[0], "X", q'.line);
    FoundForward(d, buildArgs, baseEnv, q);
    FoundForward(d, buildArgs, baseEnv, q');
    ExpandSame("1", Visible(ScopeAt(d, buildArgs, baseEnv, AtStage(0), 2)));
  }

  /** And the user of the first. */
  lemma ForwardUser(d: Dockerfile, buildArgs: Vars, baseEnv: Vars)
    requires Collides(d)
    ensures End(d, buildArgs, baseEnv, 1).user == "u"
  {
    hide Ordered, FlatStages, IsStage, NoFrom, TargetIndex, PreambleOf, Indexed, Expand, ScopeAt, End, Parent;
    Parents(d, buildArgs, baseEnv);
    UserForward(d, buildArgs, baseEnv, 1);
    UserForward(d, buildArgs, baseEnv, 0);
    ExpandSame("u", Visible(ScopeAt(d, buildArgs, baseEnv, AtStage(0), 3)));
  }

  /** The search for X gives up at the first stage, whose identity it has seen. */
  lemma CollisionLosesValue(d: Dockerfile, buildArgs: Vars, baseEnv: Vars, line: nat)
    requires Collides(d)
    ensures Answers(d, buildArgs, baseEnv, Ask("X", AtStage(1), line), "")
    ensures Get(Visible(ScopeAt(d, buildArgs, baseEnv, AtStage(1), line)), "X") == "1"
  {
    hide Ordered, FlatStages, IsStage, NoFrom, TargetIndex, PreambleOf, Indexed, ScopeAt, StageId, Replace, Scan;
    var q := Ask("X", AtStage(1), line);
    ForwardValue(d, buildArgs, baseEnv, line);
    SameIdentity(d);
    ReplaceSame(d, buildArgs, baseEnv, "a", AtPreamble, FromLine(d), 0);
    StoppedAnswers(d, buildArgs, baseEnv, Onward(d, q, "a"));
    OnwardAnswers(d, buildArgs, baseEnv, q, "a", "");
  }

  /** So does the search for the user. */
  lemma CollisionLosesUser(d: Dockerfile, buildArgs: Vars, baseEnv: Vars)
    requires Collides(d)
    ensures UserAnswers(d, buildArgs, baseEnv, 1, {}, "")
    ensures End(d, buildArgs, baseEnv, 1).user == "u"
  {
    hide Ordered, FlatStages, IsStage, NoFrom, TargetIndex, PreambleOf, Indexed, StageId, Replace, Scan;
    ForwardUser(d, buildArgs, baseEnv);
    SameIdentity(d);
    ReplaceSame(d, buildArgs, baseEnv, "a", AtPreamble, FromLine(d), 0);
    UserStopped(d, buildArgs, baseEnv, 0, {} + {StageId(d.stages[1])});
    UserOnward(d, buildArgs, baseEnv, 1, {}, "a", "");
  }
}
