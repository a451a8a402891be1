/**
 The two questions asked of a parsed Dockerfile: which user does a target end with
 (FindUserStatement) and which image is it built on (FindBaseImage).
 */
module DockerfileQueries {
  import opened Text
  import opened DockerfileSyntax
  import opened Dockerfile
  import opened DockerfileScope
  import opened DockerfileSearch
  import opened DockerfileExact
  import opened DockerfileEnds
  import opened DockerfileFind
  import opened DockerfileTwins

  /** The stage a target names, the last one if it names none. */
  function Select(d: Dockerfile, target: string): (i: nat)
    requires Shaped(d) && d.stages != []
    ensures i < |d.stages|
  {
    if target in d.byTarget then d.byTarget[target] else |d.stages| - 1
  }

  // ---- FindUserStatement ----

  /**
   Ends exactly if the USER it comes to refers to nothing circular (UserAnswersIff). The user is the
   one in force at the end of the selected stage, unless the guard loses it on the way.
   */
  method FindUserStatement(d: Dockerfile, buildArgs: Vars, baseEnv: Vars, target: string) returns (r: string)
    requires Shaped(d) && Indexed(d) && !UserCircular(d, buildArgs, baseEnv, Select(d, target))
    ensures UserAnswers(d, buildArgs, baseEnv, Select(d, target), {}, r)
    ensures Searchable(d, buildArgs, baseEnv, AtStage(Select(d, target)))
            && KeptUser(d, buildArgs, baseEnv, Select(d, target), {}) ==>
              r == End(d, buildArgs, baseEnv, Select(d, target)).user
  {
    hide SearchUser, UserCircular, KeptUser, InOrder, End, Select, Shaped, Indexed;
    UserAnswersIff(d, buildArgs, baseEnv, Select(d, target));
    ghost var fuel: nat :| SearchUser(d, buildArgs, baseEnv, Select(d, target), {}, fuel).Some?;
    r := FindUserWithin(d, buildArgs, baseEnv, target, fuel);
    if Searchable(d, buildArgs, baseEnv, AtStage(Select(d, target))) {
      UserIff(d, buildArgs, baseEnv, Select(d, target), r);
    }
  }

  /** The loop of FindUserStatement, for a user that is found within some fuel. */
  method FindUserWithin(d: Dockerfile, buildArgs: Vars, baseEnv: Vars, target: string, ghost fuel: nat)
    returns (r: string)
    requires Shaped(d) && Indexed(d) && SearchUser(d, buildArgs, baseEnv, Select(d, target), {}, fuel).Some?
    ensures SearchUser(d, buildArgs, baseEnv, Select(d, target), {}, fuel) == Some(r)
  {
    hide Scan, StageId, IsStage, NoFrom, PreambleOf, TargetIndex, Replace;
    var i := |d.stages| - 1;
    if target in d.byTarget {
      i := d.byTarget[target];
    }
    var seenStages: set<string> := {};
    ghost var left: nat := fuel;
    while true
      invariant 0 <= i < |d.stages|
      invariant SearchUser(d, buildArgs, baseEnv, i, seenStages, left)
                == SearchUser(d, buildArgs, baseEnv, Select(d, target), {}, fuel)
      decreases left
    {
      var stage := d.stages[i];
      if StageId(stage) in seenStages {
        return "";
      }
      if |stage.users| > 0 {
        var lastUser := stage.users[|stage.users| - 1];
        r := ReplaceWithin(d, lastUser.key, buildArgs, baseEnv, AtStage(i), lastUser.line, left - 1);
        return;
      }
      if stage.image == "" {
        return "";
      }
      var image := ReplaceWithin(d, stage.image, buildArgs, baseEnv, AtPreamble, FromLine(d), left - 1);
      if image !in d.byTarget {
        return "";
      }
      seenStages := seenStages + {StageId(stage)};
      i, left := d.byTarget[image], left - 1;
    }
  }

  /** The last USER of a stage is the last of its users. */
  lemma {:induction false} LastUserListed(ns: seq<Node>, k: nat)
    requires k < |ns| && IsUser(ns[k]) && forall j :: k < j < |ns| ==> !IsUser(ns[j])
    ensures UsersOf(ns) != [] && UsersOf(ns)[|UsersOf(ns)| - 1] == ParseUser(ns[k])
  {
    if k < |ns| - 1 {
      LastUserListed(ns[..|ns| - 1], k);
    }
  }

  /** `USER name:group` and `USER name`: the code finds the name, for every group, build arg and base image. */
  lemma UserWithoutGroup(d: Dockerfile, buildArgs: Vars, baseEnv: Vars, i: nat, k: nat, name: string, group: string)
    requires Shaped(d) && Indexed(d) && i < |d.stages| && k < |d.stages[i].instructions|
    requires IsUser(d.stages[i].instructions[k])
    requires forall j :: k < j < |d.stages[i].instructions| ==> !IsUser(d.stages[i].instructions[j])
    requires ':' !in name && '$' !in name
    requires d.stages[i].instructions[k].next.value in {name, name + ":" + group}
    ensures UserAnswers(d, buildArgs, baseEnv, i, {}, name)
  {
    hide Replace, Scan, Indexed, UserAnswers;
    var n := d.stages[i].instructions[k];
    LastUserListed(d.stages[i].instructions, k);
    SplitPart(name, group, ':');
    assert name + [':'] + group == name + ":" + group;
    assert ([name] + Split(group, ':'))[0] == name;
    ReplaceSame(d, buildArgs, baseEnv, name, AtStage(i), n.startLine, 0);
    UserFound(d, buildArgs, baseEnv, i, {}, name);
  }

  // ---- FindBaseImage ----

  /** A walk along FROMs that meets no stage twice. */
  predicate IsWalk(d: Dockerfile, buildArgs: Vars, walk: seq<nat>)
    requires Shaped(d)
  {
    && walk != []
    && (forall k :: 0 <= k < |walk| ==> walk[k] < |d.stages|)
    && (forall j, k :: 0 <= j < k < |walk| ==> walk[j] != walk[k])
    && (forall k :: 0 < k < |walk| ==> Parent(d, buildArgs, map[], walk[k - 1]) == Some(walk[k]))
  }

  /** `r` is what a walk ends with: the first name that is no stage, or "" if a stage comes again. */
  predicate WalkEnds(d: Dockerfile, buildArgs: Vars, walk: seq<nat>, r: string)
    requires Shaped(d) && IsWalk(d, buildArgs, walk)
  {
    var last := walk[|walk| - 1];
    match Parent(d, buildArgs, map[], last)
    case None => r == BaseName(d, buildArgs, map[], last)
    case Some(j) => j in walk && r == ""
  }

  ghost predicate IsBaseImage(d: Dockerfile, buildArgs: Vars, first: nat, r: string)
    requires Shaped(d)
  {
    exists walk :: IsWalk(d, buildArgs, walk) && walk[0] == first && WalkEnds(d, buildArgs, walk, r)
  }

  /** Distinct numbers below n are at most n many. */
  lemma {:induction false} Pigeonhole(s: seq<nat>, n: nat)
    requires forall k :: 0 <= k < |s| ==> s[k] < n
    requires forall j, k :: 0 <= j < k < |s| ==> s[j] != s[k]
    ensures |s| <= n
  {
    if |s| > 0 {
      assert s[0] < n;
      if k :| 0 <= k < |s| && s[k] == n - 1 {
        var rest := s[..k] + s[k + 1..];
        assert forall j :: 0 <= j < |rest| ==> rest[j] == s[if j < k then j else j + 1];
        Pigeonhole(rest, n - 1);
      } else {
        Pigeonhole(s, n - 1);
      }
    }
  }

  lemma WalkExtends(d: Dockerfile, buildArgs: Vars, walk: seq<nat>, i: nat)
    requires Shaped(d) && i < |d.stages| && i !in walk
    requires walk != [] ==>
               IsWalk(d, buildArgs, walk) && Parent(d, buildArgs, map[], walk[|walk| - 1]) == Some(i)
    ensures IsWalk(d, buildArgs, walk + [i])
    ensures |walk| + 1 <= |d.stages|
  {
    hide Parent, Shaped;
    Pigeonhole(walk + [i], |d.stages|);
  }

  /** Stops on every file with a stage, cyclic ones included, within as many steps as there are stages. */
  method FindBaseImage(d: Dockerfile, buildArgs: Vars, target: string) returns (r: string, ghost walk: seq<nat>)
    requires InOrder(d)
    ensures IsWalk(d, buildArgs, walk) && walk[0] == Select(d, target) && WalkEnds(d, buildArgs, walk, r)
    ensures IsBaseImage(d, buildArgs, Select(d, target), r)
    ensures |walk| <= |d.stages|
    ensures r !in d.byTarget
  {
    hide Ordered, IsStage, FlatStages, TargetIndex, NoFrom, PreambleOf, Image, BaseName, Indexed;
    InOrderIndexed(d);
    var i := |d.stages| - 1;
    if target in d.byTarget {
      i := d.byTarget[target];
    }
    var visited: set<nat> := {};
    walk := [];
    while true
      invariant 0 <= i < |d.stages| && (forall j :: j in visited <==> j in walk)
      invariant walk != [] ==> IsWalk(d, buildArgs, walk) && Parent(d, buildArgs, map[], walk[|walk| - 1]) == Some(i)
      invariant walk != [] ==> walk[0] == Select(d, target)
      invariant walk == [] ==> i == Select(d, target)
      invariant |walk| <= |d.stages|
      decreases |d.stages| - |walk|
    {
      if i in visited {
        return "", walk;
      }
      WalkExtends(d, buildArgs, walk, i);
      visited := visited + {i};
      walk := walk + [i];
      var nextTarget := ResolveImage(d, buildArgs, map[], i);
      if nextTarget !in d.byTarget {
        return nextTarget, walk;
      }
      i := d.byTarget[nextTarget];
    }
  }

  lemma {:induction false} WalksAgree(d: Dockerfile, buildArgs: Vars, walk: seq<nat>, walk': seq<nat>)
    requires Shaped(d) && IsWalk(d, buildArgs, walk) && IsWalk(d, buildArgs, walk')
    requires walk[0] == walk'[0] && |walk| <= |walk'|
    ensures walk == walk'[..|walk|]
  {
    hide Parent, Shaped;
    var n := |walk| - 1;
    if n > 0 {
      assert IsWalk(d, buildArgs, walk[..n]);
      WalksAgree(d, buildArgs, walk[..n], walk');
      assert walk[n - 1] == walk'[n - 1];
      assert Parent(d, buildArgs, map[], walk[n - 1]) == Some(walk[n]);
      assert Parent(d, buildArgs, map[], walk'[n - 1]) == Some(walk'[n]);
    }
  }

  lemma WalkGoesOn(d: Dockerfile, buildArgs: Vars, walk: seq<nat>, walk': seq<nat>)
    requires Shaped(d) && IsWalk(d, buildArgs, walk) && IsWalk(d, buildArgs, walk')
    requires |walk| < |walk'| && walk == walk'[..|walk|]
    ensures Parent(d, buildArgs, map[], walk[|walk| - 1]) == Some(walk'[|walk|]) && walk'[|walk|] !in walk
  {
    hide Parent, Shaped;
    assert Parent(d, buildArgs, map[], walk'[|walk| - 1]) == Some(walk'[|walk|]);
  }

  lemma WalkDecides(d: Dockerfile, buildArgs: Vars, walk: seq<nat>, r: string, walk': seq<nat>, r': string)
    requires Shaped(d) && IsWalk(d, buildArgs, walk) && IsWalk(d, buildArgs, walk') && walk[0] == walk'[0]
    requires WalkEnds(d, buildArgs, walk, r) && WalkEnds(d, buildArgs, walk', r') && |walk| <= |walk'|
    ensures r == r'
  {
    hide Parent, Shaped;
    WalksAgree(d, buildArgs, walk, walk');
    if |walk| < |walk'| {
      WalkGoesOn(d, buildArgs, walk, walk');
      assert false;
    }
  }

  /** The answer is determined by the file, the build args and the stage the walk begins with. */
  lemma BaseImageUnique(d: Dockerfile, buildArgs: Vars, first: nat, r: string, r': string)
    requires Shaped(d) && IsBaseImage(d, buildArgs, first, r) && IsBaseImage(d, buildArgs, first, r')
    ensures r == r'
  {
    var walk :| IsWalk(d, buildArgs, walk) && walk[0] == first && WalkEnds(d, buildArgs, walk, r);
    var walk' :| IsWalk(d, buildArgs, walk') && walk'[0] == first && WalkEnds(d, buildArgs, walk', r');
    if |walk| <= |walk'| {
      WalkDecides(d, buildArgs, walk, r, walk', r');
    } else {
      WalkDecides(d, buildArgs, walk', r', walk, r);
    }
  }

  lemma {:induction false} WalkDescends(d: Dockerfile, buildArgs: Vars, walk: seq<nat>)
    requires Shaped(d) && EarlierParents(d, buildArgs, map[]) && IsWalk(d, buildArgs, walk)
    ensures forall k :: 0 <= k < |walk| ==> walk[|walk| - 1] <= walk[k]
  {
    hide Parent, Shaped;
    var n := |walk| - 1;
    if n > 0 {
      assert IsWalk(d, buildArgs, walk[..n]);
      WalkDescends(d, buildArgs, walk[..n]);
      assert Parent(d, buildArgs, map[], walk[n - 1]) == Some(walk[n]);
    }
  }

  /** When FROMs only refer back, the answer is the name the chain from the selected stage ends with. */
  lemma BaseImageIsRoot(d: Dockerfile, buildArgs: Vars, first: nat, r: string) returns (walk: seq<nat>)
    requires Shaped(d) && EarlierParents(d, buildArgs, map[]) && IsBaseImage(d, buildArgs, first, r)
    ensures IsWalk(d, buildArgs, walk) && walk[0] == first
    ensures var last := walk[|walk| - 1];
            Parent(d, buildArgs, map[], last) == None && r == BaseName(d, buildArgs, map[], last)
  {
    walk :| IsWalk(d, buildArgs, walk) && walk[0] == first && WalkEnds(d, buildArgs, walk, r);
    WalkDescends(d, buildArgs, walk);
  }

  // ---- build args that no ARG declares ----

  lemma {:induction false} RunAgrees(ns: seq<Node>, s: Scope, a: Vars, b: Vars)
    requires AgreeOn(ArgsOf(ns), a, b)
    ensures Run(ns, s, a) == Run(ns, s, b)
  {
    hide BindEnvs, Expand, ParseEnv, ParseArg, ParseUser, Unquote, Visible, Is;
    if ns != [] {
      var init, n := ns[..|ns| - 1], ns[|ns| - 1];
      assert forall i :: 0 <= i < |ArgsOf(init)| ==> ArgsOf(init)[i] == ArgsOf(ns)[i];
      assert IsArg(n) ==> ArgsOf(ns)[|ArgsOf(init)|] == ParseArg(n);
      RunAgrees(init, s, a, b);
    }
  }

  lemma {:induction false} BeforeAgrees(ns: seq<Node>, line: nat, a: Vars, b: Vars)
    requires AgreeOn(ArgsOf(ns), a, b)
    ensures AgreeOn(ArgsOf(Before(ns, line)), a, b)
  {
    if ns != [] && Before(ns, line) != ns {
      var init := ns[..|ns| - 1];
      assert forall i :: 0 <= i < |ArgsOf(init)| ==> ArgsOf(init)[i] == ArgsOf(ns)[i];
      BeforeAgrees(init, line, a, b);
    }
  }

  /** The FROMs of two files resolve alike. */
  predicate SameParents(d: Dockerfile, a: Vars, d': Dockerfile, b: Vars)
    requires Shaped(d) && Shaped(d')
  {
    && |d.stages| == |d'.stages|
    && forall i :: 0 <= i < |d.stages| ==>
         BaseName(d, a, map[], i) == BaseName(d', b, map[], i)
         && Parent(d, a, map[], i) == Parent(d', b, map[], i)
  }

  lemma SameBaseImage(d: Dockerfile, a: Vars, d': Dockerfile, b: Vars, first: nat, r: string)
    requires Shaped(d) && Shaped(d') && SameParents(d, a, d', b) && IsBaseImage(d, a, first, r)
    ensures IsBaseImage(d', b, first, r)
  {
    hide Parent, BaseName, Shaped;
    var walk :| IsWalk(d, a, walk) && walk[0] == first && WalkEnds(d, a, walk, r);
    assert IsWalk(d', b, walk);
    assert WalkEnds(d', b, walk, r);
  }

  /** Agreement on the ARGs before the first FROM already fixes the base image. */
  lemma PreambleArgsFixBase(d: Dockerfile, a: Vars, b: Vars, first: nat, r: string)
    requires Shaped(d) && AgreeOn(d.preamble.args, a, b)
    ensures IsBaseImage(d, a, first, r) <==> IsBaseImage(d, b, first, r)
  {
    hide Run, Expand, IsBaseImage, IsStage, TargetIndex, NoFrom;
    forall i | 0 <= i < |d.stages|
      ensures BaseName(d, a, map[], i) == BaseName(d, b, map[], i)
    {
      RunAgrees(d.preamble.instructions, Scope(map[], map[], ""), a, b);
    }
    assert SameParents(d, a, d, b) && SameParents(d, b, d, a);
    if IsBaseImage(d, a, first, r) {
      SameBaseImage(d, a, d, b, first, r);
    } else if IsBaseImage(d, b, first, r) {
      SameBaseImage(d, b, d, a, first, r);
    }
  }

  lemma {:induction false} StartAgrees(d: Dockerfile, a: Vars, b: Vars, baseEnv: Vars, i: nat)
    requires Shaped(d) && i < |d.stages| && AgreeOnDeclared(d, a, b)
    ensures Start(d, a, baseEnv, i) == Start(d, b, baseEnv, i)
    ensures End(d, a, baseEnv, i) == End(d, b, baseEnv, i)
    decreases i
  {
    hide Run, Expand, TargetIndex, NoFrom, Visible, ArgsOf, EnvsOf, UsersOf;
    RunAgrees(d.preamble.instructions, Scope(map[], baseEnv, ""), a, b);
    var parent := Parent(d, a, baseEnv, i);
    assert parent == Parent(d, b, baseEnv, i);
    if parent.Some? && parent.value < i {
      StartAgrees(d, a, b, baseEnv, parent.value);
    }
    RunAgrees(d.stages[i].instructions, Start(d, a, baseEnv, i), a, b);
  }

  /** The forward evaluator, too, ignores a build arg that no ARG declares. */
  lemma ScopesIgnoreUndeclared(d: Dockerfile, a: Vars, b: Vars, baseEnv: Vars, p: Place, line: nat)
    requires Shaped(d) && InFile(d, p) && AgreeOnDeclared(d, a, b)
    ensures ScopeAt(d, a, baseEnv, p, line) == ScopeAt(d, b, baseEnv, p, line)
    ensures p.AtStage? ==> End(d, a, baseEnv, p.i).user == End(d, b, baseEnv, p.i).user
  {
    var ns := StageAt(d, p).instructions;
    if p.AtStage? {
      StartAgrees(d, a, b, baseEnv, p.i);
    }
    assert AgreeOn(ArgsOf(ns), a, b);
    BeforeAgrees(ns, line, a, b);
    RunAgrees(Before(ns, line), StartOf(d, a, baseEnv, p), a, b);
  }
}
