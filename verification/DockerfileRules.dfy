/**
 Two rules of the Dockerfile reference that the code does not follow. "Environment replacement": an
 ENV wins over an ARG of the same name. "Understand how ARG and FROM interact": an ARG before the
 first FROM is not visible in a stage until the stage declares it again. This is the forward
 evaluator with those two rules, and when the two evaluators agree.
 */
module DockerfileRules {
  import opened Text
  import opened DockerfileSyntax
  import opened Dockerfile
  import opened DockerfileScope
  import opened DockerfileSearch
  import opened DockerfileExact

  // ---- the rules ----

  function RuleVisible(s: Scope): Vars {
    s.args + s.env
  }

  /** `globals` are the ARGs of the preamble; an ARG without a value takes its value from there. */
  function RuleExec(n: Node, s: Scope, buildArgs: Vars, globals: Vars): Scope {
    if IsArg(n) then
      var a := ParseArg(n);
      if Effective(a, buildArgs) then s.(args := s.args[a.key := ArgValue(a, RuleVisible(s), buildArgs)])
      else if a.key in globals then s.(args := s.args[a.key := globals[a.key]])
      else s
    else if IsEnv(n) then s.(env := s.env + BindEnvs(ParseEnv(n), RuleVisible(s)))
    else if IsUser(n) then s.(user := Expand(ParseUser(n).key, RuleVisible(s)))
    else s
  }

  function RuleRun(ns: seq<Node>, s: Scope, buildArgs: Vars, globals: Vars): Scope {
    if ns == [] then s
    else RuleExec(ns[|ns| - 1], RuleRun(ns[..|ns| - 1], s, buildArgs, globals), buildArgs, globals)
  }

  function RuleStart(d: Dockerfile, buildArgs: Vars, baseEnv: Vars, i: nat): Scope
    requires Shaped(d) && i < |d.stages|
    decreases i, 0
  {
    match Parent(d, buildArgs, baseEnv, i)
    case Some(j) =>
      if j < i then
        var parent := RuleEnd(d, buildArgs, baseEnv, j);
        Scope(map[], parent.env, parent.user)
      else Scope(map[], map[], "")
    case None => Scope(map[], PreambleEnd(d, buildArgs, baseEnv).env, "")
  }

  function RuleEnd(d: Dockerfile, buildArgs: Vars, baseEnv: Vars, i: nat): Scope
    requires Shaped(d) && i < |d.stages|
    decreases i, 1
  {
    RuleRun(d.stages[i].instructions, RuleStart(d, buildArgs, baseEnv, i), buildArgs,
            PreambleEnd(d, buildArgs, baseEnv).args)
  }

  // ---- names ----

  /** The names an ENV of the list gives a value. */
  function EnvNames(ns: seq<Node>): set<string> {
    if ns == [] then {}
    else
      var n := ns[|ns| - 1];
      EnvNames(ns[..|ns| - 1]) + if IsEnv(n) then Keys(ParseEnv(n)) else {}
  }

  function Keys(pairs: seq<KeyValue>): set<string> {
    set k | 0 <= k < |pairs| && pairs[k].value != "" :: pairs[k].key
  }

  /** The names whose last ARG has neither a default nor a build arg. */
  function Bare(ns: seq<Node>, buildArgs: Vars): set<string> {
    if ns == [] then {}
    else
      var n, before := ns[|ns| - 1], Bare(ns[..|ns| - 1], buildArgs);
      if !IsArg(n) then before
      else if Effective(ParseArg(n), buildArgs) then before - {ParseArg(n).key}
      else before + {ParseArg(n).key}
  }

  /** Everything the answer depends on at one point of a stage. */
  datatype Point = Point(scope: Scope, outer: Scope, envs: set<string>, bare: set<string>)

  // ---- the three disputes ----

  /** An ARG of the stage hides an ENV, of the chain or of the base image, with another value. */
  predicate HidesEnv(p: Point, v: string) {
    && v in p.scope.args
    && (if v in p.envs then v in p.scope.env && p.scope.env[v] != p.scope.args[v]
        else v in p.outer.env && p.outer.env[v] != p.scope.args[v])
  }

  /** An ARG of the preamble shows in a stage that has not declared it, or hides the base image's ENV. */
  predicate Leaks(p: Point, v: string) {
    && v !in p.scope.args && v !in p.envs && v in p.outer.args
    && (if v in p.outer.env then p.outer.env[v] != p.outer.args[v] else v !in p.bare && p.outer.args[v] != "")
  }

  /** A bare ARG that brings back the preamble's value is ignored in favour of an earlier one of the stage. */
  predicate Stale(p: Point, v: string) {
    && v in p.scope.args && v !in p.envs && v !in p.outer.env
    && v in p.bare && v in p.outer.args && p.outer.args[v] != p.scope.args[v]
  }

  predicate Undisputed(p: Point, v: string) {
    !HidesEnv(p, v) && !Leaks(p, v) && !Stale(p, v)
  }

  // ---- how the two scopes are related ----

  predicate SameEnv(p: Point, t: Scope, v: string) {
    if v in p.envs then v in p.scope.env && v in t.env && p.scope.env[v] == t.env[v]
    else
      && (v in t.env <==> v in p.outer.env) && (v in t.env ==> t.env[v] == p.outer.env[v])
      && Get(p.scope.env, v) == Get(Visible(p.outer), v)
  }

  predicate SameArg(p: Point, t: Scope, v: string) {
    if v in p.bare && v in p.outer.args then v in t.args && t.args[v] == p.outer.args[v]
    else (v in t.args <==> v in p.scope.args) && (v in t.args ==> t.args[v] == p.scope.args[v])
  }

  ghost predicate Related(p: Point, t: Scope) {
    p.scope.user == t.user && forall v :: SameEnv(p, t, v) && SameArg(p, t, v)
  }

  predicate Agree(p: Point, t: Scope, v: string) {
    Get(Visible(p.scope), v) == Get(RuleVisible(t), v)
  }

  /** The exact condition, for every scope and variable. */
  lemma AgreeIff(p: Point, t: Scope, v: string)
    requires Related(p, t)
    ensures Agree(p, t, v) <==> Undisputed(p, v)
  {
    assert SameEnv(p, t, v) && SameArg(p, t, v);
  }

  // ---- one instruction ----

  function RefNames(text: string): set<string> {
    set k | 0 <= k < |Scan(text)| && Scan(text)[k].Ref? :: Scan(text)[k].name
  }

  /** The variables an instruction refers to. */
  function Names(n: Node, buildArgs: Vars): set<string> {
    if IsArg(n) then if Get(buildArgs, ParseArg(n).key) == "" then RefNames(ParseArg(n).value) else {}
    else if IsEnv(n) then set k, v | 0 <= k < |ParseEnv(n)| && v in RefNames(ParseEnv(n)[k].value) :: v
    else if IsUser(n) then RefNames(ParseUser(n).key)
    else {}
  }

  function Advance(p: Point, n: Node, buildArgs: Vars): Point {
    Point(Exec(n, p.scope, buildArgs), p.outer,
          p.envs + (if IsEnv(n) then Keys(ParseEnv(n)) else {}),
          if !IsArg(n) then p.bare
          else if Effective(ParseArg(n), buildArgs) then p.bare - {ParseArg(n).key}
          else p.bare + {ParseArg(n).key})
  }

  lemma {:induction false} PiecesAgree(ps: seq<Piece>, vars: Vars, vars': Vars)
    requires forall k :: 0 <= k < |ps| && ps[k].Ref? ==> Get(vars, ps[k].name) == Get(vars', ps[k].name)
    ensures ExpandPieces(ps, vars) == ExpandPieces(ps, vars')
  {
    hide Substitute;
    if ps != [] {
      PiecesAgree(ps[..|ps| - 1], vars, vars');
    }
  }

  lemma TextAgrees(text: string, vars: Vars, vars': Vars)
    requires forall v :: v in RefNames(text) ==> Get(vars, v) == Get(vars', v)
    ensures Expand(text, vars) == Expand(text, vars')
  {
    hide Scan;
    forall k | 0 <= k < |Scan(text)| && Scan(text)[k].Ref?
      ensures Get(vars, Scan(text)[k].name) == Get(vars', Scan(text)[k].name)
    {
      assert Scan(text)[k].name in RefNames(text);
    }
    PiecesAgree(Scan(text), vars, vars');
  }

  lemma {:induction false} PairsAgree(pairs: seq<KeyValue>, vars: Vars, vars': Vars)
    requires forall k, v :: 0 <= k < |pairs| && v in RefNames(pairs[k].value) ==> Get(vars, v) == Get(vars', v)
    ensures BindEnvs(pairs, vars) == BindEnvs(pairs, vars')
  {
    hide Expand, RefNames;
    if pairs != [] {
      PairsAgree(pairs[..|pairs| - 1], vars, vars');
      TextAgrees(pairs[|pairs| - 1].value, vars, vars');
    }
  }

  lemma {:induction false} PairKeys(pairs: seq<KeyValue>, vars: Vars)
    ensures BindEnvs(pairs, vars).Keys == Keys(pairs)
  {
    hide Expand;
    if pairs != [] {
      var n := |pairs| - 1;
      PairKeys(pairs[..n], vars);
      assert Keys(pairs) == Keys(pairs[..n]) + if pairs[n].value == "" then {} else {pairs[n].key};
    }
  }

  lemma EnvStep(n: Node, p: Point, t: Scope, buildArgs: Vars)
    requires Related(p, t) && IsEnv(n) && forall v :: v in Names(n, buildArgs) ==> Agree(p, t, v)
    ensures Related(Advance(p, n, buildArgs), RuleExec(n, t, buildArgs, p.outer.args))
  {
    hide BindEnvs, RefNames, ParseEnv, Keys, Visible, RuleVisible;
    assert !IsArg(n);
    var pairs := ParseEnv(n);
    forall k, v | 0 <= k < |pairs| && v in RefNames(pairs[k].value)
      ensures Get(Visible(p.scope), v) == Get(RuleVisible(t), v)
    {
      assert v in Names(n, buildArgs) && Agree(p, t, v);
    }
    PairsAgree(pairs, Visible(p.scope), RuleVisible(t));
    PairKeys(pairs, Visible(p.scope));
    forall v ensures SameEnv(Advance(p, n, buildArgs), RuleExec(n, t, buildArgs, p.outer.args), v) {
      assert SameEnv(p, t, v);
    }
    forall v ensures SameArg(Advance(p, n, buildArgs), RuleExec(n, t, buildArgs, p.outer.args), v) {
      assert SameArg(p, t, v);
    }
  }

  lemma ArgAgrees(n: Node, p: Point, t: Scope, buildArgs: Vars)
    requires IsArg(n) && forall v :: v in Names(n, buildArgs) ==> Agree(p, t, v)
    ensures ArgValue(ParseArg(n), Visible(p.scope), buildArgs) == ArgValue(ParseArg(n), RuleVisible(t), buildArgs)
  {
    hide Expand, RefNames, ParseArg, Visible, RuleVisible, Unquote;
    var a := ParseArg(n);
    if Get(buildArgs, a.key) == "" {
      forall v | v in RefNames(a.value) ensures Get(Visible(p.scope), v) == Get(RuleVisible(t), v) {
        assert Agree(p, t, v);
      }
      TextAgrees(a.value, Visible(p.scope), RuleVisible(t));
    }
  }

  lemma ArgBound(p: Point, t: Scope, key: string, value: string)
    requires Related(p, t)
    ensures Related(Point(p.scope.(args := p.scope.args[key := value]), p.outer, p.envs, p.bare - {key}),
                    t.(args := t.args[key := value]))
  {
    var p' := Point(p.scope.(args := p.scope.args[key := value]), p.outer, p.envs, p.bare - {key});
    var t' := t.(args := t.args[key := value]);
    forall v ensures SameEnv(p', t', v) && SameArg(p', t', v) {
      assert SameEnv(p, t, v) && SameArg(p, t, v);
    }
  }

  lemma ArgBare(p: Point, t: Scope, key: string)
    requires Related(p, t)
    ensures Related(Point(p.scope, p.outer, p.envs, p.bare + {key}),
                    if key in p.outer.args then t.(args := t.args[key := p.outer.args[key]]) else t)
  {
    var p' := Point(p.scope, p.outer, p.envs, p.bare + {key});
    var t' := if key in p.outer.args then t.(args := t.args[key := p.outer.args[key]]) else t;
    forall v ensures SameEnv(p', t', v) && SameArg(p', t', v) {
      assert SameEnv(p, t, v) && SameArg(p, t, v);
    }
  }

  lemma ArgStep(n: Node, p: Point, t: Scope, buildArgs: Vars)
    requires Related(p, t) && IsArg(n) && forall v :: v in Names(n, buildArgs) ==> Agree(p, t, v)
    ensures Related(Advance(p, n, buildArgs), RuleExec(n, t, buildArgs, p.outer.args))
  {
    hide Related, ArgValue, Effective, Names, Agree, ParseArg, Keys, BindEnvs, Visible, RuleVisible;
    assert !IsEnv(n);
    assert p.envs + {} == p.envs;
    var a := ParseArg(n);
    if Effective(a, buildArgs) {
      ArgAgrees(n, p, t, buildArgs);
      ArgBound(p, t, a.key, ArgValue(a, Visible(p.scope), buildArgs));
    } else {
      ArgBare(p, t, a.key);
    }
  }

  lemma OtherStep(n: Node, p: Point, t: Scope, buildArgs: Vars)
    requires Related(p, t) && !IsArg(n) && !IsEnv(n) && forall v :: v in Names(n, buildArgs) ==> Agree(p, t, v)
    ensures Related(Advance(p, n, buildArgs), RuleExec(n, t, buildArgs, p.outer.args))
  {
    hide Expand, RefNames, ParseUser, Visible, RuleVisible;
    if IsUser(n) {
      forall v | v in RefNames(ParseUser(n).key) ensures Get(Visible(p.scope), v) == Get(RuleVisible(t), v) {
        assert Agree(p, t, v);
      }
      TextAgrees(ParseUser(n).key, Visible(p.scope), RuleVisible(t));
    }
    forall v ensures SameEnv(Advance(p, n, buildArgs), RuleExec(n, t, buildArgs, p.outer.args), v) {
      assert SameEnv(p, t, v);
    }
    forall v ensures SameArg(Advance(p, n, buildArgs), RuleExec(n, t, buildArgs, p.outer.args), v) {
      assert SameArg(p, t, v);
    }
  }

  /** An instruction whose references agree keeps the scopes related. */
  lemma Step(n: Node, p: Point, t: Scope, buildArgs: Vars)
    requires Related(p, t) && forall v :: v in Names(n, buildArgs) ==> Agree(p, t, v)
    ensures Related(Advance(p, n, buildArgs), RuleExec(n, t, buildArgs, p.outer.args))
  {
    hide Related, Advance, RuleExec, Names, Agree;
    if IsArg(n) {
      ArgStep(n, p, t, buildArgs);
    } else if IsEnv(n) {
      EnvStep(n, p, t, buildArgs);
    } else {
      OtherStep(n, p, t, buildArgs);
    }
  }

  // ---- a stage ----

  function Along(ns: seq<Node>, p: Point, buildArgs: Vars): Point {
    if ns == [] then p else Advance(Along(ns[..|ns| - 1], p, buildArgs), ns[|ns| - 1], buildArgs)
  }

  /** Where a run stands, in terms of the run itself and of the names it has met. */
  lemma {:induction false} AlongIs(ns: seq<Node>, p: Point, buildArgs: Vars)
    requires p.bare == {}
    ensures Along(ns, p, buildArgs)
            == Point(Run(ns, p.scope, buildArgs), p.outer, p.envs + EnvNames(ns), Bare(ns, buildArgs))
  {
    hide Exec, Keys;
    if ns != [] {
      AlongIs(ns[..|ns| - 1], p, buildArgs);
    }
  }

  /** Every reference of the stage is undisputed where it stands. */
  predicate Safe(ns: seq<Node>, p: Point, buildArgs: Vars) {
    forall k, v :: 0 <= k < |ns| && v in Names(ns[k], buildArgs) ==> Undisputed(Along(ns[..k], p, buildArgs), v)
  }

  lemma SafePrefix(ns: seq<Node>, k: nat, p: Point, buildArgs: Vars)
    requires Safe(ns, p, buildArgs) && k <= |ns|
    ensures Safe(ns[..k], p, buildArgs)
  {
    hide Along, Names, Undisputed;
    forall j, v | 0 <= j < k && v in Names(ns[..k][j], buildArgs)
      ensures Undisputed(Along(ns[..k][..j], p, buildArgs), v)
    {
      assert ns[..k][..j] == ns[..j] && ns[..k][j] == ns[j];
    }
  }

  lemma OuterKept(ns: seq<Node>, p: Point, buildArgs: Vars)
    ensures Along(ns, p, buildArgs).outer == p.outer
  {
    hide Exec, Keys;
  }

  lemma {:induction false} RunRelated(ns: seq<Node>, p: Point, t: Scope, buildArgs: Vars)
    requires Related(p, t) && Safe(ns, p, buildArgs)
    ensures Related(Along(ns, p, buildArgs), RuleRun(ns, t, buildArgs, p.outer.args))
  {
    hide Related, Advance, RuleExec, Names, Agree, Undisputed;
    if ns != [] {
      var k := |ns| - 1;
      SafePrefix(ns, k, p, buildArgs);
      RunRelated(ns[..k], p, t, buildArgs);
      OuterKept(ns[..k], p, buildArgs);
      var q, u := Along(ns[..k], p, buildArgs), RuleRun(ns[..k], t, buildArgs, p.outer.args);
      forall v | v in Names(ns[k], buildArgs) ensures Agree(q, u, v) {
        AgreeIff(q, u, v);
      }
      Step(ns[k], q, u, buildArgs);
    }
  }

  // ---- the file ----

  /** The names the stages a stage is built from set by ENV. */
  function Inherited(d: Dockerfile, buildArgs: Vars, baseEnv: Vars, i: nat): set<string>
    requires Shaped(d) && i < |d.stages|
    decreases i
  {
    match Parent(d, buildArgs, baseEnv, i)
    case Some(j) =>
      if j < i then Inherited(d, buildArgs, baseEnv, j) + EnvNames(d.stages[j].instructions) else {}
    case None => {}
  }

  function StartPoint(d: Dockerfile, buildArgs: Vars, baseEnv: Vars, i: nat): Point
    requires Shaped(d) && i < |d.stages|
  {
    Point(Start(d, buildArgs, baseEnv, i), PreambleEnd(d, buildArgs, baseEnv),
          Inherited(d, buildArgs, baseEnv, i), {})
  }

  /** Every reference in the first n stages is undisputed where it stands. */
  predicate SafeStages(d: Dockerfile, buildArgs: Vars, baseEnv: Vars, n: nat)
    requires Shaped(d) && n <= |d.stages|
  {
    forall i :: 0 <= i < n ==> Safe(d.stages[i].instructions, StartPoint(d, buildArgs, baseEnv, i), buildArgs)
  }

  lemma StartFromStage(s: Point, t: Scope)
    requires Related(s, t)
    ensures Related(Point(Scope(map[], s.scope.env, s.scope.user), s.outer, s.envs, {}), Scope(map[], t.env, t.user))
  {
    var s', t' := Point(Scope(map[], s.scope.env, s.scope.user), s.outer, s.envs, {}), Scope(map[], t.env, t.user);
    forall v ensures SameEnv(s', t', v) && SameArg(s', t', v) {
      assert SameEnv(s, t, v);
    }
  }

  lemma StartFromImage(outer: Scope)
    ensures Related(Point(Scope(map[], Visible(outer), ""), outer, {}, {}), Scope(map[], outer.env, ""))
  {
  }

  /** The point at which a stage ends, as `Along` reaches it. */
  lemma EndPoint(d: Dockerfile, buildArgs: Vars, baseEnv: Vars, j: nat)
    requires Shaped(d) && j < |d.stages|
    ensures Along(d.stages[j].instructions, StartPoint(d, buildArgs, baseEnv, j), buildArgs)
            == Point(End(d, buildArgs, baseEnv, j), PreambleEnd(d, buildArgs, baseEnv),
                     Inherited(d, buildArgs, baseEnv, j) + EnvNames(d.stages[j].instructions),
                     Bare(d.stages[j].instructions, buildArgs))
  {
    hide Start, Inherited, PreambleEnd, Along, Run, EnvNames, Bare, Shaped;
    AlongIs(d.stages[j].instructions, StartPoint(d, buildArgs, baseEnv, j), buildArgs);
  }

  lemma StartUnfolds(d: Dockerfile, buildArgs: Vars, baseEnv: Vars, i: nat)
    requires Shaped(d) && EarlierParents(d, buildArgs, baseEnv) && i < |d.stages|
    ensures match Parent(d, buildArgs, baseEnv, i)
            case Some(j) =>
              var p, t := End(d, buildArgs, baseEnv, j), RuleEnd(d, buildArgs, baseEnv, j);
              && j < i && Start(d, buildArgs, baseEnv, i) == Scope(map[], p.env, p.user)
              && RuleStart(d, buildArgs, baseEnv, i) == Scope(map[], t.env, t.user)
              && Inherited(d, buildArgs, baseEnv, i)
                 == Inherited(d, buildArgs, baseEnv, j) + EnvNames(d.stages[j].instructions)
            case None =>
              var outer := PreambleEnd(d, buildArgs, baseEnv);
              && Start(d, buildArgs, baseEnv, i) == Scope(map[], Visible(outer), "")
              && RuleStart(d, buildArgs, baseEnv, i) == Scope(map[], outer.env, "")
              && Inherited(d, buildArgs, baseEnv, i) == {}
  {
    hide PreambleEnd, BaseName, EnvNames, End, RuleEnd, IsStage, NoFrom, TargetIndex;
  }

  lemma {:induction false} StartRelated(d: Dockerfile, buildArgs: Vars, baseEnv: Vars, i: nat)
    requires Shaped(d) && EarlierParents(d, buildArgs, baseEnv)
    requires i < |d.stages| && SafeStages(d, buildArgs, baseEnv, i)
    ensures Related(StartPoint(d, buildArgs, baseEnv, i), RuleStart(d, buildArgs, baseEnv, i))
    decreases i
  {
    hide Related, Along, RuleRun, EnvNames, Bare, Visible, PreambleEnd, Safe, Start, RuleStart, Inherited, End, Parent,
         EarlierParents, IsStage, NoFrom, TargetIndex, PreambleOf;
    StartUnfolds(d, buildArgs, baseEnv, i);
    match Parent(d, buildArgs, baseEnv, i)
    case Some(j) =>
      StartRelated(d, buildArgs, baseEnv, j);
      var ns, p := d.stages[j].instructions, StartPoint(d, buildArgs, baseEnv, j);
      RunRelated(ns, p, RuleStart(d, buildArgs, baseEnv, j), buildArgs);
      EndPoint(d, buildArgs, baseEnv, j);
      StartFromStage(Along(ns, p, buildArgs), RuleEnd(d, buildArgs, baseEnv, j));
    case None =>
      StartFromImage(PreambleEnd(d, buildArgs, baseEnv));
  }

  function PointAt(d: Dockerfile, buildArgs: Vars, baseEnv: Vars, i: nat, line: nat): Point
    requires Shaped(d) && i < |d.stages|
  {
    var ns := Before(d.stages[i].instructions, line);
    Point(ScopeAt(d, buildArgs, baseEnv, AtStage(i), line), PreambleEnd(d, buildArgs, baseEnv),
          Inherited(d, buildArgs, baseEnv, i) + EnvNames(ns), Bare(ns, buildArgs))
  }

  function RuleAt(d: Dockerfile, buildArgs: Vars, baseEnv: Vars, i: nat, line: nat): Scope
    requires Shaped(d) && i < |d.stages|
  {
    RuleRun(Before(d.stages[i].instructions, line), RuleStart(d, buildArgs, baseEnv, i), buildArgs,
            PreambleEnd(d, buildArgs, baseEnv).args)
  }

  lemma {:induction false} BeforePrefix(ns: seq<Node>, line: nat) returns (k: nat)
    ensures k <= |ns| && Before(ns, line) == ns[..k]
  {
    if ns == [] || Before(ns, line) == ns {
      k := |ns|;
    } else {
      k := BeforePrefix(ns[..|ns| - 1], line);
    }
  }

  lemma PointRelated(d: Dockerfile, buildArgs: Vars, baseEnv: Vars, i: nat, line: nat)
    requires Shaped(d) && EarlierParents(d, buildArgs, baseEnv)
    requires i < |d.stages| && SafeStages(d, buildArgs, baseEnv, |d.stages|)
    ensures Related(PointAt(d, buildArgs, baseEnv, i, line), RuleAt(d, buildArgs, baseEnv, i, line))
  {
    hide Related, Run, RuleRun, EnvNames, Bare, IsStage, NoFrom, TargetIndex, PreambleOf, PreambleEnd, Safe, Before,
         Parent, Start, RuleStart, Inherited, EarlierParents;
    var ns, p := d.stages[i].instructions, StartPoint(d, buildArgs, baseEnv, i);
    var k := BeforePrefix(ns, line);
    StartRelated(d, buildArgs, baseEnv, i);
    SafePrefix(ns, k, p, buildArgs);
    RunRelated(ns[..k], p, RuleStart(d, buildArgs, baseEnv, i), buildArgs);
    AlongIs(ns[..k], p, buildArgs);
  }

  /**
   In a file whose references are undisputed, the two evaluators agree on a variable at a line of a
   stage exactly if the variable is undisputed there; and they agree on the user.
   */
  lemma RulesAgreeIff(d: Dockerfile, buildArgs: Vars, baseEnv: Vars, i: nat, line: nat, v: string)
    requires Shaped(d) && EarlierParents(d, buildArgs, baseEnv)
    requires i < |d.stages| && SafeStages(d, buildArgs, baseEnv, |d.stages|)
    ensures Get(Visible(ScopeAt(d, buildArgs, baseEnv, AtStage(i), line)), v)
            == Get(RuleVisible(RuleAt(d, buildArgs, baseEnv, i, line)), v)
            <==> Undisputed(PointAt(d, buildArgs, baseEnv, i, line), v)
    ensures ScopeAt(d, buildArgs, baseEnv, AtStage(i), line).user == RuleAt(d, buildArgs, baseEnv, i, line).user
  {
    hide Run, RuleRun, EnvNames, Bare, IsStage, NoFrom, TargetIndex, PreambleOf, PreambleEnd, Before,
         Parent, Start, RuleStart, Inherited, EarlierParents, Undisputed, SafeStages, ScopeAt, RuleAt;
    PointRelated(d, buildArgs, baseEnv, i, line);
    AgreeIff(PointAt(d, buildArgs, baseEnv, i, line), RuleAt(d, buildArgs, baseEnv, i, line), v);
  }

  // ---- the whole file ----

  predicate AgreeAt(d: Dockerfile, buildArgs: Vars, baseEnv: Vars, i: nat, line: nat, v: string)
    requires Shaped(d) && i < |d.stages|
  {
    Agree(PointAt(d, buildArgs, baseEnv, i, line), RuleAt(d, buildArgs, baseEnv, i, line), v)
  }

  predicate UndisputedAt(d: Dockerfile, buildArgs: Vars, baseEnv: Vars, i: nat, line: nat, v: string)
    requires Shaped(d) && i < |d.stages|
  {
    Undisputed(PointAt(d, buildArgs, baseEnv, i, line), v)
  }

  ghost predicate AgreeEverywhere(d: Dockerfile, buildArgs: Vars, baseEnv: Vars)
    requires Shaped(d)
  {
    forall i: nat, line, v :: i < |d.stages| ==> AgreeAt(d, buildArgs, baseEnv, i, line, v)
  }

  ghost predicate UndisputedEverywhere(d: Dockerfile, buildArgs: Vars, baseEnv: Vars)
    requires Shaped(d)
  {
    forall i: nat, line, v :: i < |d.stages| ==> UndisputedAt(d, buildArgs, baseEnv, i, line, v)
  }

  /** Just before instruction k. */
  lemma PointBefore(d: Dockerfile, buildArgs: Vars, baseEnv: Vars, i: nat, k: nat)
    requires InOrder(d) && i < |d.stages| && k < |d.stages[i].instructions|
    ensures var ns := d.stages[i].instructions;
            && Ordered(ns) && ns[k].Node?
            && PointAt(d, buildArgs, baseEnv, i, ns[k].startLine)
               == Along(ns[..k], StartPoint(d, buildArgs, baseEnv, i), buildArgs)
            && RuleAt(d, buildArgs, baseEnv, i, ns[k].startLine)
               == RuleRun(ns[..k], RuleStart(d, buildArgs, baseEnv, i), buildArgs,
                          PreambleEnd(d, buildArgs, baseEnv).args)
  {
    hide Run, RuleRun, EnvNames, Bare, Start, RuleStart, Inherited, PreambleEnd, Along, IsStage, FlatStages;
    var ns := d.stages[i].instructions;
    StageInOrder(d, i);
    CutAt(ns, k);
    AlongIs(ns[..k], StartPoint(d, buildArgs, baseEnv, i), buildArgs);
  }

  lemma {:induction false} CutAt(ns: seq<Node>, k: nat)
    requires Ordered(ns) && k < |ns|
    ensures Before(ns, ns[k].startLine) == ns[..k]
  {
    var init := ns[..|ns| - 1];
    if k < |ns| - 1 {
      CutAt(init, k);
      assert init[..k] == ns[..k];
    } else {
      BeforeAll(init, ns[k].startLine);
    }
  }

  lemma {:induction false} SafeUpTo(d: Dockerfile, buildArgs: Vars, baseEnv: Vars, i: nat, k: nat)
    requires InOrder(d) && EarlierParents(d, buildArgs, baseEnv)
    requires AgreeEverywhere(d, buildArgs, baseEnv) || UndisputedEverywhere(d, buildArgs, baseEnv)
    requires i < |d.stages| && k <= |d.stages[i].instructions|
    requires Related(StartPoint(d, buildArgs, baseEnv, i), RuleStart(d, buildArgs, baseEnv, i))
    ensures Safe(d.stages[i].instructions[..k], StartPoint(d, buildArgs, baseEnv, i), buildArgs)
    decreases k
  {
    hide Related, RuleRun, RuleStart, RuleAt, PreambleEnd, Start, Inherited, Along, PointAt, Ordered, FlatStages,
         IsStage, NoFrom, TargetIndex, PreambleOf, Names, Undisputed, Agree, EarlierParents;
    if k > 0 {
      var ns, p := d.stages[i].instructions, StartPoint(d, buildArgs, baseEnv, i);
      var j: nat := k - 1;
      SafeUpTo(d, buildArgs, baseEnv, i, j);
      PointBefore(d, buildArgs, baseEnv, i, j);
      RunRelated(ns[..j], p, RuleStart(d, buildArgs, baseEnv, i), buildArgs);
      var q, u := Along(ns[..j], p, buildArgs), RuleAt(d, buildArgs, baseEnv, i, ns[j].startLine);
      forall v ensures Undisputed(q, v) {
        assert AgreeAt(d, buildArgs, baseEnv, i, ns[j].startLine, v)
            || UndisputedAt(d, buildArgs, baseEnv, i, ns[j].startLine, v);
        AgreeIff(q, u, v);
      }
      SafeNext(ns, j, p, buildArgs);
    }
  }

  lemma SafeNext(ns: seq<Node>, j: nat, p: Point, buildArgs: Vars)
    requires j < |ns| && Safe(ns[..j], p, buildArgs)
    requires forall v :: v in Names(ns[j], buildArgs) ==> Undisputed(Along(ns[..j], p, buildArgs), v)
    ensures Safe(ns[..j + 1], p, buildArgs)
  {
    hide Along, Names, Undisputed;
    var all := ns[..j + 1];
    forall m, v | 0 <= m < |all| && v in Names(all[m], buildArgs)
      ensures Undisputed(Along(all[..m], p, buildArgs), v)
    {
      assert all[..m] == ns[..m] && all[m] == ns[m];
      if m < j {
        assert ns[..j][..m] == ns[..m] && ns[..j][m] == ns[m];
      }
    }
  }

  lemma {:induction false} EverywhereSafe(d: Dockerfile, buildArgs: Vars, baseEnv: Vars, n: nat)
    requires InOrder(d) && EarlierParents(d, buildArgs, baseEnv) && n <= |d.stages|
    requires AgreeEverywhere(d, buildArgs, baseEnv) || UndisputedEverywhere(d, buildArgs, baseEnv)
    ensures SafeStages(d, buildArgs, baseEnv, n)
    decreases n
  {
    hide Related, RuleStart, StartPoint, Safe, Ordered, FlatStages, IsStage, NoFrom, TargetIndex, PreambleOf,
         AgreeEverywhere, UndisputedEverywhere, EarlierParents;
    if n > 0 {
      EverywhereSafe(d, buildArgs, baseEnv, n - 1);
      StartRelated(d, buildArgs, baseEnv, n - 1);
      var ns := d.stages[n - 1].instructions;
      SafeUpTo(d, buildArgs, baseEnv, n - 1, |ns|);
      assert ns[..|ns|] == ns;
    }
  }

  /** The two evaluators agree on every variable everywhere exactly if none is ever disputed. */
  lemma EverywhereIff(d: Dockerfile, buildArgs: Vars, baseEnv: Vars)
    requires InOrder(d) && EarlierParents(d, buildArgs, baseEnv)
    ensures AgreeEverywhere(d, buildArgs, baseEnv) <==> UndisputedEverywhere(d, buildArgs, baseEnv)
  {
    hide Related, PointAt, RuleAt, Ordered, FlatStages, IsStage, NoFrom, TargetIndex, PreambleOf, EarlierParents, Agree,
         Undisputed, SafeStages;
    if AgreeEverywhere(d, buildArgs, baseEnv) || UndisputedEverywhere(d, buildArgs, baseEnv) {
      EverywhereSafe(d, buildArgs, baseEnv, |d.stages|);
      forall i: nat, line, v | i < |d.stages|
        ensures AgreeAt(d, buildArgs, baseEnv, i, line, v) <==> UndisputedAt(d, buildArgs, baseEnv, i, line, v)
      {
        PointRelated(d, buildArgs, baseEnv, i, line);
        AgreeIff(PointAt(d, buildArgs, baseEnv, i, line), RuleAt(d, buildArgs, baseEnv, i, line), v);
      }
    }
  }

  // ---- a condition one can read off the file ----

  predicate Declares(args: seq<KeyValue>, v: string) {
    exists j :: 0 <= j < |args| && args[j].key == v
  }

  /** No name is declared by an ARG and also set by an ENV, or in the base image. */
  ghost predicate Separate(d: Dockerfile, baseEnv: Vars) {
    forall v :: Declared(d, v) ==> !SetSomewhere(d, baseEnv, v)
  }

  predicate Declared(d: Dockerfile, v: string) {
    Declares(d.preamble.args, v) || exists i :: 0 <= i < |d.stages| && Declares(d.stages[i].args, v)
  }

  predicate SetSomewhere(d: Dockerfile, baseEnv: Vars, v: string) {
    || v in baseEnv || v in EnvNames(d.preamble.instructions)
    || exists i :: 0 <= i < |d.stages| && v in EnvNames(d.stages[i].instructions)
  }

  /** A stage that declares an ARG of the preamble does so always with a default or always without. */
  predicate OneForm(d: Dockerfile) {
    forall i, j, k :: 0 <= i < |d.stages| && 0 <= j < |d.stages[i].args| && 0 <= k < |d.stages[i].args|
                      && d.stages[i].args[j].key == d.stages[i].args[k].key
                      && Declares(d.preamble.args, d.stages[i].args[j].key) ==>
                      (d.stages[i].args[j].value == "" <==> d.stages[i].args[k].value == "")
  }

  /** The name is no ARG of the preamble, or the instructions so far declare it again. */
  predicate Redeclared(d: Dockerfile, before: seq<Node>, v: string) {
    Declares(d.preamble.args, v) ==> Declares(ArgsOf(before), v)
  }

  /** An ARG of the preamble is referred to in a stage only after the stage has declared it. */
  predicate ReferencesRedeclared(d: Dockerfile, buildArgs: Vars) {
    forall i, k, v :: 0 <= i < |d.stages| && 0 <= k < |d.stages[i].instructions|
                      && v in Names(d.stages[i].instructions[k], buildArgs) ==>
                      Redeclared(d, d.stages[i].instructions[..k], v)
  }

  predicate HasArg(args: seq<KeyValue>, v: string, effective: bool, buildArgs: Vars) {
    exists j :: 0 <= j < |args| && args[j].key == v && Effective(args[j], buildArgs) == effective
  }

  lemma {:induction false} ArgFacts(ns: seq<Node>, s: Scope, buildArgs: Vars, v: string)
    ensures v in Run(ns, s, buildArgs).args ==> v in s.args || HasArg(ArgsOf(ns), v, true, buildArgs)
    ensures v in Bare(ns, buildArgs) ==> HasArg(ArgsOf(ns), v, false, buildArgs)
    ensures Declares(ArgsOf(ns), v) ==> v in Run(ns, s, buildArgs).args || v in Bare(ns, buildArgs)
  {
    hide BindEnvs, ArgValue, Expand, ParseArg, ParseEnv, ParseUser, Effective, Is;
    if ns != [] {
      var init, n := ns[..|ns| - 1], ns[|ns| - 1];
      ArgFacts(init, s, buildArgs, v);
      assert forall j :: 0 <= j < |ArgsOf(init)| ==> ArgsOf(ns)[j] == ArgsOf(init)[j];
      if IsArg(n) {
        assert ArgsOf(ns)[|ArgsOf(init)|] == ParseArg(n);
      }
    }
  }

  lemma {:induction false} EnvFacts(ns: seq<Node>, s: Scope, buildArgs: Vars, v: string)
    ensures v in Run(ns, s, buildArgs).env ==> v in s.env || v in EnvNames(ns)
  {
    hide BindEnvs, ArgValue, Expand, ParseArg, ParseEnv, ParseUser, Effective, Keys;
    if ns != [] {
      var init, n := ns[..|ns| - 1], ns[|ns| - 1];
      EnvFacts(init, s, buildArgs, v);
      if IsEnv(n) {
        PairKeys(ParseEnv(n), Visible(Run(init, s, buildArgs)));
      }
    }
  }

  lemma {:induction false} ArgsPrefix(ns: seq<Node>, k: nat)
    requires k <= |ns|
    ensures ArgsOf(ns[..k]) <= ArgsOf(ns)
    ensures EnvNames(ns[..k]) <= EnvNames(ns)
  {
    hide ParseArg, ParseEnv, Keys, Is;
    if k < |ns| {
      ArgsPrefix(ns[..|ns| - 1], k);
      assert ns[..|ns| - 1][..k] == ns[..k];
    } else {
      assert ns[..k] == ns;
    }
  }

  lemma {:induction false} InheritedSet(d: Dockerfile, buildArgs: Vars, baseEnv: Vars, i: nat, v: string)
    requires Shaped(d) && i < |d.stages| && v in Inherited(d, buildArgs, baseEnv, i)
    ensures SetSomewhere(d, baseEnv, v)
    decreases i
  {
    hide Parent, EnvNames, IsStage, NoFrom;
    var j := Parent(d, buildArgs, baseEnv, i).value;
    if v !in EnvNames(d.stages[j].instructions) {
      InheritedSet(d, buildArgs, baseEnv, j, v);
    }
  }

  lemma OuterFacts(d: Dockerfile, buildArgs: Vars, baseEnv: Vars, v: string)
    requires Shaped(d)
    ensures v in PreambleEnd(d, buildArgs, baseEnv).args ==> Declares(d.preamble.args, v)
    ensures v in PreambleEnd(d, buildArgs, baseEnv).env ==> SetSomewhere(d, baseEnv, v)
  {
    hide Run, EnvNames, ArgsOf, EnvsOf, IsStage, NoFrom, TargetIndex;
    ArgFacts(d.preamble.instructions, Scope(map[], baseEnv, ""), buildArgs, v);
    EnvFacts(d.preamble.instructions, Scope(map[], baseEnv, ""), buildArgs, v);
  }

  /** The ARGs a stage has met before instruction k. */
  lemma StageArgFacts(d: Dockerfile, buildArgs: Vars, baseEnv: Vars, i: nat, k: nat, v: string)
    requires Shaped(d) && i < |d.stages| && k <= |d.stages[i].instructions|
    ensures var ns, s := d.stages[i].instructions[..k], Start(d, buildArgs, baseEnv, i);
            && (v in Run(ns, s, buildArgs).args ==> HasArg(d.stages[i].args, v, true, buildArgs))
            && (v in Bare(ns, buildArgs) ==> HasArg(d.stages[i].args, v, false, buildArgs))
            && (Declares(ArgsOf(ns), v) ==> v in Run(ns, s, buildArgs).args || v in Bare(ns, buildArgs))
            && EnvNames(ns) <= EnvNames(d.stages[i].instructions)
  {
    hide Run, Bare, EnvNames, ArgsOf, EnvsOf, UsersOf, NoFrom, TargetIndex, Effective, End, Parent;
    ArgFacts(d.stages[i].instructions[..k], Start(d, buildArgs, baseEnv, i), buildArgs, v);
    ArgsPrefix(d.stages[i].instructions, k);
  }

  lemma HasArgDeclares(args: seq<KeyValue>, v: string, effective: bool, buildArgs: Vars)
    requires HasArg(args, v, effective, buildArgs)
    ensures Declares(args, v)
  {
  }

  lemma NotStale(d: Dockerfile, buildArgs: Vars, i: nat, v: string)
    requires OneForm(d) && i < |d.stages| && Declares(d.preamble.args, v)
    ensures !(HasArg(d.stages[i].args, v, true, buildArgs) && HasArg(d.stages[i].args, v, false, buildArgs))
  {
  }

  lemma ReadableUndisputed(d: Dockerfile, buildArgs: Vars, baseEnv: Vars, i: nat, k: nat, v: string)
    requires Shaped(d) && Separate(d, baseEnv) && OneForm(d)
    requires i < |d.stages| && k <= |d.stages[i].instructions|
    requires Redeclared(d, d.stages[i].instructions[..k], v)
    ensures Undisputed(Along(d.stages[i].instructions[..k], StartPoint(d, buildArgs, baseEnv, i), buildArgs), v)
  {
    hide Run, Bare, EnvNames, ArgsOf, Start, Inherited, PreambleEnd, Along, IsStage, NoFrom, TargetIndex, PreambleOf,
         HasArg, Declares, OneForm;
    var ns := d.stages[i].instructions[..k];
    var p := Along(ns, StartPoint(d, buildArgs, baseEnv, i), buildArgs);
    AlongIs(ns, StartPoint(d, buildArgs, baseEnv, i), buildArgs);
    OuterFacts(d, buildArgs, baseEnv, v);
    StageArgFacts(d, buildArgs, baseEnv, i, k, v);
    if v in p.scope.args {
      HasArgDeclares(d.stages[i].args, v, true, buildArgs);
      assert Declared(d, v);
    }
    if v in Inherited(d, buildArgs, baseEnv, i) {
      InheritedSet(d, buildArgs, baseEnv, i, v);
    }
    if Declares(d.preamble.args, v) {
      NotStale(d, buildArgs, i, v);
    }
  }

  /**
   With names kept apart, one form of ARG and references redeclared, the two evaluators agree on the
   user and on every variable that is no ARG of the preamble or is declared in the stage by then.
   */
  lemma ReadableAgree(d: Dockerfile, buildArgs: Vars, baseEnv: Vars, i: nat, line: nat, v: string)
    requires Shaped(d) && EarlierParents(d, buildArgs, baseEnv) && i < |d.stages|
    requires Separate(d, baseEnv) && OneForm(d) && ReferencesRedeclared(d, buildArgs)
    ensures Redeclared(d, Before(d.stages[i].instructions, line), v) ==>
              Get(Visible(ScopeAt(d, buildArgs, baseEnv, AtStage(i), line)), v)
              == Get(RuleVisible(RuleAt(d, buildArgs, baseEnv, i, line)), v)
    ensures ScopeAt(d, buildArgs, baseEnv, AtStage(i), line).user == RuleAt(d, buildArgs, baseEnv, i, line).user
  {
    hide Run, Bare, EnvNames, ArgsOf, Start, RuleRun, RuleStart, Inherited, PreambleEnd, Along, IsStage, NoFrom,
         TargetIndex, PreambleOf, Undisputed, Separate, OneForm, Redeclared, EarlierParents, Visible, RuleVisible,
         Names, Before;
    forall j, k, w | 0 <= j < |d.stages| && 0 <= k < |d.stages[j].instructions|
                     && w in Names(d.stages[j].instructions[k], buildArgs)
      ensures Undisputed(Along(d.stages[j].instructions[..k], StartPoint(d, buildArgs, baseEnv, j), buildArgs), w)
    {
      ReadableUndisputed(d, buildArgs, baseEnv, j, k, w);
    }
    RulesAgreeIff(d, buildArgs, baseEnv, i, line, v);
    var k := BeforePrefix(d.stages[i].instructions, line);
    if Redeclared(d, d.stages[i].instructions[..k], v) {
      ReadableUndisputed(d, buildArgs, baseEnv, i, k, v);
      AlongIs(d.stages[i].instructions[..k], StartPoint(d, buildArgs, baseEnv, i), buildArgs);
    }
  }

  // ---- the code ----

  /** What the code answers, if the guard loses nothing, is the reference's value exactly if it is undisputed. */
  lemma CodeAgreesIff(d: Dockerfile, buildArgs: Vars, baseEnv: Vars, i: nat, line: nat, v: string, r: string)
    requires Searchable(d, buildArgs, baseEnv, AtStage(i)) && SafeStages(d, buildArgs, baseEnv, |d.stages|)
    requires Answers(d, buildArgs, baseEnv, Ask(v, AtStage(i), line), r)
    requires Kept(d, buildArgs, baseEnv, Ask(v, AtStage(i), line))
    ensures r == Get(RuleVisible(RuleAt(d, buildArgs, baseEnv, i, line)), v)
            <==> Undisputed(PointAt(d, buildArgs, baseEnv, i, line), v)
  {
    hide Answers, Kept, SafeStages, Undisputed, PointAt, RuleAt, ScopeAt, Ordered, FlatStages, IsStage, EarlierParents,
         RuleVisible;
    AnswerExact(d, buildArgs, baseEnv, Ask(v, AtStage(i), line), r);
    RulesAgreeIff(d, buildArgs, baseEnv, i, line, v);
  }

  lemma AtStageEnd(d: Dockerfile, buildArgs: Vars, baseEnv: Vars, i: nat)
    requires InOrder(d) && i < |d.stages|
    ensures Ordered(d.stages[i].instructions)
    ensures ScopeAt(d, buildArgs, baseEnv, AtStage(i), LastLine(d.stages[i]) + 1) == End(d, buildArgs, baseEnv, i)
    ensures RuleAt(d, buildArgs, baseEnv, i, LastLine(d.stages[i]) + 1) == RuleEnd(d, buildArgs, baseEnv, i)
  {
    StageAtEnd(d, buildArgs, baseEnv, i);
    BeforeAll(d.stages[i].instructions, LastLine(d.stages[i]) + 1);
  }

  /** The user the code finds, if the guard loses nothing, is the reference's. */
  lemma CodeUserAgrees(d: Dockerfile, buildArgs: Vars, baseEnv: Vars, i: nat, r: string)
    requires Searchable(d, buildArgs, baseEnv, AtStage(i)) && SafeStages(d, buildArgs, baseEnv, |d.stages|)
    requires UserAnswers(d, buildArgs, baseEnv, i, {}, r) && KeptUser(d, buildArgs, baseEnv, i, {})
    ensures r == RuleEnd(d, buildArgs, baseEnv, i).user
  {
    hide UserAnswers, KeptUser, SafeStages, Undisputed, PointAt, RuleAt, ScopeAt, Ordered, FlatStages, IsStage,
         EarlierParents, End, RuleEnd;
    UserIff(d, buildArgs, baseEnv, i, r);
    AtStageEnd(d, buildArgs, baseEnv, i);
    RulesAgreeIff(d, buildArgs, baseEnv, i, LastLine(d.stages[i]) + 1, "");
  }

  /** The condition read off the file, for what the code answers. */
  lemma CodeReadable(d: Dockerfile, buildArgs: Vars, baseEnv: Vars, i: nat, line: nat, v: string, r: string)
    requires Searchable(d, buildArgs, baseEnv, AtStage(i))
    requires Separate(d, baseEnv) && OneForm(d) && ReferencesRedeclared(d, buildArgs)
    requires Redeclared(d, Before(d.stages[i].instructions, line), v)
    requires Answers(d, buildArgs, baseEnv, Ask(v, AtStage(i), line), r)
    requires Kept(d, buildArgs, baseEnv, Ask(v, AtStage(i), line))
    ensures r == Get(RuleVisible(RuleAt(d, buildArgs, baseEnv, i, line)), v)
  {
    hide Answers, Kept, RuleAt, ScopeAt, Ordered, FlatStages, IsStage, EarlierParents, RuleVisible, Separate, OneForm,
         Redeclared, ReferencesRedeclared, Before;
    AnswerExact(d, buildArgs, baseEnv, Ask(v, AtStage(i), line), r);
    ReadableAgree(d, buildArgs, baseEnv, i, line, v);
  }
}
