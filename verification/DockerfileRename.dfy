/**
 Naming the final stage (EnsureDockerfileHasFinalStageName): the last FROM gets `AS name`. The
 compose path analyses the original file but builds the rewritten one, so the two must mean the same.
 */
module DockerfileRename {
  import opened Text
  import opened DockerfileSyntax
  import opened Dockerfile
  import opened DockerfileScope
  import opened DockerfileSearch
  import opened DockerfileExact
  import opened DockerfileEnds
  import opened DockerfileFind
  import opened DockerfileTwins
  import opened DockerfileQueries

  datatype NameResult =
    | NoFromStatement
    | BadFromStatement
    | AlreadyNamed(stage: string)
    | Rewritten(stage: string, index: nat, node: Node)

  predicate IsLastFrom(ns: seq<Node>, k: nat) {
    k < |ns| && IsFrom(ns[k]) && forall j :: k < j < |ns| ==> !IsFrom(ns[j])
  }

  function WithName(from: Node, name: string): Node
    requires from.Node? && from.next.Node?
  {
    from.(next := from.next.(next := Token("AS", Token(name, Nil))))
  }

  method EnsureFinalStageName(ns: seq<Node>, name: string) returns (r: NameResult)
    ensures r.NoFromStatement? <==> NoFrom(ns)
    ensures r.BadFromStatement? <==> exists k: nat :: IsLastFrom(ns, k) && ns[k].next.Nil?
    ensures r.AlreadyNamed? <==> exists k: nat :: IsLastFrom(ns, k) && Named(ns[k])
    ensures r.AlreadyNamed? ==> exists k: nat :: IsLastFrom(ns, k) && r.stage == ns[k].next.next.next.value
    ensures r.Rewritten? ==>
              && IsLastFrom(ns, r.index) && ns[r.index].next.Node? && !Named(ns[r.index])
              && r.stage == name && r.node == WithName(ns[r.index], name)
    ensures r.Rewritten? ==>
              var from := ns[r.index];
              && r.node.Node? && r.node.value == from.value && r.node.flags == from.flags
              && r.node.comments == from.comments
              && r.node.startLine == from.startLine && r.node.endLine == from.endLine
              && WordsOf(r.node) == [from.value] + from.flags + [from.next.value] + from.next.flags + ["AS", name]
  {
    var last := -1;
    for k := 0 to |ns|
      invariant -1 <= last < k
      invariant last >= 0 ==> IsFrom(ns[last])
      invariant forall j :: last < j < k ==> !IsFrom(ns[j])
    {
      if IsFrom(ns[k]) {
        last := k;
      }
    }
    if last == -1 {
      return NoFromStatement;
    }
    assert IsLastFrom(ns, last);
    var from := ns[last];
    if from.next.Nil? {
      return BadFromStatement;
    }
    if from.next.next.Node? && from.next.next.next.Node? && ToLower(from.next.next.value) == "as" {
      assert Named(ns[last]);
      return AlreadyNamed(from.next.next.next.value);
    }
    NamedWords(from, name);
    return Rewritten(name, last, WithName(from, name));
  }

  // ---- the rewritten file, parsed again ----

  function Renamed(d: Dockerfile, name: string): Dockerfile
    requires Shaped(d) && d.stages != []
    requires d.stages[|d.stages| - 1].instructions[0].next.Node?
  {
    var n := |d.stages| - 1;
    var ns := d.stages[n].instructions;
    var stages := d.stages[n := StageOf(ns[0 := WithName(ns[0], name)])];
    Dockerfile(d.preamble, stages, TargetIndex(stages))
  }

  /** A FROM contributes to none of the lists, so replacing it by another changes none. */
  lemma {:induction false} ReplaceFrom(ns: seq<Node>, from: Node)
    requires ns != [] && IsFrom(ns[0]) && IsFrom(from)
    ensures ArgsOf(ns[0 := from]) == ArgsOf(ns)
    ensures EnvsOf(ns[0 := from]) == EnvsOf(ns)
    ensures UsersOf(ns[0 := from]) == UsersOf(ns)
  {
    var ns' := ns[0 := from];
    var init, init' := ns[..|ns| - 1], ns'[..|ns'| - 1];
    if |ns| == 1 {
      assert ns' == [from] && ns == [ns[0]];
      FirstStage(from);
      FirstStage(ns[0]);
    } else {
      assert init' == init[0 := from];
      ReplaceFrom(init, from);
    }
  }

  lemma {:induction false} RunReplaceFrom(ns: seq<Node>, from: Node, s: Scope, buildArgs: Vars)
    requires ns != [] && IsFrom(ns[0]) && IsFrom(from)
    ensures Run(ns[0 := from], s, buildArgs) == Run(ns, s, buildArgs)
  {
    hide Exec;
    var ns' := ns[0 := from];
    var init, init' := ns[..|ns| - 1], ns'[..|ns'| - 1];
    if |ns| == 1 {
      assert init == [] && init' == [] && Run([], s, buildArgs) == s;
      ExecFrom(ns[0], s, buildArgs);
      ExecFrom(from, s, buildArgs);
    } else {
      assert init' == init[0 := from];
      RunReplaceFrom(init, from, s, buildArgs);
    }
  }

  lemma ExecFrom(n: Node, s: Scope, buildArgs: Vars)
    requires IsFrom(n)
    ensures Exec(n, s, buildArgs) == s
  {
    assert !Is(n, "arg") && !Is(n, "env") && !Is(n, "user");
  }

  lemma RenamedStage(s: Stage, name: string)
    requires IsStage(s) && s.instructions[0].next.Node?
    ensures var from := WithName(s.instructions[0], name);
            StageOf(s.instructions[0 := from]) == s.(target := name, instructions := s.instructions[0 := from])
    ensures IsStage(StageOf(s.instructions[0 := WithName(s.instructions[0], name)]))
  {
    var from := WithName(s.instructions[0], name);
    ReplaceFrom(s.instructions, from);
    assert ToLower("AS") == "as";
    assert TargetOf(from) == name;
  }

  lemma LastTarget(stages: seq<Stage>, last: Stage)
    requires stages != []
    ensures TargetIndex(stages[|stages| - 1 := last])
            == (var m := TargetIndex(stages[..|stages| - 1]);
                if last.target == "" then m else m[last.target := |stages| - 1])
  {
    assert stages[|stages| - 1 := last][..|stages| - 1] == stages[..|stages| - 1];
  }

  /** The rewritten file differs in the name and first instruction of the last stage, nothing else. */
  lemma RenamedShaped(d: Dockerfile, name: string)
    requires Shaped(d) && d.stages != [] && name != ""
    requires d.stages[|d.stages| - 1].instructions[0].next.Node? && d.stages[|d.stages| - 1].target == ""
    ensures var d', n := Renamed(d, name), |d.stages| - 1;
            var from := WithName(d.stages[n].instructions[0], name);
            && Shaped(d') && |d'.stages| == |d.stages|
            && d'.stages[n] == d.stages[n].(target := name, instructions := d.stages[n].instructions[0 := from])
            && d'.preamble == d.preamble && d'.stages[..n] == d.stages[..n]
            && d'.byTarget == d.byTarget[name := n]
  {
    var n := |d.stages| - 1;
    RenamedStage(d.stages[n], name);
    LastTarget(d.stages, Renamed(d, name).stages[n]);
    LastTarget(d.stages, d.stages[n]);
    assert d.stages[n := d.stages[n]] == d.stages;
  }

  lemma LastFromPosition(d: Dockerfile, k: nat)
    requires Shaped(d) && d.stages != [] && IsLastFrom(Flat(d), k)
    ensures var ns := d.stages[|d.stages| - 1].instructions;
            k == |Flat(d)| - |ns| && Flat(d)[k] == ns[0]
  {
    var init, ns := d.stages[..|d.stages| - 1], d.stages[|d.stages| - 1].instructions;
    var before := d.preamble.instructions + FlatStages(init);
    assert Flat(d) == before + ns;
    assert Flat(d)[|before|] == ns[0];
    if k > |before| {
      assert false;
    }
  }

  lemma RenamedFlat(d: Dockerfile, name: string, k: nat)
    requires Shaped(d) && d.stages != [] && name != "" && IsLastFrom(Flat(d), k)
    requires Flat(d)[k].next.Node? && !Named(Flat(d)[k])
    ensures d.stages[|d.stages| - 1].instructions[0].next.Node? && d.stages[|d.stages| - 1].target == ""
    ensures Shaped(Renamed(d, name))
    ensures Flat(Renamed(d, name)) == Flat(d)[k := WithName(Flat(d)[k], name)]
  {
    LastFromPosition(d, k);
    RenamedShaped(d, name);
    var n := |d.stages| - 1;
    var d' := Renamed(d, name);
    assert d'.stages[..n] == d.stages[..n];
    var before := d.preamble.instructions + FlatStages(d.stages[..n]);
    assert Flat(d) == before + d.stages[n].instructions;
    assert Flat(d') == before + d'.stages[n].instructions;
  }

  /** Parsing the rewritten instructions gives exactly the renamed file. */
  lemma ReparseRenamed(d: Dockerfile, d': Dockerfile, name: string, k: nat)
    requires Shaped(d) && d.stages != [] && name != "" && IsLastFrom(Flat(d), k)
    requires Flat(d)[k].next.Node? && !Named(Flat(d)[k])
    requires Shaped(d') && Flat(d') == Flat(d)[k := WithName(Flat(d)[k], name)]
    ensures d.stages[|d.stages| - 1].instructions[0].next.Node?
    ensures d' == Renamed(d, name)
  {
    RenamedFlat(d, name, k);
    ParseUnique(d', Renamed(d, name));
  }

  // ---- meaning is preserved ----

  /** The added name is free: no stage has it and no FROM resolves to it. */
  predicate Free(d: Dockerfile, buildArgs: Vars, baseEnv: Vars, name: string) {
    && name != "" && name !in d.byTarget
    && forall i :: 0 <= i < |d.stages| ==> BaseName(d, buildArgs, baseEnv, i) != name
  }

  predicate Renameable(d: Dockerfile, buildArgs: Vars, baseEnv: Vars, name: string) {
    && Shaped(d) && d.stages != [] && Free(d, buildArgs, baseEnv, name)
    && d.stages[|d.stages| - 1].instructions[0].next.Node? && d.stages[|d.stages| - 1].target == ""
  }

  lemma RenamedParent(d: Dockerfile, buildArgs: Vars, baseEnv: Vars, name: string, i: nat)
    requires Renameable(d, buildArgs, baseEnv, name) && i < |d.stages|
    ensures Shaped(Renamed(d, name)) && i < |Renamed(d, name).stages|
    ensures BaseName(Renamed(d, name), buildArgs, baseEnv, i) == BaseName(d, buildArgs, baseEnv, i)
    ensures Parent(Renamed(d, name), buildArgs, baseEnv, i) == Parent(d, buildArgs, baseEnv, i)
  {
    RenamedShaped(d, name);
    hide Run, Expand, StageOf, TargetIndex, IsStage;
    assert Renamed(d, name).stages[i].image == d.stages[i].image;
  }

  lemma {:induction false} RenamedEnd(d: Dockerfile, buildArgs: Vars, baseEnv: Vars, name: string, i: nat)
    requires Renameable(d, buildArgs, baseEnv, name) && i < |d.stages|
    ensures Shaped(Renamed(d, name)) && i < |Renamed(d, name).stages|
    ensures Start(Renamed(d, name), buildArgs, baseEnv, i) == Start(d, buildArgs, baseEnv, i)
    ensures End(Renamed(d, name), buildArgs, baseEnv, i) == End(d, buildArgs, baseEnv, i)
    decreases i
  {
    hide Run, Expand, StageOf, TargetIndex;
    RenamedShaped(d, name);
    RenamedParent(d, buildArgs, baseEnv, name, i);
    var parent := Parent(d, buildArgs, baseEnv, i);
    if parent.Some? && parent.value < i {
      RenamedEnd(d, buildArgs, baseEnv, name, parent.value);
    }
    if i == |d.stages| - 1 {
      var ns := d.stages[i].instructions;
      RunReplaceFrom(ns, WithName(ns[0], name), Start(d, buildArgs, baseEnv, i), buildArgs);
    }
  }

  lemma RenamedSameParents(d: Dockerfile, buildArgs: Vars, name: string)
    requires Renameable(d, buildArgs, map[], name)
    ensures Shaped(Renamed(d, name))
    ensures SameParents(d, buildArgs, Renamed(d, name), buildArgs)
    ensures SameParents(Renamed(d, name), buildArgs, d, buildArgs)
  {
    hide Run, Expand, StageOf, TargetIndex, IsStage, Parent, BaseName, Renamed;
    RenamedShaped(d, name);
    var d' := Renamed(d, name);
    forall i | 0 <= i < |d.stages|
      ensures BaseName(d', buildArgs, map[], i) == BaseName(d, buildArgs, map[], i)
      ensures Parent(d', buildArgs, map[], i) == Parent(d, buildArgs, map[], i)
    {
      RenamedParent(d, buildArgs, map[], name, i);
    }
  }

  /**
   Naming the final stage preserves meaning: the new name selects the last stage, every other target
   selects what it did, and the user and base image of every selected stage are the same.
   */
  lemma NamingPreservesMeaning(d: Dockerfile, buildArgs: Vars, baseEnv: Vars, name: string, target: string)
    requires Renameable(d, buildArgs, baseEnv, name) && Free(d, buildArgs, map[], name)
    requires target == "" || target in d.byTarget
    ensures Shaped(Renamed(d, name)) && Renamed(d, name).stages != []
    ensures Select(Renamed(d, name), name) == Select(d, "") == |d.stages| - 1
    ensures Select(Renamed(d, name), target) == Select(d, target)
    ensures End(Renamed(d, name), buildArgs, baseEnv, Select(d, target)).user
            == End(d, buildArgs, baseEnv, Select(d, target)).user
    ensures forall r :: IsBaseImage(Renamed(d, name), buildArgs, Select(d, target), r)
                        <==> IsBaseImage(d, buildArgs, Select(d, target), r)
  {
    hide StageOf, TargetIndex, IsStage, End, SameParents, IsBaseImage, BaseName, Renamed, NoFrom, PreambleOf;
    var d' := Renamed(d, name);
    RenamedShaped(d, name);
    RenamedEnd(d, buildArgs, baseEnv, name, Select(d, target));
    RenamedSameParents(d, buildArgs, name);
    forall r | IsBaseImage(d, buildArgs, Select(d, target), r)
      ensures IsBaseImage(d', buildArgs, Select(d, target), r)
    {
      SameBaseImage(d, buildArgs, d', buildArgs, Select(d, target), r);
    }
    forall r | IsBaseImage(d', buildArgs, Select(d, target), r)
      ensures IsBaseImage(d, buildArgs, Select(d, target), r)
    {
      SameBaseImage(d', buildArgs, d, buildArgs, Select(d, target), r);
    }
  }

  // ---- the code's own answers on both files ----

  lemma RenamedInOrder(d: Dockerfile, name: string)
    requires InOrder(d) && name != ""
    requires d.stages[|d.stages| - 1].instructions[0].next.Node? && d.stages[|d.stages| - 1].target == ""
    ensures InOrder(Renamed(d, name))
  {
    RenamedShaped(d, name);
    var n, d' := |d.stages| - 1, Renamed(d, name);
    assert d'.stages[..n] == d.stages[..n];
    var before := d.preamble.instructions + FlatStages(d.stages[..n]);
    assert Flat(d) == before + d.stages[n].instructions;
    assert Flat(d') == before + d'.stages[n].instructions;
    forall k | 0 <= k < |Flat(d)|
      ensures Flat(d')[k].Node? && Flat(d')[k].startLine == Flat(d)[k].startLine
    {
      if k >= |before| {
        assert Flat(d)[k] == d.stages[n].instructions[k - |before|];
        assert Flat(d')[k] == d'.stages[n].instructions[k - |before|];
      }
    }
  }

  lemma DashInside(image: string, name: string, image': string, target: string)
    requires |target| < |name| && image + "-" + name == image' + "-" + target
    ensures '-' in name
  {
    assert (image' + "-" + target)[|image'|] == '-';
    assert (image + "-" + name)[|image'|] == name[|image'| - |image| - 1];
  }

  /** An identity "image-name" whose name has no dash can only be shared through the name. */
  lemma IdEndsInName(image: string, name: string, image': string, target: string)
    requires '-' !in name && image + "-" + name == image' + "-" + target
    ensures target == name || (|target| > |name| && target[|target| - |name| - 1..] == "-" + name)
  {
    var id, id' := image + "-" + name, image' + "-" + target;
    if |target| < |name| {
      DashInside(image, name, image', target);
      assert false;
    }
    assert target == id'[|image'| + 1..];
    assert name == id[|image| + 1..];
    if |target| > |name| {
      assert target[|target| - |name| - 1..] == id'[|image|..] == id[|image|..];
      assert id[|image|..] == "-" + name;
    }
  }

  /** The name has no dash and no stage's name ends in it; true of the name DevPod adds. */
  predicate Distinctive(d: Dockerfile, name: string) {
    && name != "" && '-' !in name
    && forall t :: t in d.byTarget ==>
         t != name && (|t| <= |name| || t[|t| - |name| - 1..] != "-" + name)
  }

  /** A place that a FROM leads to: the preamble or a stage with a name. */
  predicate Reached(d: Dockerfile, p: Place)
    requires InFile(d, p)
  {
    p.AtStage? ==> d.stages[p.i].target in d.byTarget
  }

  lemma ParentReached(d: Dockerfile, buildArgs: Vars, baseEnv: Vars, i: nat)
    requires Shaped(d) && i < |d.stages|
    ensures Reached(d, ParentPlace(d, buildArgs, baseEnv, i))
  {
    hide Run, Expand, IsStage, BaseName;
  }

  lemma {:induction false} NameNotMet(d: Dockerfile, buildArgs: Vars, baseEnv: Vars, name: string, p: Place,
                                      image: string)
    requires Shaped(d) && EarlierParents(d, buildArgs, baseEnv) && Distinctive(d, name)
    requires InFile(d, p) && Reached(d, p)
    ensures image + "-" + name !in Ids(d, buildArgs, baseEnv, p)
    decreases Rank(p)
  {
    hide Run, Expand, IsStage, BaseName;
    if p.AtStage? {
      var s := d.stages[p.i];
      ParentReached(d, buildArgs, baseEnv, p.i);
      NameNotMet(d, buildArgs, baseEnv, name, ParentPlace(d, buildArgs, baseEnv, p.i), image);
      if image + "-" + name == s.image + "-" + s.target {
        IdEndsInName(image, name, s.image, s.target);
        assert false;
      }
    } else {
      assert StageId(d.preamble) == "-";
      assert |image + "-" + name| > 1;
    }
  }

  lemma RenamedEarlier(d: Dockerfile, buildArgs: Vars, baseEnv: Vars, name: string)
    requires Renameable(d, buildArgs, baseEnv, name) && EarlierParents(d, buildArgs, baseEnv)
    ensures Shaped(Renamed(d, name)) && EarlierParents(Renamed(d, name), buildArgs, baseEnv)
  {
    hide Run, Expand, StageOf, TargetIndex, BaseName;
    RenamedShaped(d, name);
    forall i | 0 <= i < |d.stages|
      ensures Parent(Renamed(d, name), buildArgs, baseEnv, i) == Parent(d, buildArgs, baseEnv, i)
    {
      RenamedParent(d, buildArgs, baseEnv, name, i);
    }
  }

  // ---- both files searched ----

  /** The places on the way from a place to the preamble. */
  function Chain(d: Dockerfile, buildArgs: Vars, baseEnv: Vars, p: Place): (on: set<Place>)
    requires Shaped(d) && EarlierParents(d, buildArgs, baseEnv) && InFile(d, p)
    ensures p in on && AtPreamble in on && forall x :: x in on ==> InFile(d, x)
    decreases Rank(p)
  {
    if p.AtPreamble? then {p} else {p} + Chain(d, buildArgs, baseEnv, ParentPlace(d, buildArgs, baseEnv, p.i))
  }

  lemma {:induction false} ChainClosed(d: Dockerfile, buildArgs: Vars, baseEnv: Vars, p: Place, x: Place)
    requires Shaped(d) && EarlierParents(d, buildArgs, baseEnv) && InFile(d, p)
    requires x in Chain(d, buildArgs, baseEnv, p)
    ensures x.AtStage? ==> ParentPlace(d, buildArgs, baseEnv, x.i) in Chain(d, buildArgs, baseEnv, p)
    ensures StageId(StageAt(d, x)) in Ids(d, buildArgs, baseEnv, p)
    ensures Rank(x) <= Rank(p)
    decreases Rank(p)
  {
    hide Parent, StageId, IsStage, NoFrom;
    if x != p {
      ChainClosed(d, buildArgs, baseEnv, ParentPlace(d, buildArgs, baseEnv, p.i), x);
    }
  }

  /** The final stage, unnamed or named, has an identity of its own among the stages it is built from. */
  predicate LastApart(d: Dockerfile, buildArgs: Vars, baseEnv: Vars)
    requires Shaped(d) && EarlierParents(d, buildArgs, baseEnv) && d.stages != []
  {
    var n := |d.stages| - 1;
    StageId(d.stages[n]) !in Ids(d, buildArgs, baseEnv, ParentPlace(d, buildArgs, baseEnv, n))
  }

  lemma RenamedSameShape(d: Dockerfile, name: string)
    requires InOrder(d) && name != ""
    requires d.stages[|d.stages| - 1].instructions[0].next.Node? && d.stages[|d.stages| - 1].target == ""
    ensures SameShape(d, Renamed(d, name))
  {
    hide Ordered, FlatStages, StageOf, NoFrom, TargetIndex, PreambleOf, IsStage, Indexed;
    RenamedShaped(d, name);
    RenamedInOrder(d, name);
    InOrderIndexed(d);
    InOrderIndexed(Renamed(d, name));
    RenamedLines(d, name);
  }

  lemma RenamedLines(d: Dockerfile, name: string)
    requires Shaped(d) && d.stages != [] && name != "" && Indexed(d)
    requires d.stages[|d.stages| - 1].instructions[0].next.Node? && d.stages[|d.stages| - 1].target == ""
    requires Indexed(Renamed(d, name))
    ensures var d' := Renamed(d, name);
            && |d'.stages| == |d.stages| && FromLine(d') == FromLine(d)
            && forall i :: 0 <= i < |d.stages| ==>
                 SameLists(d.stages[i], d'.stages[i]) && EndLine(d, i) == EndLine(d', i)
  {
    hide Ordered, FlatStages, StageOf, NoFrom, TargetIndex, PreambleOf, IsStage, Renamed;
    RenamedShaped(d, name);
    var d', n := Renamed(d, name), |d.stages| - 1;
    forall i | 0 <= i < n ensures d'.stages[i] == d.stages[i] {
      assert d'.stages[..n][i] == d.stages[..n][i];
    }
  }

  lemma RenamedId(d: Dockerfile, name: string, x: Place)
    requires Shaped(d) && d.stages != [] && name != "" && InFile(d, x)
    requires d.stages[|d.stages| - 1].instructions[0].next.Node? && d.stages[|d.stages| - 1].target == ""
    ensures InFile(Renamed(d, name), x)
    ensures var n := |d.stages| - 1;
            StageId(StageAt(Renamed(d, name), x))
            == if x == AtStage(n) then d.stages[n].image + "-" + name else StageId(StageAt(d, x))
  {
    RenamedShaped(d, name);
    hide IsStage, NoFrom, TargetIndex, PreambleOf;
  }

  /** On the chain of the final stage no other place has its old or its new identity. */
  lemma ApartFromLast(d: Dockerfile, buildArgs: Vars, baseEnv: Vars, name: string, x: Place)
    requires Shaped(d) && d.stages != [] && Distinctive(d, name)
    requires EarlierParents(d, buildArgs, baseEnv) && LastApart(d, buildArgs, baseEnv)
    requires x in Chain(d, buildArgs, baseEnv, AtStage(|d.stages| - 1)) && x != AtStage(|d.stages| - 1)
    ensures StageId(StageAt(d, x)) != StageId(d.stages[|d.stages| - 1])
    ensures StageId(StageAt(d, x)) != d.stages[|d.stages| - 1].image + "-" + name
  {
    hide Parent, IsStage, NoFrom, TargetIndex, Ids, Distinctive, Shaped, StageId;
    var n := |d.stages| - 1;
    var p := ParentPlace(d, buildArgs, baseEnv, n);
    ParentReached(d, buildArgs, baseEnv, n);
    NameNotMet(d, buildArgs, baseEnv, name, p, d.stages[n].image);
    ChainClosed(d, buildArgs, baseEnv, p, x);
  }

  /** Identities are shared alike along the chain of the final stage. */
  lemma RenamedIds(d: Dockerfile, buildArgs: Vars, baseEnv: Vars, name: string, x: Place, y: Place)
    requires Renameable(d, buildArgs, baseEnv, name) && Distinctive(d, name)
    requires EarlierParents(d, buildArgs, baseEnv) && LastApart(d, buildArgs, baseEnv)
    requires var on := Chain(d, buildArgs, baseEnv, AtStage(|d.stages| - 1)); x in on && y in on
    ensures InFile(Renamed(d, name), x) && InFile(Renamed(d, name), y)
    ensures SameId(d, x, y) <==> SameId(Renamed(d, name), x, y)
  {
    hide Parent, IsStage, NoFrom, TargetIndex, Ids, Distinctive, StageId, Chain, LastApart, Renamed, PreambleOf;
    var last := AtStage(|d.stages| - 1);
    RenamedId(d, name, x);
    RenamedId(d, name, y);
    if x != last {
      ApartFromLast(d, buildArgs, baseEnv, name, x);
    }
    if y != last {
      ApartFromLast(d, buildArgs, baseEnv, name, y);
    }
  }

  lemma RenamedTarget(d: Dockerfile, buildArgs: Vars, baseEnv: Vars, name: string, x: Place, fuel: nat)
    requires InOrder(d) && Indexed(d) && Renameable(d, buildArgs, baseEnv, name)
    requires EarlierParents(d, buildArgs, baseEnv)
    requires x in Chain(d, buildArgs, baseEnv, AtStage(|d.stages| - 1)) && x.AtStage?
    ensures var image := Replace(d, buildArgs, baseEnv, Scan(d.stages[x.i].image), AtPreamble, FromLine(d), fuel);
            var on := Chain(d, buildArgs, baseEnv, AtStage(|d.stages| - 1));
            image.Some? ==> SameTarget(d, Renamed(d, name), on, image.value)
  {
    RenamedShaped(d, name);
    hide BaseName, IsStage, NoFrom, TargetIndex, Chain, Replace, Scan, Ordered, FlatStages;
    ChainClosed(d, buildArgs, baseEnv, AtStage(|d.stages| - 1), x);
    if Replace(d, buildArgs, baseEnv, Scan(d.stages[x.i].image), AtPreamble, FromLine(d), fuel).Some? {
      ImageExact(d, buildArgs, baseEnv, x.i, fuel);
    }
  }

  lemma RenamedTwins(d: Dockerfile, buildArgs: Vars, baseEnv: Vars, name: string)
    requires InOrder(d) && Renameable(d, buildArgs, baseEnv, name) && Distinctive(d, name)
    requires EarlierParents(d, buildArgs, baseEnv) && LastApart(d, buildArgs, baseEnv)
    ensures Twins(d, buildArgs, Renamed(d, name), buildArgs, baseEnv,
                  Chain(d, buildArgs, baseEnv, AtStage(|d.stages| - 1)))
  {
    hide IsStage, NoFrom, TargetIndex, Chain, Replace, Scan, Ordered, FlatStages, Renamed, LastApart, Parent,
         EarlierParents, Distinctive, SameId, SameTarget, PreambleOf;
    InOrderIndexed(d);
    RenamedSameShape(d, name);
    var d', on := Renamed(d, name), Chain(d, buildArgs, baseEnv, AtStage(|d.stages| - 1));
    forall x, y | x in on && y in on
      ensures InFile(d', x) && InFile(d', y) && (SameId(d, x, y) <==> SameId(d', x, y))
    {
      RenamedIds(d, buildArgs, baseEnv, name, x, y);
    }
    forall x, fuel: nat | x in on && x.AtStage?
      ensures var image := Replace(d, buildArgs, baseEnv, Scan(d.stages[x.i].image), AtPreamble, FromLine(d), fuel);
              image.Some? ==> SameTarget(d, d', on, image.value)
    {
      RenamedTarget(d, buildArgs, baseEnv, name, x, fuel);
    }
  }

  /** The user found in the file as it was is the user found in the renamed file. */
  lemma RenamedUser(d: Dockerfile, buildArgs: Vars, baseEnv: Vars, name: string, r: string, r': string)
    requires InOrder(d) && Renameable(d, buildArgs, baseEnv, name) && Distinctive(d, name)
    requires EarlierParents(d, buildArgs, baseEnv) && LastApart(d, buildArgs, baseEnv)
    requires UserAnswers(d, buildArgs, baseEnv, |d.stages| - 1, {}, r)
    requires UserAnswers(Renamed(d, name), buildArgs, baseEnv, |d.stages| - 1, {}, r')
    ensures r == r'
  {
    hide SearchUser, Ordered, FlatStages, IsStage, NoFrom, TargetIndex, PreambleOf, Distinctive, EarlierParents,
         LastApart, Twins, Renamed;
    RenamedTwins(d, buildArgs, baseEnv, name);
    var n, d' := |d.stages| - 1, Renamed(d, name);
    var on := Chain(d, buildArgs, baseEnv, AtStage(n));
    var f: nat :| SearchUser(d', buildArgs, baseEnv, n, {}, f) == Some(r');
    SearchUserAgrees(d, buildArgs, d', buildArgs, baseEnv, on, n, {}, {}, f);
    OneUser(d, buildArgs, baseEnv, n, {}, r, r');
  }

  /**
   The exact condition, for any name that is free: if the guard loses nothing in the renamed file, the
   users are the same exactly if it loses nothing in the original either.
   */
  lemma RenamedUserIff(d: Dockerfile, buildArgs: Vars, baseEnv: Vars, name: string, r: string, r': string)
    requires InOrder(d) && Renameable(d, buildArgs, baseEnv, name) && EarlierParents(d, buildArgs, baseEnv)
    requires UserAnswers(d, buildArgs, baseEnv, |d.stages| - 1, {}, r)
    requires UserAnswers(Renamed(d, name), buildArgs, baseEnv, |d.stages| - 1, {}, r')
    ensures Searchable(Renamed(d, name), buildArgs, baseEnv, AtStage(|d.stages| - 1))
    ensures KeptUser(Renamed(d, name), buildArgs, baseEnv, |d.stages| - 1, {}) ==>
              && (KeptUser(d, buildArgs, baseEnv, |d.stages| - 1, {}) ==> r == r')
              && (SimpleUser(d, buildArgs, baseEnv, |d.stages| - 1, {}) ==>
                    (r == r' <==> KeptUser(d, buildArgs, baseEnv, |d.stages| - 1, {})))
  {
    hide Ordered, FlatStages, IsStage, NoFrom, TargetIndex, PreambleOf, KeptUser, SimpleUser, UserAnswers, End, Renamed,
         Parent;
    var n := |d.stages| - 1;
    RenamedInOrder(d, name);
    RenamedEarlier(d, buildArgs, baseEnv, name);
    RenamedEnd(d, buildArgs, baseEnv, name, n);
    UserIff(d, buildArgs, baseEnv, n, r);
    UserIff(Renamed(d, name), buildArgs, baseEnv, n, r');
  }

  /** Both files keep the user, or the final stage's identity is never met again in either. */
  predicate NamingKeepsUser(d: Dockerfile, d': Dockerfile, buildArgs: Vars, baseEnv: Vars, name: string, n: nat)
    requires Searchable(d, buildArgs, baseEnv, AtStage(n)) && Searchable(d', buildArgs, baseEnv, AtStage(n))
  {
    || (LastApart(d, buildArgs, baseEnv) && Distinctive(d, name))
    || (KeptUser(d, buildArgs, baseEnv, n, {}) && KeptUser(d', buildArgs, baseEnv, n, {}))
  }

  /**
   prepareComposeBuildInfo: user and base image are looked up in the original file with no target,
   while the rewritten file is built with the added name as target. `d'` is the second file parsed.
   */
  method ComposeAnalysis(d: Dockerfile, d': Dockerfile, name: string, k: nat, buildArgs: Vars, baseEnv: Vars)
    returns (user: string, built: string, image: string, builtOn: string)
    requires InOrder(d) && EarlierParents(d, buildArgs, baseEnv)
    requires IsLastFrom(Flat(d), k) && Flat(d)[k].next.Node? && !Named(Flat(d)[k])
    requires Shaped(d') && Flat(d') == Flat(d)[k := WithName(Flat(d)[k], name)]
    requires Free(d, buildArgs, baseEnv, name) && Free(d, buildArgs, map[], name)
    ensures image == builtOn
    ensures Searchable(d', buildArgs, baseEnv, AtStage(|d.stages| - 1))
    ensures NamingKeepsUser(d, d', buildArgs, baseEnv, name, |d.stages| - 1) ==> user == built
    ensures KeptUser(d', buildArgs, baseEnv, |d.stages| - 1, {})
            && SimpleUser(d, buildArgs, baseEnv, |d.stages| - 1, {}) ==>
              (user == built <==> KeptUser(d, buildArgs, baseEnv, |d.stages| - 1, {}))
    ensures KeptUser(d, buildArgs, baseEnv, |d.stages| - 1, {}) ==>
              user == End(d, buildArgs, baseEnv, |d.stages| - 1).user
  {
    hide Run, Expand, Ordered, StageOf, FlatStages, TargetIndex, Parent, LastApart, EarlierParents, KeptUser,
         SimpleUser, UserAnswers, UserCircular, Distinctive;
    ReparseRenamed(d, d', name, k);
    RenamedFlat(d, name, k);
    RenamedInOrder(d, name);
    RenamedEarlier(d, buildArgs, baseEnv, name);
    NamingPreservesMeaning(d, buildArgs, baseEnv, name, "");
    var n := |d.stages| - 1;
    SearchableUserEnds(d, buildArgs, baseEnv, n);
    SearchableUserEnds(d', buildArgs, baseEnv, n);
    user := FindUserStatement(d, buildArgs, baseEnv, "");
    built := FindUserStatement(d', buildArgs, baseEnv, name);
    RenamedUserIff(d, buildArgs, baseEnv, name, user, built);
    if LastApart(d, buildArgs, baseEnv) && Distinctive(d, name) {
      RenamedUser(d, buildArgs, baseEnv, name, user, built);
    }
    ghost var walk;
    image, walk := FindBaseImage(d, buildArgs, "");
    builtOn, walk := FindBaseImage(d', buildArgs, name);
    BaseImageUnique(d, buildArgs, Select(d, ""), image, builtOn);
  }

  /** A final stage that already has a name is selected by it. */
  lemma NamedSelectsLast(d: Dockerfile, k: nat)
    requires Shaped(d) && d.stages != [] && IsLastFrom(Flat(d), k) && Named(Flat(d)[k])
    ensures Select(d, Flat(d)[k].next.next.next.value) == |d.stages| - 1
  {
    LastFromPosition(d, k);
    var n := |d.stages| - 1;
    LastTarget(d.stages, d.stages[n]);
    assert d.stages[n := d.stages[n]] == d.stages;
  }

  // ---- the rewritten text ----

  function FlagText(flags: seq<string>): string {
    if flags == [] then "" else " " + flags[0] + FlagText(flags[1..])
  }

  function DumpNode(n: Node): string
    requires n.Node?
  {
    (if n.comments != [] then "# " + Join(n.comments, "\n# ") else "")
    + (if n.value != "" then (if n.comments != [] then "\n" else "") + n.value else "")
    + FlagText(n.flags)
    + (if n.next.Node? then " " + DumpNode(n.next) else "")
  }

  function WordsOf(n: Node): (ws: seq<string>)
    ensures n.Node? ==> ws != []
  {
    if n.Nil? then [] else [n.value] + n.flags + WordsOf(n.next)
  }

  predicate Uncommented(n: Node) {
    n.Node? ==> n.comments == [] && Uncommented(n.next)
  }

  lemma {:induction false} JoinFlags(value: string, flags: seq<string>, rest: seq<string>)
    ensures Join([value] + flags + rest, " ")
            == value + FlagText(flags) + if rest == [] then "" else " " + Join(rest, " ")
    decreases |flags|
  {
    var all := [value] + flags + rest;
    if flags == [] {
      assert all[1..] == rest;
    } else {
      assert all[1..] == [flags[0]] + flags[1..] + rest;
      JoinFlags(flags[0], flags[1..], rest);
    }
  }

  /** Without comments, a printed node is its words separated by blanks. */
  lemma {:induction false} DumpIsWords(n: Node)
    requires n.Node? && Uncommented(n)
    ensures DumpNode(n) == Join(WordsOf(n), " ")
    decreases n
  {
    hide Join, FlagText;
    JoinFlags(n.value, n.flags, WordsOf(n.next));
    if n.next.Node? {
      DumpIsWords(n.next);
    }
    var tail := if n.next.Node? then " " + DumpNode(n.next) else "";
    assert DumpNode(n) == n.value + FlagText(n.flags) + tail;
  }

  function ReplaceLines(lines: seq<string>, node: Node): seq<string>
    requires node.Node?
  {
    seq(|lines|, k requires 0 <= k < |lines| =>
          if node.startLine <= k + 1 <= node.endLine then DumpNode(node) else lines[k])
  }

  method ReplaceInDockerfile(content: string, node: Node) returns (r: string)
    requires node.Node?
    ensures r == Join(ReplaceLines(Lines(content), node), "\n")
  {
    var scan := Lines(content);
    var lines := [];
    for k := 0 to |scan|
      invariant |lines| == k && lines == ReplaceLines(scan, node)[..k]
    {
      if node.startLine <= k + 1 <= node.endLine {
        lines := lines + [DumpNode(node)];
      } else {
        lines := lines + [scan[k]];
      }
    }
    assert lines == ReplaceLines(scan, node);
    r := Join(lines, "\n");
  }

  /** The comments above an instruction, as DumpNode prints them. */
  function CommentLines(comments: seq<string>): seq<string> {
    seq(|comments|, k requires 0 <= k < |comments| => "# " + comments[k])
  }

  lemma {:induction false} JoinComments(comments: seq<string>)
    requires comments != []
    ensures "# " + Join(comments, "\n# ") == Join(CommentLines(comments), "\n")
  {
    if |comments| > 1 {
      var rest := comments[1..];
      JoinComments(rest);
      assert CommentLines(comments)[1..] == CommentLines(rest);
      var tail := Join(rest, "\n# ");
      assert "# " + (comments[0] + "\n# " + tail) == "# " + comments[0] + "\n" + ("# " + tail);
    }
  }

  /** A text with line breaks in the place of one line is its lines in that place. */
  lemma {:induction false} JoinNested(a: seq<string>, parts: seq<string>, b: seq<string>, sep: string)
    requires parts != []
    ensures Join(a + [Join(parts, sep)] + b, sep) == Join(a + parts + b, sep)
    decreases |a| + |parts|
  {
    var left, right := a + [Join(parts, sep)] + b, a + parts + b;
    if a != [] {
      JoinNested(a[1..], parts, b, sep);
      assert left[1..] == a[1..] + [Join(parts, sep)] + b && right[1..] == a[1..] + parts + b;
    } else if |parts| > 1 {
      var inner := Join(parts[1..], sep);
      JoinNested([], parts[1..], b, sep);
      assert [] + [inner] + b == [inner] + b && [] + parts[1..] + b == right[1..];
      assert left[1..] == b && ([inner] + b)[1..] == b;
      assert b != [] ==> (parts[0] + sep + inner) + sep + Join(b, sep) == parts[0] + sep + (inner + sep + Join(b, sep));
    } else {
      assert left == right;
    }
  }

  lemma DumpCommented(n: Node)
    requires n.Node? && n.value != "" && n.comments != []
    ensures DumpNode(n) == "# " + Join(n.comments, "\n# ") + "\n" + DumpNode(n.(comments := []))
  {
    hide Join, FlagText;
    var c, v, f := "# " + Join(n.comments, "\n# "), n.value, FlagText(n.flags);
    var t := if n.next.Node? then " " + DumpNode(n.next) else "";
    assert DumpNode(n.(comments := [])) == "" + ("" + v) + f + t == v + f + t;
    assert DumpNode(n) == c + ("\n" + v) + f + t == c + "\n" + (v + f + t);
  }

  /** A commented instruction prints as its comment lines and a line of its words. */
  lemma DumpIsLines(n: Node)
    requires n.Node? && n.value != "" && Uncommented(n.next)
    ensures DumpNode(n) == Join(CommentLines(n.comments) + [Join(WordsOf(n), " ")], "\n")
  {
    hide DumpNode;
    DumpIsWords(n.(comments := []));
    var text := Join(WordsOf(n), " ");
    if n.comments == [] {
      assert n.(comments := []) == n;
      assert CommentLines([]) + [text] == [text];
    } else {
      hide Join;
      DumpCommented(n);
      JoinComments(n.comments);
      JoinSnoc(CommentLines(n.comments), text, "\n");
    }
  }

  /**
   For a FROM on one line: the new text is the old lines before it, the comments that stood above it
   once more, the words of the rewritten node, and the old lines after it. So the lines keep their
   places exactly if there are no comments.
   */
  lemma TextRewritten(content: string, node: Node)
    requires node.Node? && node.value != "" && Uncommented(node.next) && node.startLine == node.endLine
    requires 1 <= node.startLine <= |Lines(content)|
    requires forall w :: w in WordsOf(node) ==> ' ' !in w && '\n' !in w
    requires forall c :: c in node.comments ==> '\n' !in c
    ensures var lines, text := Lines(content), Split(Join(ReplaceLines(Lines(content), node), "\n"), '\n');
            && text == lines[..node.startLine - 1] + CommentLines(node.comments) + [Join(WordsOf(node), " ")]
                       + lines[node.startLine..]
            && (text == lines[node.startLine - 1 := Join(WordsOf(node), " ")] <==> node.comments == [])
    ensures Split(Join(WordsOf(node), " "), ' ') == WordsOf(node)
  {
    hide Join, Split, WordsOf;
    var lines, k := Lines(content), node.startLine - 1;
    var words := Join(WordsOf(node), " ");
    var parts := CommentLines(node.comments) + [words];
    SplitJoin(WordsOf(node), ' ');
    SplitClean(content, '\n');
    JoinAvoids(WordsOf(node), " ", '\n');
    DumpIsLines(node);
    assert ReplaceLines(lines, node) == lines[..k] + [DumpNode(node)] + lines[k + 1..];
    JoinNested(lines[..k], parts, lines[k + 1..], "\n");
    var all := lines[..k] + parts + lines[k + 1..];
    CommentsClean(node.comments);
    SplitJoin(all, '\n');
    assert all == lines[..k] + CommentLines(node.comments) + [words] + lines[k + 1..];
    if node.comments == [] {
      assert all == lines[k := words];
    } else {
      assert |all| > |lines|;
    }
  }

  lemma NamedWords(from: Node, name: string)
    requires from.Node? && from.next.Node?
    ensures WordsOf(WithName(from, name))
            == [from.value] + from.flags + [from.next.value] + from.next.flags + ["AS", name]
  {
    var named := WithName(from, name);
    assert WordsOf(Nil) == [];
    assert WordsOf(named.next.next.next) == [name] + [] + [];
    assert WordsOf(named.next.next) == ["AS"] + [] + WordsOf(named.next.next.next) == ["AS", name];
    assert WordsOf(named.next) == [from.next.value] + from.next.flags + ["AS", name];
  }

  lemma NamedUncommented(from: Node, name: string)
    requires from.Node? && from.next.Node? && from.next.comments == []
    ensures Uncommented(WithName(from, name).next)
  {
    var named := WithName(from, name);
    assert Uncommented(named.next.next.next);
    assert Uncommented(named.next.next);
  }

  /** The rewritten line is the old keyword, flags and image, followed by `AS name`. */
  lemma LineNamed(content: string, from: Node, name: string)
    requires from.Node? && from.value != "" && from.next.Node? && from.next.comments == []
    requires from.startLine == from.endLine && 1 <= from.startLine <= |Lines(content)|
    requires ' ' !in name && '\n' !in name
    requires forall w :: w in [from.value] + from.flags + [from.next.value] + from.next.flags ==>
               ' ' !in w && '\n' !in w
    requires forall c :: c in from.comments ==> '\n' !in c
    ensures var words := [from.value] + from.flags + [from.next.value] + from.next.flags + ["AS", name];
            var lines, at := Lines(content), from.startLine - 1;
            Split(Join(ReplaceLines(lines, WithName(from, name)), "\n"), '\n')
            == lines[..at] + CommentLines(from.comments) + [Join(words, " ")] + lines[at + 1..]
  {
    hide Join, Split, WordsOf, ReplaceLines, Lines;
    NamedWords(from, name);
    var words := [from.value] + from.flags + [from.next.value] + from.next.flags;
    assert forall w :: w in words + ["AS", name] ==> w in words || w == "AS" || w == name;
    NamedUncommented(from, name);
    TextRewritten(content, WithName(from, name));
  }

  lemma CommentsClean(comments: seq<string>)
    requires forall c :: c in comments ==> '\n' !in c
    ensures forall k :: 0 <= k < |comments| ==> '\n' !in CommentLines(comments)[k]
  {
  }

  lemma {:induction false} JoinAvoids(parts: seq<string>, sep: string, c: char)
    requires c !in sep && forall w :: w in parts ==> c !in w
    ensures c !in Join(parts, sep)
  {
    if |parts| > 1 {
      JoinAvoids(parts[1..], sep, c);
    }
  }
}
