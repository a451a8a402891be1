/**
 findValue and replaceVariables as they run, for every lookup on which they end. Where FROMs refer
 back that is every lookup, because each nested one is bounded by a smaller line.
 */
module DockerfileFind {
  import opened Text
  import opened DockerfileSyntax
  import opened Dockerfile
  import opened DockerfileScope
  import opened DockerfileBindings
  import opened DockerfileSearch
  import opened DockerfileExact
  import opened DockerfileEnds

  // ---- the bounding line ----

  function Max(a: nat, b: nat): nat {
    if a < b then b else a
  }

  /** The line that bounds a lookup; it strictly decreases with every nested one. */
  function Bound(d: Dockerfile, p: Place, line: nat): nat
    requires Shaped(d) && d.stages != [] && InFile(d, p)
  {
    if p.AtPreamble? then line
    else FirstLine(d.stages[0]) + 1 + Max(line, FirstLine(d.stages[p.i]))
  }

  lemma {:induction false} CollectedAbove(ns: seq<Node>, line: nat)
    requires Ordered(ns) && ns != [] && IsFrom(ns[0]) && line == ns[0].startLine
    ensures forall i :: 0 <= i < |ArgsOf(ns)| ==> ArgsOf(ns)[i].line > line
    ensures forall i :: 0 <= i < |EnvsOf(ns)| ==> EnvsOf(ns)[i].line > line
    ensures forall i :: 0 <= i < |UsersOf(ns)| ==> UsersOf(ns)[i].line > line
  {
    var init, n := ns[..|ns| - 1], ns[|ns| - 1];
    if init != [] {
      CollectedAbove(init, line);
      if IsEnv(n) {
        EnvLines(n.next, n.startLine);
      }
    } else {
      assert ArgsOf(ns) == ArgsOf(init) + [] && EnvsOf(ns) == EnvsOf(init) + [];
      assert UsersOf(ns) == UsersOf(init) + [];
    }
  }

  lemma ListLines(d: Dockerfile, i: nat)
    requires InOrder(d) && i < |d.stages|
    ensures forall k :: 0 <= k < |d.stages[i].args| ==> FirstLine(d.stages[i]) < d.stages[i].args[k].line
    ensures forall k :: 0 <= k < |d.stages[i].envs| ==> FirstLine(d.stages[i]) < d.stages[i].envs[k].line
    ensures forall k :: 0 <= k < |d.stages[i].users| ==> FirstLine(d.stages[i]) < d.stages[i].users[k].line
  {
    InOrderParts(d);
    CollectedAbove(d.stages[i].instructions, FirstLine(d.stages[i]));
  }

  /** A lookup nested at an ARG or ENV of the same place is bounded by a smaller line. */
  lemma NestedSmaller(d: Dockerfile, buildArgs: Vars, q: Lookup)
    requires InOrder(d) && InFile(d, q.place) && Found(d, buildArgs, q).SetTo?
    ensures Bound(d, q.place, Found(d, buildArgs, q).line) < Bound(d, q.place, q.line)
  {
    if q.place.AtStage? {
      ListLines(d, q.place.i);
    }
  }

  /** Going on never raises the bound, and resolving a FROM lowers it. */
  lemma NextSmaller(d: Dockerfile, buildArgs: Vars, baseEnv: Vars, q: Lookup)
    requires Searchable(d, buildArgs, baseEnv, q.place) && q.place.AtStage?
    ensures FirstLine(d.stages[0]) < Bound(d, q.place, q.line)
    ensures var next := Next(d, buildArgs, baseEnv, q);
            Bound(d, next.place, next.line) <= Bound(d, q.place, q.line)
  {
    hide Ordered, FlatStages, StageOf, Parent, StageId, Next, NoFrom, TargetIndex, PreambleOf;
    var next := Next(d, buildArgs, baseEnv, q);
    NextIs(d, buildArgs, baseEnv, q);
    if next.place.AtStage? {
      StagePairInOrder(d, next.place.i, q.place.i);
      FirstBeforeLast(d.stages[next.place.i]);
    }
  }

  lemma FirstBeforeLast(s: Stage)
    requires IsStage(s) && Ordered(s.instructions)
    ensures FirstLine(s) <= LastLine(s)
  {
  }

  // ---- the search ----

  /** One round of findValue's loop: the ARGs, if they count, then the ENVs of one place. */
  method FindHere(d: Dockerfile, buildArgs: Vars, baseEnv: Vars, q: Lookup, ghost fuel: nat)
    returns (found: bool, r: string)
    requires Indexed(d) && InFile(d, q.place) && !Stopped(d, q)
    requires Search(d, buildArgs, baseEnv, q, fuel).Some?
    ensures found <==> !Found(d, buildArgs, q).Unset?
    ensures found ==> Search(d, buildArgs, baseEnv, q, fuel) == Some(r)
    decreases fuel, 0
  {
    hide Scan, StageId, Indexed, Replace;
    var stage, line := StageAt(d, q.place), q.line;
    if q.considerArg {
      var i := LastArg(stage.args, q.variable, line, buildArgs);
      if i >= 0 {
        if Get(buildArgs, stage.args[i].key) != "" {
          return true, Unquote(Get(buildArgs, stage.args[i].key));
        }
        r := ReplaceWithin(d, stage.args[i].value, buildArgs, baseEnv, q.place, stage.args[i].line, fuel - 1);
        return true, Unquote(r);
      }
    }
    var i := LastEnv(stage.envs, q.variable, line);
    if i >= 0 {
      r := ReplaceWithin(d, stage.envs[i].value, buildArgs, baseEnv, q.place, stage.envs[i].line, fuel - 1);
      return true, r;
    }
    return false, "";
  }

  /** findValue's loop, for a lookup that is answered within some fuel. */
  method FindWithin(d: Dockerfile, buildArgs: Vars, baseEnv: Vars, first: Lookup, ghost fuel: nat) returns (r: string)
    requires Indexed(d) && InFile(d, first.place) && Search(d, buildArgs, baseEnv, first, fuel).Some?
    ensures Search(d, buildArgs, baseEnv, first, fuel) == Some(r)
    decreases fuel, 1
  {
    hide Scan, StageId, BindingAt, Replace;
    var q := first;
    ghost var left: nat := fuel;
    while true
      invariant left <= fuel && InFile(d, q.place)
      invariant Search(d, buildArgs, baseEnv, q, left) == Search(d, buildArgs, baseEnv, first, fuel)
      decreases left
    {
      var stage := StageAt(d, q.place);
      if StageId(stage) in q.seen {
        return "";
      }
      var found;
      found, r := FindHere(d, buildArgs, baseEnv, q, left);
      if found {
        return;
      }
      if q.place.AtPreamble? {
        return Get(baseEnv, q.variable);
      }
      var image := ReplaceWithin(d, stage.image, buildArgs, baseEnv, AtPreamble, FromLine(d), left - 1);
      q, left := Onward(d, q, image), left - 1;
    }
  }

  method ReplaceWithin(d: Dockerfile, val: string, buildArgs: Vars, baseEnv: Vars, p: Place, untilLine: nat,
                       ghost fuel: nat)
    returns (r: string)
    requires Indexed(d) && InFile(d, p)
    requires Replace(d, buildArgs, baseEnv, Scan(val), p, untilLine, fuel).Some?
    ensures Replace(d, buildArgs, baseEnv, Scan(val), p, untilLine, fuel) == Some(r)
    decreases fuel, 2
  {
    hide Scan, Search, Indexed, Replace;
    var pieces := Scan(val);
    r := "";
    ReplaceEmpty(d, buildArgs, baseEnv, p, untilLine, fuel);
    for k := 0 to |pieces|
      invariant Replace(d, buildArgs, baseEnv, pieces[..k], p, untilLine, fuel) == Some(r)
    {
      var piece := pieces[k];
      var value := "";
      if piece.Ref? {
        TextCosts(d, buildArgs, baseEnv, pieces, p, untilLine, fuel, k);
        value := FindWithin(d, buildArgs, baseEnv, Ask(piece.name, p, untilLine), fuel);
      }
      ReplaceSnoc(d, buildArgs, baseEnv, pieces[..k], p, untilLine, piece, fuel);
      assert pieces[..k + 1] == pieces[..k] + [piece];
      r := r + Substitute(piece, value);
    }
    assert pieces[..|pieces|] == pieces;
  }

  lemma ReplaceEmpty(d: Dockerfile, buildArgs: Vars, baseEnv: Vars, place: Place, line: nat, fuel: nat)
    requires Indexed(d) && InFile(d, place)
    ensures Replace(d, buildArgs, baseEnv, [], place, line, fuel) == Some("")
  {
  }

  /**
   Ends on every lookup that is not circular, on any file, and on no other (AnswersIff). The answer is
   the forward value whenever the guard loses nothing on the way.
   */
  method FindValue(d: Dockerfile, buildArgs: Vars, baseEnv: Vars, variable: string, p: Place, untilLine: nat)
    returns (r: string)
    requires Indexed(d) && InFile(d, p) && !Circular(d, buildArgs, baseEnv, Key(variable, p, untilLine))
    ensures Answers(d, buildArgs, baseEnv, Ask(variable, p, untilLine), r)
    ensures Searchable(d, buildArgs, baseEnv, p) && Kept(d, buildArgs, baseEnv, Ask(variable, p, untilLine)) ==>
              r == Get(Visible(ScopeAt(d, buildArgs, baseEnv, p, untilLine)), variable)
  {
    hide Search, Circular, Kept, InOrder, ScopeAt;
    AnswersIff(d, buildArgs, baseEnv, Key(variable, p, untilLine));
    ghost var fuel: nat :| Search(d, buildArgs, baseEnv, Ask(variable, p, untilLine), fuel).Some?;
    r := FindWithin(d, buildArgs, baseEnv, Ask(variable, p, untilLine), fuel);
    if Searchable(d, buildArgs, baseEnv, p) && Kept(d, buildArgs, baseEnv, Ask(variable, p, untilLine)) {
      AnswerExact(d, buildArgs, baseEnv, Ask(variable, p, untilLine), r);
    }
  }

  method ReplaceVariables(d: Dockerfile, val: string, buildArgs: Vars, baseEnv: Vars, p: Place, untilLine: nat)
    returns (r: string)
    requires Indexed(d) && InFile(d, p)
    requires forall y :: Mentions(Text(val, p, untilLine), y) ==> !Circular(d, buildArgs, baseEnv, y)
    ensures Renders(d, buildArgs, baseEnv, Scan(val), p, untilLine, r)
    ensures Searchable(d, buildArgs, baseEnv, p) && KeptText(d, buildArgs, baseEnv, Scan(val), p, untilLine) ==>
              r == Expand(val, Visible(ScopeAt(d, buildArgs, baseEnv, p, untilLine)))
  {
    hide Replace, Circular, KeptText, InOrder, ScopeAt, ExpandPieces, Scan, Mentions;
    GoalRenders(d, buildArgs, baseEnv, Text(val, p, untilLine));
    ghost var fuel: nat :| Replace(d, buildArgs, baseEnv, Scan(val), p, untilLine, fuel).Some?;
    r := ReplaceWithin(d, val, buildArgs, baseEnv, p, untilLine, fuel);
    if Searchable(d, buildArgs, baseEnv, p) && KeptText(d, buildArgs, baseEnv, Scan(val), p, untilLine) {
      ReplaceExact(d, buildArgs, baseEnv, Scan(val), p, untilLine, fuel);
    }
  }

  /** The image behind a FROM, with its variables looked up in the preamble; this ends on every file. */
  method ResolveImage(d: Dockerfile, buildArgs: Vars, baseEnv: Vars, i: nat) returns (image: string)
    requires Indexed(d) && i < |d.stages|
    ensures image == Image(d, buildArgs, baseEnv, i)
    ensures InOrder(d) ==> image == BaseName(d, buildArgs, baseEnv, i)
  {
    hide Scan, Replace, InOrder, BaseName, Image, Indexed;
    ImageExists(d, buildArgs, baseEnv, i);
    var firstLine := FromLine(d);
    ghost var fuel: nat :| Replace(d, buildArgs, baseEnv, Scan(d.stages[i].image), AtPreamble, firstLine, fuel).Some?;
    image := ReplaceWithin(d, d.stages[i].image, buildArgs, baseEnv, AtPreamble, firstLine, fuel);
    ImageOnly(d, buildArgs, baseEnv, i, fuel);
    if InOrder(d) {
      ImageExact(d, buildArgs, baseEnv, i, fuel);
    }
  }

  // ---- what the code makes of a text ----

  /** A text turns into what it means when every reference has its answer for value. */
  lemma {:induction false} ReplaceMeans(d: Dockerfile, buildArgs: Vars, baseEnv: Vars, pieces: seq<Piece>, place: Place,
                                        line: nat, vars: Vars, fuel: nat)
    requires Indexed(d) && InFile(d, place) && Replace(d, buildArgs, baseEnv, pieces, place, line, fuel).Some?
    requires forall k :: 0 <= k < |pieces| && pieces[k].Ref? ==>
               Answers(d, buildArgs, baseEnv, Ask(pieces[k].name, place, line), Get(vars, pieces[k].name))
    ensures Replace(d, buildArgs, baseEnv, pieces, place, line, fuel).value == ExpandPieces(pieces, vars)
    decreases |pieces|
  {
    hide Search, Indexed, Substitute;
    if pieces != [] {
      var init, p := pieces[..|pieces| - 1], pieces[|pieces| - 1];
      assert forall k :: 0 <= k < |init| ==> init[k] == pieces[k];
      ReplaceMeans(d, buildArgs, baseEnv, init, place, line, vars, fuel);
      if p.Ref? {
        var q := Ask(p.name, place, line);
        var v := Search(d, buildArgs, baseEnv, q, fuel).value;
        assert Answers(d, buildArgs, baseEnv, q, v);
        OneAnswer(d, buildArgs, baseEnv, q, v, Get(vars, p.name));
      } else {
        PlainIsItself(p);
      }
    }
  }

  lemma PlainIsItself(p: Piece)
    requires p.Plain?
    ensures Substitute(p, "") == [p.c]
  {
  }

  lemma OneReference(d: Dockerfile, buildArgs: Vars, baseEnv: Vars, place: Place, line: nat,
                     before: string, ref: string, after: string, piece: Piece, v: string, r: string)
    requires '$' !in before && '$' !in after && ScanRef(ref + after) == Some((piece, after)) && piece.Ref? && ref != ""
    requires Answers(d, buildArgs, baseEnv, Ask(piece.name, place, line), v)
    requires Renders(d, buildArgs, baseEnv, Scan(before + ref + after), place, line, r)
    ensures r == Expand(before + ref + after, map[piece.name := v])
  {
    hide Replace, Scan, ScanRef, ExpandPieces, Indexed, Answers;
    var pieces := Scan(before + ref + after);
    ScanAround(before, ref, after, piece);
    assert Get(map[piece.name := v], piece.name) == v;
    var fuel: nat :| Replace(d, buildArgs, baseEnv, pieces, place, line, fuel) == Some(r);
    ReplaceMeans(d, buildArgs, baseEnv, pieces, place, line, map[piece.name := v], fuel);
  }

  /** replaceVariables puts the answer of the lookup in the place of `$name` or `${name}`. */
  lemma VariableReplaced(d: Dockerfile, buildArgs: Vars, baseEnv: Vars, place: Place, line: nat,
                         before: string, name: string, after: string, v: string, r: string)
    requires IsName(name) && '$' !in before && '$' !in after
    requires Answers(d, buildArgs, baseEnv, Ask(name, place, line), v)
    ensures Renders(d, buildArgs, baseEnv, Scan(before + ("${" + name + "}") + after), place, line, r) ==>
              r == before + v + after
    ensures (after == "" || (!IsNameChar(after[0]) && after[0] != ':' && after[0] != '}'))
            && Renders(d, buildArgs, baseEnv, Scan(before + ("$" + name) + after), place, line, r) ==>
              r == before + v + after
  {
    hide Renders, Answers, Expand, ScanRef, Scan;
    VariableMeans(before, name, after, map[name := v]);
    if Renders(d, buildArgs, baseEnv, Scan(before + ("${" + name + "}") + after), place, line, r) {
      ScanBraced(name, after);
      OneReference(d, buildArgs, baseEnv, place, line, before, "${" + name + "}", after,
                   Ref(true, name, None, true), v, r);
    }
    if (after == "" || (!IsNameChar(after[0]) && after[0] != ':' && after[0] != '}'))
       && Renders(d, buildArgs, baseEnv, Scan(before + ("$" + name) + after), place, line, r) {
      ScanBare(name, after);
      OneReference(d, buildArgs, baseEnv, place, line, before, "$" + name, after, Ref(false, name, None, false), v, r);
    }
  }

  /** It puts the word in the place of `${name:-word}` if the answer is empty, and else the answer, both unquoted. */
  lemma DefaultReplaced(d: Dockerfile, buildArgs: Vars, baseEnv: Vars, place: Place, line: nat,
                        before: string, name: string, word: string, after: string, v: string, r: string)
    requires IsName(name) && word != "" && '}' !in word && '$' !in before && '$' !in after
    requires Answers(d, buildArgs, baseEnv, Ask(name, place, line), v)
    requires Renders(d, buildArgs, baseEnv, Scan(before + ("${" + name + ":-" + word + "}") + after), place, line, r)
    ensures r == before + Unquote(if v == "" then word else v) + after
  {
    hide Renders, Answers, Expand, ScanRef, Scan, Unquote;
    DefaultMeans(before, name, word, after, map[name := v]);
    ScanAlternatives(name, '-', word, after);
    var ref := "${" + name + ":" + ['-'] + word + "}";
    assert ref == "${" + name + ":-" + word + "}";
    OneReference(d, buildArgs, baseEnv, place, line, before, ref, after,
                 Ref(true, name, Some(Alternative('-', word)), true), v, r);
  }

  /** It puts the word in the place of `${name:+word}` unless the answer is empty. */
  lemma AlternativeReplaced(d: Dockerfile, buildArgs: Vars, baseEnv: Vars, place: Place, line: nat,
                            before: string, name: string, word: string, after: string, v: string, r: string)
    requires IsName(name) && word != "" && '}' !in word && '$' !in before && '$' !in after
    requires Answers(d, buildArgs, baseEnv, Ask(name, place, line), v)
    requires Renders(d, buildArgs, baseEnv, Scan(before + ("${" + name + ":+" + word + "}") + after), place, line, r)
    ensures r == before + (if v == "" then "" else Unquote(word)) + after
  {
    hide Renders, Answers, Expand, ScanRef, Scan, Unquote;
    AlternativeMeans(before, name, word, after, map[name := v]);
    ScanAlternatives(name, '+', word, after);
    var ref := "${" + name + ":" + ['+'] + word + "}";
    assert ref == "${" + name + ":+" + word + "}";
    OneReference(d, buildArgs, baseEnv, place, line, before, ref, after,
                 Ref(true, name, Some(Alternative('+', word)), true), v, r);
  }

  // ---- FROMs in any order ----

  /** Some ranking goes down along every FROM: no stage is built from itself, however indirectly. */
  predicate Ranked(d: Dockerfile, buildArgs: Vars, baseEnv: Vars, ranks: seq<nat>)
    requires Shaped(d)
  {
    && |ranks| == |d.stages|
    && forall i :: 0 <= i < |d.stages| && Parent(d, buildArgs, baseEnv, i).Some? ==>
         ranks[Parent(d, buildArgs, baseEnv, i).value] < ranks[i]
  }

  function Depth(p: Place, ranks: seq<nat>): nat
    requires p.AtStage? ==> p.i < |ranks|
  {
    if p.AtStage? then ranks[p.i] + 1 else 0
  }

  /** Every lookup has an answer when no stage is built from itself, even if FROMs refer forward. */
  lemma {:induction false} AcyclicAnswers(d: Dockerfile, buildArgs: Vars, baseEnv: Vars, ranks: seq<nat>, q: Lookup)
    returns (r: string)
    requires InOrder(d) && Ranked(d, buildArgs, baseEnv, ranks) && InFile(d, q.place)
    ensures Answers(d, buildArgs, baseEnv, q, r)
    decreases Depth(q.place, ranks), q.line, 0
  {
    hide Scan, StageId, BindingAt, Answers, Renders, Ordered, FlatStages, StageOf, BaseName;
    InOrderIndexed(d);
    if Stopped(d, q) {
      StoppedAnswers(d, buildArgs, baseEnv, q);
      return "";
    }
    match Found(d, buildArgs, q)
    case Given(value) =>
      GivenAnswers(d, buildArgs, baseEnv, q);
      return value;
    case SetTo(text, line, quoted) =>
      r := AcyclicRenders(d, buildArgs, baseEnv, ranks, Scan(text), q.place, line);
      TextAnswers(d, buildArgs, baseEnv, q, r);
      return Finish(quoted, r);
    case Unset =>
      if q.place.AtPreamble? {
        PreambleAnswers(d, buildArgs, baseEnv, q);
        return Get(baseEnv, q.variable);
      }
      var pieces := Scan(d.stages[q.place.i].image);
      var image := AcyclicRenders(d, buildArgs, baseEnv, ranks, pieces, AtPreamble, FromLine(d));
      ImageRendered(d, buildArgs, baseEnv, q.place.i, image);
      var parent := Parent(d, buildArgs, baseEnv, q.place.i);
      assert parent.Some? ==> ranks[parent.value] < ranks[q.place.i];
      r := AcyclicAnswers(d, buildArgs, baseEnv, ranks, Onward(d, q, image));
      OnwardAnswers(d, buildArgs, baseEnv, q, image, r);
  }

  lemma {:induction false} AcyclicRenders(d: Dockerfile, buildArgs: Vars, baseEnv: Vars, ranks: seq<nat>,
                                          pieces: seq<Piece>, place: Place, line: nat)
    returns (r: string)
    requires InOrder(d) && Ranked(d, buildArgs, baseEnv, ranks) && InFile(d, place)
    ensures Renders(d, buildArgs, baseEnv, pieces, place, line, r)
    decreases Depth(place, ranks), line, 1 + |pieces|
  {
    hide Answers, Renders, Substitute, InOrder;
    InOrderIndexed(d);
    if pieces == [] {
      RendersNothing(d, buildArgs, baseEnv, place, line);
      return "";
    }
    var init, p := pieces[..|pieces| - 1], pieces[|pieces| - 1];
    r := AcyclicRenders(d, buildArgs, baseEnv, ranks, init, place, line);
    var value := "";
    if p.Ref? {
      value := AcyclicAnswers(d, buildArgs, baseEnv, ranks, Ask(p.name, place, line));
    }
    RendersPiece(d, buildArgs, baseEnv, init, place, line, p, r, value);
    assert init + [p] == pieces;
    return r + Substitute(p, value);
  }

  lemma ImageRendered(d: Dockerfile, buildArgs: Vars, baseEnv: Vars, i: nat, image: string)
    requires InOrder(d) && Indexed(d) && i < |d.stages|
    requires Renders(d, buildArgs, baseEnv, Scan(d.stages[i].image), AtPreamble, FromLine(d), image)
    ensures image == BaseName(d, buildArgs, baseEnv, i)
  {
    hide Scan, Replace, InOrder, BaseName;
    var f: nat :| Replace(d, buildArgs, baseEnv, Scan(d.stages[i].image), AtPreamble, FromLine(d), f) == Some(image);
    ImageExact(d, buildArgs, baseEnv, i, f);
  }

  /** So in a file whose FROMs refer back no lookup is circular. */
  lemma SearchableEnds(d: Dockerfile, buildArgs: Vars, baseEnv: Vars, x: Key)
    requires InOrder(d) && EarlierParents(d, buildArgs, baseEnv) && InFile(d, x.place)
    ensures Indexed(d) && !Circular(d, buildArgs, baseEnv, x)
  {
    hide Circular, Answers, Ordered, FlatStages, StageOf, Parent;
    InOrderIndexed(d);
    var ranks: seq<nat> := seq(|d.stages|, i => i);
    var _ := AcyclicAnswers(d, buildArgs, baseEnv, ranks, AskFor(x));
    AnswersIff(d, buildArgs, baseEnv, x);
  }

  lemma SearchableUserEnds(d: Dockerfile, buildArgs: Vars, baseEnv: Vars, i: nat)
    requires InOrder(d) && EarlierParents(d, buildArgs, baseEnv) && i < |d.stages|
    ensures Indexed(d) && !UserCircular(d, buildArgs, baseEnv, i)
  {
    hide Circular, InOrder, EarlierParents, UserGoal;
    InOrderIndexed(d);
    forall y | Mentions(UserGoal(d, buildArgs, baseEnv, i, {}), y) ensures !Circular(d, buildArgs, baseEnv, y) {
      SearchableEnds(d, buildArgs, baseEnv, y);
    }
  }

  // ---- the bounding line as measure ----

  lemma {:induction false} GoalSmaller(d: Dockerfile, buildArgs: Vars, baseEnv: Vars, q: Lookup)
    requires Searchable(d, buildArgs, baseEnv, q.place) && Indexed(d) && GoalOf(d, buildArgs, baseEnv, q).Text?
    ensures var g := GoalOf(d, buildArgs, baseEnv, q);
            Searchable(d, buildArgs, baseEnv, g.place) && Bound(d, g.place, g.line) < Bound(d, q.place, q.line)
    decreases Rank(q.place)
  {
    hide Scan, StageId, BindingAt, Bound, Ordered, FlatStages, StageOf, BaseName, EarlierParents, Image, Indexed;
    if Found(d, buildArgs, q).Unset? {
      ImageRendered(d, buildArgs, baseEnv, q.place.i, Image(d, buildArgs, baseEnv, q.place.i));
      NextSmaller(d, buildArgs, baseEnv, q);
      GoalSmaller(d, buildArgs, baseEnv, Next(d, buildArgs, baseEnv, q));
    } else {
      NestedSmaller(d, buildArgs, q);
    }
  }

  /** Where FROMs refer back, a lookup refers to another only at a strictly smaller bounding line. */
  lemma RefersSmaller(d: Dockerfile, buildArgs: Vars, baseEnv: Vars, x: Key, y: Key)
    requires Searchable(d, buildArgs, baseEnv, x.place) && Indexed(d) && Refers(d, buildArgs, baseEnv, x, y)
    ensures Searchable(d, buildArgs, baseEnv, y.place) && Bound(d, y.place, y.line) < Bound(d, x.place, x.line)
  {
    hide Bound, GoalOf, InOrder, Indexed, EarlierParents;
    GoalSmaller(d, buildArgs, baseEnv, AskFor(x));
  }
}
