/**
 The backward search of pkg/dockerfile/parse.go as a function: findValue and replaceVariables call
 each other, walking the ARG and ENV lists of a stage from the end, then the stages it is built from,
 then the preamble. Fuel is spent on every nested lookup and on every step to another stage; None
 means that it ran out. The function is defined on every file, those included on which the code
 never returns.
 */
module DockerfileSearch {
  import opened Text
  import opened DockerfileSyntax
  import opened Dockerfile
  import opened DockerfileScope
  import opened DockerfileBindings

  /** stageID */
  function StageId(s: Stage): string {
    s.image + "-" + s.target
  }

  /** The state of findValue's loop. */
  datatype Lookup = Lookup(variable: string, place: Place, line: nat, considerArg: bool, seen: set<string>)

  /** A lookup as findValue begins it. */
  function Ask(variable: string, place: Place, line: nat): Lookup {
    Lookup(variable, place, line, true, {})
  }

  /** What the search needs of a file; true of all that Parse returns with a stage. */
  predicate Indexed(d: Dockerfile) {
    && d.stages != []
    && (forall i :: 0 <= i < |d.stages| ==> d.stages[i].instructions != [])
    && (forall i, k :: 0 <= i < |d.stages| && 0 <= k < |d.stages[i].instructions| ==>
          d.stages[i].instructions[k].Node?)
    && (forall t :: t in d.byTarget ==> d.byTarget[t] < |d.stages|)
  }

  lemma InOrderIndexed(d: Dockerfile)
    requires InOrder(d)
    ensures Indexed(d)
  {
    InOrderParts(d);
  }

  function FromLine(d: Dockerfile): nat
    requires Indexed(d)
  {
    d.stages[0].instructions[0].startLine
  }

  function EndLine(d: Dockerfile, i: nat): nat
    requires Indexed(d) && i < |d.stages|
  {
    d.stages[i].instructions[|d.stages[i].instructions| - 1].startLine + 1
  }

  /** What the place of a lookup says about its variable. */
  function Found(d: Dockerfile, buildArgs: Vars, q: Lookup): (b: Binding)
    requires InFile(d, q.place)
    ensures b.SetTo? ==> b.line < q.line
  {
    BindingAt(StageAt(d, q.place), q.variable, q.line, q.considerArg, buildArgs)
  }

  /** The guard of the loop. */
  predicate Stopped(d: Dockerfile, q: Lookup)
    requires InFile(d, q.place)
  {
    StageId(StageAt(d, q.place)) in q.seen
  }

  /** The lookup goes on where the image of its stage leads. */
  function Onward(d: Dockerfile, q: Lookup, image: string): (q': Lookup)
    requires Indexed(d) && InFile(d, q.place)
    ensures InFile(d, q'.place)
  {
    var seen := q.seen + {StageId(StageAt(d, q.place))};
    if image in d.byTarget then
      Lookup(q.variable, AtStage(d.byTarget[image]), EndLine(d, d.byTarget[image]), false, seen)
    else Lookup(q.variable, AtPreamble, FromLine(d), true, seen)
  }

  function Search(d: Dockerfile, buildArgs: Vars, baseEnv: Vars, q: Lookup, fuel: nat): Option<string>
    requires Indexed(d) && InFile(d, q.place)
    decreases fuel, 0
  {
    if fuel == 0 then None
    else if Stopped(d, q) then Some("")
    else match Found(d, buildArgs, q)
      case Given(value) => Some(value)
      case SetTo(text, line, quoted) =>
        Map(Replace(d, buildArgs, baseEnv, Scan(text), q.place, line, fuel - 1), s => Finish(quoted, s))
      case Unset =>
        if q.place.AtPreamble? then Some(Get(baseEnv, q.variable))
        else match Replace(d, buildArgs, baseEnv, Scan(StageAt(d, q.place).image), AtPreamble, FromLine(d), fuel - 1)
          case None => None
          case Some(image) => Search(d, buildArgs, baseEnv, Onward(d, q, image), fuel - 1)
  }

  function Replace(d: Dockerfile, buildArgs: Vars, baseEnv: Vars, pieces: seq<Piece>, place: Place, line: nat,
                   fuel: nat): Option<string>
    requires Indexed(d) && InFile(d, place)
    decreases fuel, 1 + |pieces|
  {
    if pieces == [] then Some("")
    else
      var p := pieces[|pieces| - 1];
      match Replace(d, buildArgs, baseEnv, pieces[..|pieces| - 1], place, line, fuel)
      case None => None
      case Some(before) =>
        if p.Plain? then Some(before + [p.c])
        else Map(Search(d, buildArgs, baseEnv, Ask(p.name, place, line), fuel), v => before + Substitute(p, v))
  }

  /** FindUserStatement: the last USER of a stage, or of the stages it is built from. */
  function SearchUser(d: Dockerfile, buildArgs: Vars, baseEnv: Vars, i: nat, seen: set<string>,
                      fuel: nat): Option<string>
    requires Indexed(d) && i < |d.stages|
    decreases fuel
  {
    if fuel == 0 then None
    else
      var s := d.stages[i];
      if StageId(s) in seen then Some("")
      else if s.users != [] then
        var u := s.users[|s.users| - 1];
        Replace(d, buildArgs, baseEnv, Scan(u.key), AtStage(i), u.line, fuel - 1)
      else if s.image == "" then Some("")
      else match Replace(d, buildArgs, baseEnv, Scan(s.image), AtPreamble, FromLine(d), fuel - 1)
        case None => None
        case Some(image) =>
          if image !in d.byTarget then Some("")
          else SearchUser(d, buildArgs, baseEnv, d.byTarget[image], seen + {StageId(s)}, fuel - 1)
  }

  // ---- fuel ----

  lemma {:induction false} MoreFuel(d: Dockerfile, buildArgs: Vars, baseEnv: Vars, q: Lookup, fuel: nat, more: nat)
    requires Indexed(d) && InFile(d, q.place) && fuel <= more
    requires Search(d, buildArgs, baseEnv, q, fuel).Some?
    ensures Search(d, buildArgs, baseEnv, q, more) == Search(d, buildArgs, baseEnv, q, fuel)
    decreases fuel, 0
  {
    hide Scan, StageId, BindingAt, Finish;
    if !Stopped(d, q) {
      match Found(d, buildArgs, q)
      case Given(_) =>
      case SetTo(text, line, _) =>
        MoreFuelText(d, buildArgs, baseEnv, Scan(text), q.place, line, fuel - 1, more - 1);
      case Unset =>
        if q.place.AtStage? {
          var pieces := Scan(d.stages[q.place.i].image);
          MoreFuelText(d, buildArgs, baseEnv, pieces, AtPreamble, FromLine(d), fuel - 1, more - 1);
          var image := Replace(d, buildArgs, baseEnv, pieces, AtPreamble, FromLine(d), fuel - 1).value;
          MoreFuel(d, buildArgs, baseEnv, Onward(d, q, image), fuel - 1, more - 1);
        }
    }
  }

  lemma {:induction false} MoreFuelText(d: Dockerfile, buildArgs: Vars, baseEnv: Vars, pieces: seq<Piece>,
                                        place: Place, line: nat, fuel: nat, more: nat)
    requires Indexed(d) && InFile(d, place) && fuel <= more
    requires Replace(d, buildArgs, baseEnv, pieces, place, line, fuel).Some?
    ensures Replace(d, buildArgs, baseEnv, pieces, place, line, more)
            == Replace(d, buildArgs, baseEnv, pieces, place, line, fuel)
    decreases fuel, 1 + |pieces|
  {
    if pieces != [] {
      var p := pieces[|pieces| - 1];
      MoreFuelText(d, buildArgs, baseEnv, pieces[..|pieces| - 1], place, line, fuel, more);
      if p.Ref? {
        MoreFuel(d, buildArgs, baseEnv, Ask(p.name, place, line), fuel, more);
      }
    }
  }

  /** The code returns `r` for a lookup. */
  ghost predicate Answers(d: Dockerfile, buildArgs: Vars, baseEnv: Vars, q: Lookup, r: string)
  {
    && Indexed(d) && InFile(d, q.place)
    && exists fuel: nat :: Search(d, buildArgs, baseEnv, q, fuel) == Some(r)
  }

  /** The code turns a value into `r`. */
  ghost predicate Renders(d: Dockerfile, buildArgs: Vars, baseEnv: Vars, pieces: seq<Piece>, place: Place,
                          line: nat, r: string)
  {
    && Indexed(d) && InFile(d, place)
    && exists fuel: nat :: Replace(d, buildArgs, baseEnv, pieces, place, line, fuel) == Some(r)
  }

  /** There is at most one answer: fuel decides whether there is one, not which. */
  lemma OneAnswer(d: Dockerfile, buildArgs: Vars, baseEnv: Vars, q: Lookup, r: string, r': string)
    requires Indexed(d) && InFile(d, q.place)
    requires Answers(d, buildArgs, baseEnv, q, r) && Answers(d, buildArgs, baseEnv, q, r')
    ensures r == r'
  {
    hide Search;
    var f: nat :| Search(d, buildArgs, baseEnv, q, f) == Some(r);
    var f': nat :| Search(d, buildArgs, baseEnv, q, f') == Some(r');
    MoreFuel(d, buildArgs, baseEnv, q, f, f + f');
    MoreFuel(d, buildArgs, baseEnv, q, f', f + f');
  }

  ghost predicate UserAnswers(d: Dockerfile, buildArgs: Vars, baseEnv: Vars, i: nat, seen: set<string>, r: string)
  {
    && Indexed(d) && i < |d.stages|
    && exists fuel: nat :: SearchUser(d, buildArgs, baseEnv, i, seen, fuel) == Some(r)
  }

  lemma {:induction false} MoreFuelUser(d: Dockerfile, buildArgs: Vars, baseEnv: Vars, i: nat, seen: set<string>,
                                        fuel: nat, more: nat)
    requires Indexed(d) && i < |d.stages| && fuel <= more
    requires SearchUser(d, buildArgs, baseEnv, i, seen, fuel).Some?
    ensures SearchUser(d, buildArgs, baseEnv, i, seen, more) == SearchUser(d, buildArgs, baseEnv, i, seen, fuel)
    decreases fuel
  {
    hide Scan, StageId, Replace;
    var s := d.stages[i];
    if StageId(s) !in seen {
      if s.users != [] {
        var u := s.users[|s.users| - 1];
        MoreFuelText(d, buildArgs, baseEnv, Scan(u.key), AtStage(i), u.line, fuel - 1, more - 1);
      } else if s.image != "" {
        MoreFuelText(d, buildArgs, baseEnv, Scan(s.image), AtPreamble, FromLine(d), fuel - 1, more - 1);
        var image := Replace(d, buildArgs, baseEnv, Scan(s.image), AtPreamble, FromLine(d), fuel - 1).value;
        if image in d.byTarget {
          MoreFuelUser(d, buildArgs, baseEnv, d.byTarget[image], seen + {StageId(s)}, fuel - 1, more - 1);
        }
      }
    }
  }

  lemma OneUser(d: Dockerfile, buildArgs: Vars, baseEnv: Vars, i: nat, seen: set<string>, r: string, r': string)
    requires Indexed(d) && i < |d.stages|
    requires UserAnswers(d, buildArgs, baseEnv, i, seen, r) && UserAnswers(d, buildArgs, baseEnv, i, seen, r')
    ensures r == r'
  {
    hide SearchUser;
    var f: nat :| SearchUser(d, buildArgs, baseEnv, i, seen, f) == Some(r);
    var f': nat :| SearchUser(d, buildArgs, baseEnv, i, seen, f') == Some(r');
    MoreFuelUser(d, buildArgs, baseEnv, i, seen, f, f + f');
    MoreFuelUser(d, buildArgs, baseEnv, i, seen, f', f + f');
  }

  // ---- how an answer comes about ----

  lemma StoppedAnswers(d: Dockerfile, buildArgs: Vars, baseEnv: Vars, q: Lookup)
    requires Indexed(d) && InFile(d, q.place) && Stopped(d, q)
    ensures Answers(d, buildArgs, baseEnv, q, "")
  {
    assert Search(d, buildArgs, baseEnv, q, 1) == Some("");
  }

  lemma GivenAnswers(d: Dockerfile, buildArgs: Vars, baseEnv: Vars, q: Lookup)
    requires Indexed(d) && InFile(d, q.place) && !Stopped(d, q) && Found(d, buildArgs, q).Given?
    ensures Answers(d, buildArgs, baseEnv, q, Found(d, buildArgs, q).value)
  {
    assert Search(d, buildArgs, baseEnv, q, 1) == Some(Found(d, buildArgs, q).value);
  }

  lemma TextAnswers(d: Dockerfile, buildArgs: Vars, baseEnv: Vars, q: Lookup, r: string)
    requires Indexed(d) && InFile(d, q.place) && !Stopped(d, q) && Found(d, buildArgs, q).SetTo?
    requires var b := Found(d, buildArgs, q);
             Renders(d, buildArgs, baseEnv, Scan(b.text), q.place, b.line, r)
    ensures Answers(d, buildArgs, baseEnv, q, Finish(Found(d, buildArgs, q).quoted, r))
  {
    hide Replace, Scan, BindingAt, StageId, Finish;
    var b := Found(d, buildArgs, q);
    var f: nat :| Replace(d, buildArgs, baseEnv, Scan(b.text), q.place, b.line, f) == Some(r);
    assert Search(d, buildArgs, baseEnv, q, f + 1) == Some(Finish(b.quoted, r));
  }

  lemma PreambleAnswers(d: Dockerfile, buildArgs: Vars, baseEnv: Vars, q: Lookup)
    requires Indexed(d) && q.place.AtPreamble? && !Stopped(d, q) && Found(d, buildArgs, q).Unset?
    ensures Answers(d, buildArgs, baseEnv, q, Get(baseEnv, q.variable))
  {
    assert Search(d, buildArgs, baseEnv, q, 1) == Some(Get(baseEnv, q.variable));
  }

  lemma OnwardAnswers(d: Dockerfile, buildArgs: Vars, baseEnv: Vars, q: Lookup, image: string, r: string)
    requires Indexed(d) && InFile(d, q.place) && q.place.AtStage?
    requires !Stopped(d, q) && Found(d, buildArgs, q).Unset?
    requires Renders(d, buildArgs, baseEnv, Scan(d.stages[q.place.i].image), AtPreamble, FromLine(d), image)
    requires Answers(d, buildArgs, baseEnv, Onward(d, q, image), r)
    ensures Answers(d, buildArgs, baseEnv, q, r)
  {
    hide Replace, Scan, BindingAt, StageId;
    var pieces, next := Scan(d.stages[q.place.i].image), Onward(d, q, image);
    var f: nat :| Replace(d, buildArgs, baseEnv, pieces, AtPreamble, FromLine(d), f) == Some(image);
    var g: nat :| Search(d, buildArgs, baseEnv, next, g) == Some(r);
    MoreFuelText(d, buildArgs, baseEnv, pieces, AtPreamble, FromLine(d), f, f + g);
    MoreFuel(d, buildArgs, baseEnv, next, g, f + g);
    assert Search(d, buildArgs, baseEnv, q, f + g + 1) == Some(r);
  }

  lemma RendersNothing(d: Dockerfile, buildArgs: Vars, baseEnv: Vars, place: Place, line: nat)
    requires Indexed(d) && InFile(d, place)
    ensures Renders(d, buildArgs, baseEnv, [], place, line, "")
  {
    assert Replace(d, buildArgs, baseEnv, [], place, line, 0) == Some("");
  }

  /** One more piece. */
  lemma ReplaceSnoc(d: Dockerfile, buildArgs: Vars, baseEnv: Vars, pieces: seq<Piece>, place: Place, line: nat,
                    p: Piece, fuel: nat)
    requires Indexed(d) && InFile(d, place)
    ensures Replace(d, buildArgs, baseEnv, pieces + [p], place, line, fuel)
            == match Replace(d, buildArgs, baseEnv, pieces, place, line, fuel)
               case None => None
               case Some(before) =>
                 if p.Plain? then Some(before + [p.c])
                 else Map(Search(d, buildArgs, baseEnv, Ask(p.name, place, line), fuel), v => before + Substitute(p, v))
  {
    hide Search, Indexed, Substitute;
    assert (pieces + [p])[..|pieces|] == pieces;
  }

  lemma RendersPiece(d: Dockerfile, buildArgs: Vars, baseEnv: Vars, pieces: seq<Piece>, place: Place, line: nat,
                     p: Piece, before: string, value: string)
    requires Indexed(d) && InFile(d, place)
    requires Renders(d, buildArgs, baseEnv, pieces, place, line, before)
    requires p.Ref? ==> Answers(d, buildArgs, baseEnv, Ask(p.name, place, line), value)
    ensures Renders(d, buildArgs, baseEnv, pieces + [p], place, line, before + Substitute(p, value))
  {
    hide Search, Replace, Indexed, ExpressionValue;
    var f: nat :| Replace(d, buildArgs, baseEnv, pieces, place, line, f) == Some(before);
    if p.Ref? {
      var q := Ask(p.name, place, line);
      var g: nat :| Search(d, buildArgs, baseEnv, q, g) == Some(value);
      MoreFuelText(d, buildArgs, baseEnv, pieces, place, line, f, f + g);
      MoreFuel(d, buildArgs, baseEnv, q, g, f + g);
      ReplaceSnoc(d, buildArgs, baseEnv, pieces, place, line, p, f + g);
    } else {
      ReplaceSnoc(d, buildArgs, baseEnv, pieces, place, line, p, f);
    }
  }

  // ---- how a user comes about ----

  lemma UserStopped(d: Dockerfile, buildArgs: Vars, baseEnv: Vars, i: nat, seen: set<string>)
    requires Indexed(d) && i < |d.stages|
    requires StageId(d.stages[i]) in seen || (d.stages[i].users == [] && d.stages[i].image == "")
    ensures UserAnswers(d, buildArgs, baseEnv, i, seen, "")
  {
    assert SearchUser(d, buildArgs, baseEnv, i, seen, 1) == Some("");
  }

  lemma UserFound(d: Dockerfile, buildArgs: Vars, baseEnv: Vars, i: nat, seen: set<string>, r: string)
    requires Indexed(d) && i < |d.stages| && StageId(d.stages[i]) !in seen && d.stages[i].users != []
    requires var u := d.stages[i].users[|d.stages[i].users| - 1];
             Renders(d, buildArgs, baseEnv, Scan(u.key), AtStage(i), u.line, r)
    ensures UserAnswers(d, buildArgs, baseEnv, i, seen, r)
  {
    hide Replace, Scan;
    var u := d.stages[i].users[|d.stages[i].users| - 1];
    var f: nat :| Replace(d, buildArgs, baseEnv, Scan(u.key), AtStage(i), u.line, f) == Some(r);
    assert SearchUser(d, buildArgs, baseEnv, i, seen, f + 1) == Some(r);
  }

  lemma UserOnward(d: Dockerfile, buildArgs: Vars, baseEnv: Vars, i: nat, seen: set<string>, image: string, r: string)
    requires Indexed(d) && i < |d.stages| && StageId(d.stages[i]) !in seen
    requires d.stages[i].users == [] && d.stages[i].image != ""
    requires Renders(d, buildArgs, baseEnv, Scan(d.stages[i].image), AtPreamble, FromLine(d), image)
    requires if image !in d.byTarget then r == ""
             else UserAnswers(d, buildArgs, baseEnv, d.byTarget[image], seen + {StageId(d.stages[i])}, r)
    ensures UserAnswers(d, buildArgs, baseEnv, i, seen, r)
  {
    hide Replace, Scan, StageId;
    var pieces, seen' := Scan(d.stages[i].image), seen + {StageId(d.stages[i])};
    var f: nat :| Replace(d, buildArgs, baseEnv, pieces, AtPreamble, FromLine(d), f) == Some(image);
    if image !in d.byTarget {
      assert SearchUser(d, buildArgs, baseEnv, i, seen, f + 1) == Some("");
    } else {
      var g: nat :| SearchUser(d, buildArgs, baseEnv, d.byTarget[image], seen', g) == Some(r);
      MoreFuelText(d, buildArgs, baseEnv, pieces, AtPreamble, FromLine(d), f, f + g);
      MoreFuelUser(d, buildArgs, baseEnv, d.byTarget[image], seen', g, f + g);
      assert SearchUser(d, buildArgs, baseEnv, i, seen, f + g + 1) == Some(r);
    }
  }

  // ---- values without references ----

  lemma {:induction false} ReplacePlain(d: Dockerfile, buildArgs: Vars, baseEnv: Vars, ps: seq<Piece>, s: string,
                                        place: Place, line: nat, fuel: nat)
    requires Indexed(d) && InFile(d, place)
    requires |ps| == |s| && forall k :: 0 <= k < |s| ==> ps[k] == Plain(s[k])
    ensures Replace(d, buildArgs, baseEnv, ps, place, line, fuel) == Some(s)
    decreases |s|
  {
    hide Search, Indexed;
    if s != "" {
      var n := |s| - 1;
      ReplacePlain(d, buildArgs, baseEnv, ps[..n], s[..n], place, line, fuel);
      assert s[..n] + [s[n]] == s;
    }
  }

  lemma ReplaceSame(d: Dockerfile, buildArgs: Vars, baseEnv: Vars, s: string, place: Place, line: nat, fuel: nat)
    requires Indexed(d) && InFile(d, place) && '$' !in s
    ensures Replace(d, buildArgs, baseEnv, Scan(s), place, line, fuel) == Some(s)
  {
    ScanPlain(s);
    ReplacePlain(d, buildArgs, baseEnv, Scan(s), s, place, line, fuel);
  }
}
