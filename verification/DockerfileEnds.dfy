/**
 Which lookups end, on every file. The walk along FROMs of one lookup always ends, because each step
 adds an identity to those seen; it may end in a text, whose references are looked up afresh. So a
 lookup goes on for ever exactly if following references from it leads to some reference twice.
 */
module DockerfileEnds {
  import opened Text
  import opened DockerfileSyntax
  import opened Dockerfile
  import opened DockerfileScope
  import opened DockerfileBindings
  import opened DockerfileSearch

  // ---- the preamble ----

  /** In the preamble every nested lookup is at a smaller line. */
  lemma {:induction false} PreambleEnds(d: Dockerfile, buildArgs: Vars, baseEnv: Vars, q: Lookup) returns (r: string)
    requires Indexed(d) && q.place.AtPreamble?
    ensures Answers(d, buildArgs, baseEnv, q, r)
    decreases q.line, 0
  {
    hide Scan, StageId, BindingAt, Answers, Renders, Indexed;
    if Stopped(d, q) {
      StoppedAnswers(d, buildArgs, baseEnv, q);
      return "";
    }
    match Found(d, buildArgs, q)
    case Given(value) =>
      GivenAnswers(d, buildArgs, baseEnv, q);
      return value;
    case SetTo(text, line, quoted) =>
      r := PreambleTextEnds(d, buildArgs, baseEnv, Scan(text), line);
      TextAnswers(d, buildArgs, baseEnv, q, r);
      return Finish(quoted, r);
    case Unset =>
      PreambleAnswers(d, buildArgs, baseEnv, q);
      return Get(baseEnv, q.variable);
  }

  lemma {:induction false} PreambleTextEnds(d: Dockerfile, buildArgs: Vars, baseEnv: Vars, pieces: seq<Piece>,
                                            line: nat)
    returns (r: string)
    requires Indexed(d)
    ensures Renders(d, buildArgs, baseEnv, pieces, AtPreamble, line, r)
    decreases line, 1 + |pieces|
  {
    hide Answers, Renders, Substitute, Indexed;
    if pieces == [] {
      RendersNothing(d, buildArgs, baseEnv, AtPreamble, line);
      return "";
    }
    var init, p := pieces[..|pieces| - 1], pieces[|pieces| - 1];
    r := PreambleTextEnds(d, buildArgs, baseEnv, init, line);
    var value := "";
    if p.Ref? {
      value := PreambleEnds(d, buildArgs, baseEnv, Ask(p.name, AtPreamble, line));
    }
    RendersPiece(d, buildArgs, baseEnv, init, AtPreamble, line, p, r, value);
    assert init + [p] == pieces;
    return r + Substitute(p, value);
  }

  lemma OneText(d: Dockerfile, buildArgs: Vars, baseEnv: Vars, pieces: seq<Piece>, place: Place, line: nat,
                r: string, r': string)
    requires Renders(d, buildArgs, baseEnv, pieces, place, line, r)
    requires Renders(d, buildArgs, baseEnv, pieces, place, line, r')
    ensures r == r'
  {
    hide Replace, Indexed;
    var f: nat :| Replace(d, buildArgs, baseEnv, pieces, place, line, f) == Some(r);
    var f': nat :| Replace(d, buildArgs, baseEnv, pieces, place, line, f') == Some(r');
    MoreFuelText(d, buildArgs, baseEnv, pieces, place, line, f, f + f');
    MoreFuelText(d, buildArgs, baseEnv, pieces, place, line, f', f + f');
  }

  lemma ImageExists(d: Dockerfile, buildArgs: Vars, baseEnv: Vars, i: nat)
    requires Indexed(d) && i < |d.stages|
    ensures exists image :: Renders(d, buildArgs, baseEnv, Scan(d.stages[i].image), AtPreamble, FromLine(d), image)
  {
    hide Renders, Indexed, Scan;
    var _ := PreambleTextEnds(d, buildArgs, baseEnv, Scan(d.stages[i].image), FromLine(d));
  }

  /** So every FROM has an image, whatever the file. */
  ghost function Image(d: Dockerfile, buildArgs: Vars, baseEnv: Vars, i: nat): (image: string)
    requires Indexed(d) && i < |d.stages|
    ensures Renders(d, buildArgs, baseEnv, Scan(d.stages[i].image), AtPreamble, FromLine(d), image)
  {
    ImageExists(d, buildArgs, baseEnv, i);
    var image :| Renders(d, buildArgs, baseEnv, Scan(d.stages[i].image), AtPreamble, FromLine(d), image);
    image
  }

  lemma ImageOnly(d: Dockerfile, buildArgs: Vars, baseEnv: Vars, i: nat, fuel: nat)
    requires Indexed(d) && i < |d.stages|
    requires Replace(d, buildArgs, baseEnv, Scan(d.stages[i].image), AtPreamble, FromLine(d), fuel).Some?
    ensures Replace(d, buildArgs, baseEnv, Scan(d.stages[i].image), AtPreamble, FromLine(d), fuel)
            == Some(Image(d, buildArgs, baseEnv, i))
  {
    hide Replace, Scan, Image;
    var pieces := Scan(d.stages[i].image);
    var r := Replace(d, buildArgs, baseEnv, pieces, AtPreamble, FromLine(d), fuel).value;
    assert Renders(d, buildArgs, baseEnv, pieces, AtPreamble, FromLine(d), r);
    OneText(d, buildArgs, baseEnv, pieces, AtPreamble, FromLine(d), r, Image(d, buildArgs, baseEnv, i));
  }

  // ---- the walk of one lookup ----

  /** What a walk ends in: a text to be expanded at its line, or nothing more to look up. */
  datatype Goal = NoText | Text(text: string, place: Place, line: nat)

  function AllIds(d: Dockerfile): set<string> {
    set i | 0 <= i < |d.stages| :: StageId(d.stages[i])
  }

  ghost function GoalOf(d: Dockerfile, buildArgs: Vars, baseEnv: Vars, q: Lookup): (g: Goal)
    requires Indexed(d) && InFile(d, q.place)
    ensures g.Text? ==> InFile(d, g.place)
    decreases AllIds(d) - q.seen
  {
    if Stopped(d, q) then NoText
    else match Found(d, buildArgs, q)
      case Given(_) => NoText
      case SetTo(text, line, _) => Text(text, q.place, line)
      case Unset =>
        if q.place.AtPreamble? then NoText
        else
          assert StageId(d.stages[q.place.i]) in AllIds(d) - q.seen;
          GoalOf(d, buildArgs, baseEnv, Onward(d, q, Image(d, buildArgs, baseEnv, q.place.i)))
  }

  /** Getting to the text costs fuel. */
  lemma {:induction false} GoalCosts(d: Dockerfile, buildArgs: Vars, baseEnv: Vars, q: Lookup, fuel: nat)
    requires Indexed(d) && InFile(d, q.place) && GoalOf(d, buildArgs, baseEnv, q).Text?
    requires Search(d, buildArgs, baseEnv, q, fuel).Some?
    ensures var g := GoalOf(d, buildArgs, baseEnv, q);
            fuel > 0 && Replace(d, buildArgs, baseEnv, Scan(g.text), g.place, g.line, fuel - 1).Some?
    decreases fuel
  {
    hide Scan, StageId, BindingAt, Replace, Image, Indexed, AllIds;
    if Found(d, buildArgs, q).Unset? {
      var i, g := q.place.i, GoalOf(d, buildArgs, baseEnv, q);
      ImageOnly(d, buildArgs, baseEnv, i, fuel - 1);
      GoalCosts(d, buildArgs, baseEnv, Onward(d, q, Image(d, buildArgs, baseEnv, i)), fuel - 1);
      MoreFuelText(d, buildArgs, baseEnv, Scan(g.text), g.place, g.line, fuel - 2, fuel - 1);
    }
  }

  /** If the text it ends in can be expanded, a lookup has an answer. */
  lemma {:induction false} WalkAnswers(d: Dockerfile, buildArgs: Vars, baseEnv: Vars, q: Lookup) returns (r: string)
    requires Indexed(d) && InFile(d, q.place)
    requires var g := GoalOf(d, buildArgs, baseEnv, q);
             g.Text? ==> exists t :: Renders(d, buildArgs, baseEnv, Scan(g.text), g.place, g.line, t)
    ensures Answers(d, buildArgs, baseEnv, q, r)
    decreases AllIds(d) - q.seen
  {
    hide Scan, StageId, BindingAt, Answers, Renders, Indexed, Image;
    if Stopped(d, q) {
      StoppedAnswers(d, buildArgs, baseEnv, q);
      return "";
    }
    match Found(d, buildArgs, q)
    case Given(value) =>
      GivenAnswers(d, buildArgs, baseEnv, q);
      return value;
    case SetTo(text, line, quoted) =>
      var t :| Renders(d, buildArgs, baseEnv, Scan(text), q.place, line, t);
      TextAnswers(d, buildArgs, baseEnv, q, t);
      return Finish(quoted, t);
    case Unset =>
      if q.place.AtPreamble? {
        PreambleAnswers(d, buildArgs, baseEnv, q);
        return Get(baseEnv, q.variable);
      }
      assert StageId(d.stages[q.place.i]) in AllIds(d) - q.seen;
      var image := Image(d, buildArgs, baseEnv, q.place.i);
      r := WalkAnswers(d, buildArgs, baseEnv, Onward(d, q, image));
      OnwardAnswers(d, buildArgs, baseEnv, q, image, r);
  }

  // ---- references ----

  /** A lookup as replaceVariables asks for it. */
  datatype Key = Key(name: string, place: Place, line: nat)

  function AskFor(x: Key): Lookup {
    Ask(x.name, x.place, x.line)
  }

  predicate Mentions(g: Goal, y: Key) {
    && g.Text? && y.place == g.place && y.line == g.line
    && exists k :: 0 <= k < |Scan(g.text)| && Scan(g.text)[k].Ref? && Scan(g.text)[k].name == y.name
  }

  /** The lookup x ends in a text that refers to y. */
  ghost predicate Refers(d: Dockerfile, buildArgs: Vars, baseEnv: Vars, x: Key, y: Key)
    requires Indexed(d)
  {
    InFile(d, x.place) && Mentions(GoalOf(d, buildArgs, baseEnv, AskFor(x)), y)
  }

  lemma RefersIs(d: Dockerfile, buildArgs: Vars, baseEnv: Vars, x: Key, y: Key)
    requires Indexed(d) && InFile(d, x.place) && Mentions(GoalOf(d, buildArgs, baseEnv, AskFor(x)), y)
    ensures Refers(d, buildArgs, baseEnv, x, y)
  {
  }

  ghost predicate IsPath(d: Dockerfile, buildArgs: Vars, baseEnv: Vars, path: seq<Key>)
    requires Indexed(d)
  {
    && path != [] && InFile(d, path[0].place)
    && forall k :: 0 < k < |path| ==> Refers(d, buildArgs, baseEnv, path[k - 1], path[k])
  }

  predicate Repeats(path: seq<Key>) {
    exists i, j :: 0 <= i < j < |path| && path[i] == path[j]
  }

  /** Following references from x leads to some lookup twice. */
  ghost predicate Circular(d: Dockerfile, buildArgs: Vars, baseEnv: Vars, x: Key)
    requires Indexed(d)
  {
    exists path :: IsPath(d, buildArgs, baseEnv, path) && path[0] == x && Repeats(path)
  }

  lemma PathInFile(d: Dockerfile, buildArgs: Vars, baseEnv: Vars, path: seq<Key>, k: nat)
    requires Indexed(d) && IsPath(d, buildArgs, baseEnv, path) && k < |path|
    ensures InFile(d, path[k].place)
  {
    hide GoalOf, Indexed;
    if k > 0 {
      assert Refers(d, buildArgs, baseEnv, path[k - 1], path[k]);
    }
  }

  ghost predicate HasAnswer(d: Dockerfile, buildArgs: Vars, baseEnv: Vars, x: Key) {
    exists r :: Answers(d, buildArgs, baseEnv, AskFor(x), r)
  }

  // ---- a circle is never answered ----

  lemma {:induction false} TextCosts(d: Dockerfile, buildArgs: Vars, baseEnv: Vars, pieces: seq<Piece>, place: Place,
                                     line: nat, fuel: nat, k: nat)
    requires Indexed(d) && InFile(d, place) && k < |pieces| && pieces[k].Ref?
    requires Replace(d, buildArgs, baseEnv, pieces, place, line, fuel).Some?
    ensures Search(d, buildArgs, baseEnv, Ask(pieces[k].name, place, line), fuel).Some?
    decreases |pieces|
  {
    hide Search, Indexed;
    if k < |pieces| - 1 {
      TextCosts(d, buildArgs, baseEnv, pieces[..|pieces| - 1], place, line, fuel, k);
    }
  }

  lemma RefersCosts(d: Dockerfile, buildArgs: Vars, baseEnv: Vars, x: Key, y: Key, fuel: nat)
    requires Indexed(d) && Refers(d, buildArgs, baseEnv, x, y)
    requires Search(d, buildArgs, baseEnv, AskFor(x), fuel).Some?
    ensures InFile(d, y.place) && fuel > 0 && Search(d, buildArgs, baseEnv, AskFor(y), fuel - 1).Some?
  {
    hide Search, Replace, Indexed, GoalOf, Scan;
    var g := GoalOf(d, buildArgs, baseEnv, AskFor(x));
    GoalCosts(d, buildArgs, baseEnv, AskFor(x), fuel);
    var k :| 0 <= k < |Scan(g.text)| && Scan(g.text)[k].Ref? && Scan(g.text)[k].name == y.name;
    TextCosts(d, buildArgs, baseEnv, Scan(g.text), g.place, g.line, fuel - 1, k);
  }

  lemma {:induction false} PathCosts(d: Dockerfile, buildArgs: Vars, baseEnv: Vars, path: seq<Key>, i: nat, j: nat,
                                     fuel: nat)
    requires Indexed(d) && IsPath(d, buildArgs, baseEnv, path) && i <= j < |path| && InFile(d, path[i].place)
    requires Search(d, buildArgs, baseEnv, AskFor(path[i]), fuel).Some?
    ensures InFile(d, path[j].place) && fuel >= j - i
    ensures Search(d, buildArgs, baseEnv, AskFor(path[j]), fuel - (j - i)).Some?
    decreases j
  {
    hide Search, Indexed, Refers;
    if i < j {
      PathCosts(d, buildArgs, baseEnv, path, i, j - 1, fuel);
      assert Refers(d, buildArgs, baseEnv, path[j - 1], path[j]);
      RefersCosts(d, buildArgs, baseEnv, path[j - 1], path[j], fuel - (j - 1 - i));
    }
  }

  /** Going round once more would do with less fuel. */
  lemma {:induction false} CircleNever(d: Dockerfile, buildArgs: Vars, baseEnv: Vars, path: seq<Key>, i: nat, j: nat,
                                       fuel: nat)
    requires Indexed(d) && IsPath(d, buildArgs, baseEnv, path) && i < j < |path| && path[i] == path[j]
    requires InFile(d, path[i].place)
    ensures Search(d, buildArgs, baseEnv, AskFor(path[i]), fuel) == None
    decreases fuel
  {
    hide Search, Indexed, IsPath;
    if Search(d, buildArgs, baseEnv, AskFor(path[i]), fuel).Some? {
      PathCosts(d, buildArgs, baseEnv, path, i, j, fuel);
      CircleNever(d, buildArgs, baseEnv, path, i, j, fuel - (j - i));
    }
  }

  lemma CircularNever(d: Dockerfile, buildArgs: Vars, baseEnv: Vars, x: Key, fuel: nat)
    requires Indexed(d) && InFile(d, x.place) && Circular(d, buildArgs, baseEnv, x)
    ensures Search(d, buildArgs, baseEnv, AskFor(x), fuel) == None
  {
    hide Search, Indexed, Refers;
    var path :| IsPath(d, buildArgs, baseEnv, path) && path[0] == x && Repeats(path);
    var i: nat, j: nat :| i < j < |path| && path[i] == path[j];
    PathInFile(d, buildArgs, baseEnv, path, i);
    CircleSpoils(d, buildArgs, baseEnv, path, i, j, fuel);
  }

  lemma CircleSpoils(d: Dockerfile, buildArgs: Vars, baseEnv: Vars, path: seq<Key>, i: nat, j: nat, fuel: nat)
    requires Indexed(d) && IsPath(d, buildArgs, baseEnv, path) && i < j < |path| && path[i] == path[j]
    requires InFile(d, path[0].place) && InFile(d, path[i].place)
    ensures Search(d, buildArgs, baseEnv, AskFor(path[0]), fuel) == None
  {
    hide Search, Indexed, IsPath;
    if Search(d, buildArgs, baseEnv, AskFor(path[0]), fuel).Some? {
      PathCosts(d, buildArgs, baseEnv, path, 0, i, fuel);
      CircleNever(d, buildArgs, baseEnv, path, i, j, fuel - i);
    }
  }

  // ---- everything else is ----

  function TextKeys(text: string, place: Place, line: nat): set<Key> {
    set k | 0 <= k < |Scan(text)| && Scan(text)[k].Ref? :: Key(Scan(text)[k].name, place, line)
  }

  function ListKeys(list: seq<KeyValue>, place: Place): set<Key> {
    set i, y | 0 <= i < |list| && y in TextKeys(list[i].value, place, list[i].line) :: y
  }

  function PlaceKeys(s: Stage, place: Place): set<Key> {
    ListKeys(s.args, place) + ListKeys(s.envs, place)
  }

  /** All references of the file, at the places and lines they are looked up. */
  function AllKeys(d: Dockerfile): set<Key> {
    PlaceKeys(d.preamble, AtPreamble)
    + set i, y | 0 <= i < |d.stages| && y in PlaceKeys(d.stages[i], AtStage(i)) :: y
  }

  lemma {:induction false} GoalKeys(d: Dockerfile, buildArgs: Vars, baseEnv: Vars, q: Lookup, y: Key)
    requires Indexed(d) && InFile(d, q.place) && Mentions(GoalOf(d, buildArgs, baseEnv, q), y)
    ensures y in AllKeys(d) && InFile(d, y.place)
    decreases AllIds(d) - q.seen
  {
    hide Scan, StageId, Indexed, Image;
    if Found(d, buildArgs, q).Unset? {
      assert StageId(d.stages[q.place.i]) in AllIds(d) - q.seen;
      GoalKeys(d, buildArgs, baseEnv, Onward(d, q, Image(d, buildArgs, baseEnv, q.place.i)), y);
    } else {
      FoundKeys(d, buildArgs, q, y);
    }
  }

  lemma FoundKeys(d: Dockerfile, buildArgs: Vars, q: Lookup, y: Key)
    requires InFile(d, q.place) && Found(d, buildArgs, q).SetTo?
    requires var b := Found(d, buildArgs, q); y in TextKeys(b.text, q.place, b.line)
    ensures y in AllKeys(d)
  {
    hide TextKeys;
    assert y in PlaceKeys(StageAt(d, q.place), q.place);
  }

  /** A text whose references have answers can be expanded. */
  lemma {:induction false} TextRenders(d: Dockerfile, buildArgs: Vars, baseEnv: Vars, pieces: seq<Piece>, place: Place,
                                       line: nat)
    requires Indexed(d) && InFile(d, place)
    requires forall k :: 0 <= k < |pieces| && pieces[k].Ref? ==>
               HasAnswer(d, buildArgs, baseEnv, Key(pieces[k].name, place, line))
    ensures exists r :: Renders(d, buildArgs, baseEnv, pieces, place, line, r)
  {
    hide Answers, Renders, Indexed, Substitute;
    if pieces == [] {
      RendersNothing(d, buildArgs, baseEnv, place, line);
    } else {
      var init, p := pieces[..|pieces| - 1], pieces[|pieces| - 1];
      assert forall k :: 0 <= k < |init| ==> init[k] == pieces[k];
      TextRenders(d, buildArgs, baseEnv, init, place, line);
      var before :| Renders(d, buildArgs, baseEnv, init, place, line, before);
      var value := "";
      if p.Ref? {
        value :| Answers(d, buildArgs, baseEnv, Ask(p.name, place, line), value);
      }
      RendersPiece(d, buildArgs, baseEnv, init, place, line, p, before, value);
      assert init + [p] == pieces;
    }
  }

  lemma ReturnIsCircular(d: Dockerfile, buildArgs: Vars, baseEnv: Vars, path: seq<Key>, y: Key)
    requires Indexed(d) && IsPath(d, buildArgs, baseEnv, path + [y]) && path != [] && y in path
    ensures Circular(d, buildArgs, baseEnv, path[0])
  {
    hide Indexed, Refers;
    var path' := path + [y];
    var i :| 0 <= i < |path| && path[i] == y;
    assert path'[i] == path'[|path|];
    assert Repeats(path') && path'[0] == path[0];
  }

  lemma PathExtends(d: Dockerfile, buildArgs: Vars, baseEnv: Vars, path: seq<Key>, y: Key)
    requires Indexed(d) && IsPath(d, buildArgs, baseEnv, path) && !Circular(d, buildArgs, baseEnv, path[0])
    requires Refers(d, buildArgs, baseEnv, path[|path| - 1], y)
    ensures IsPath(d, buildArgs, baseEnv, path + [y]) && y !in path
  {
    hide Indexed, Refers, Circular;
    if y in path {
      ReturnIsCircular(d, buildArgs, baseEnv, path, y);
    }
  }

  /** Paths without a repetition cannot grow for ever, so the lookup at their end has an answer. */
  lemma {:induction false} PathAnswers(d: Dockerfile, buildArgs: Vars, baseEnv: Vars, path: seq<Key>)
    requires Indexed(d) && IsPath(d, buildArgs, baseEnv, path) && !Circular(d, buildArgs, baseEnv, path[0])
    ensures InFile(d, path[|path| - 1].place) && HasAnswer(d, buildArgs, baseEnv, path[|path| - 1])
    decreases AllKeys(d) - set y | y in path
  {
    hide Answers, Renders, Indexed, GoalOf, AllKeys, Circular, Refers, Scan;
    var x := path[|path| - 1];
    PathInFile(d, buildArgs, baseEnv, path, |path| - 1);
    var g := GoalOf(d, buildArgs, baseEnv, AskFor(x));
    if g.Text? {
      var pieces := Scan(g.text);
      forall k | 0 <= k < |pieces| && pieces[k].Ref?
        ensures HasAnswer(d, buildArgs, baseEnv, Key(pieces[k].name, g.place, g.line))
      {
        var y := Key(pieces[k].name, g.place, g.line);
        assert Mentions(g, y);
        assert Refers(d, buildArgs, baseEnv, x, y) by { RefersIs(d, buildArgs, baseEnv, x, y); }
        GoalKeys(d, buildArgs, baseEnv, AskFor(x), y);
        PathExtends(d, buildArgs, baseEnv, path, y);
        assert y in AllKeys(d) - (set z | z in path) && y !in AllKeys(d) - (set z | z in path + [y]);
        PathAnswers(d, buildArgs, baseEnv, path + [y]);
      }
      TextRenders(d, buildArgs, baseEnv, pieces, g.place, g.line);
    }
    var _ := WalkAnswers(d, buildArgs, baseEnv, AskFor(x));
  }

  /** On every file, a lookup has an answer exactly if following references from it never comes back. */
  lemma AnswersIff(d: Dockerfile, buildArgs: Vars, baseEnv: Vars, x: Key)
    requires Indexed(d) && InFile(d, x.place)
    ensures HasAnswer(d, buildArgs, baseEnv, x) <==> !Circular(d, buildArgs, baseEnv, x)
  {
    hide Search, Indexed, Circular;
    if Circular(d, buildArgs, baseEnv, x) {
      forall fuel: nat ensures Search(d, buildArgs, baseEnv, AskFor(x), fuel) == None {
        CircularNever(d, buildArgs, baseEnv, x, fuel);
      }
    } else {
      assert IsPath(d, buildArgs, baseEnv, [x]);
      PathAnswers(d, buildArgs, baseEnv, [x]);
    }
  }

  lemma GoalRenders(d: Dockerfile, buildArgs: Vars, baseEnv: Vars, g: Goal)
    requires Indexed(d) && g.Text? && InFile(d, g.place)
    requires forall y :: Mentions(g, y) ==> !Circular(d, buildArgs, baseEnv, y)
    ensures exists r :: Renders(d, buildArgs, baseEnv, Scan(g.text), g.place, g.line, r)
  {
    hide Answers, Renders, Indexed, Circular, Scan;
    var pieces := Scan(g.text);
    forall k | 0 <= k < |pieces| && pieces[k].Ref?
      ensures HasAnswer(d, buildArgs, baseEnv, Key(pieces[k].name, g.place, g.line))
    {
      var y := Key(pieces[k].name, g.place, g.line);
      assert Mentions(g, y);
      AnswersIff(d, buildArgs, baseEnv, y);
    }
    TextRenders(d, buildArgs, baseEnv, pieces, g.place, g.line);
  }

  // ---- the user ----

  /** The text of the USER that FindUserStatement comes to, if it comes to one. */
  ghost function UserGoal(d: Dockerfile, buildArgs: Vars, baseEnv: Vars, i: nat, seen: set<string>): (g: Goal)
    requires Indexed(d) && i < |d.stages|
    ensures g.Text? ==> InFile(d, g.place)
    decreases AllIds(d) - seen
  {
    var s := d.stages[i];
    if StageId(s) in seen then NoText
    else if s.users != [] then Text(s.users[|s.users| - 1].key, AtStage(i), s.users[|s.users| - 1].line)
    else if s.image == "" then NoText
    else
      var image := Image(d, buildArgs, baseEnv, i);
      assert StageId(s) in AllIds(d) - seen;
      if image in d.byTarget then UserGoal(d, buildArgs, baseEnv, d.byTarget[image], seen + {StageId(s)}) else NoText
  }

  /** The user refers to a variable whose lookup never ends. */
  ghost predicate UserCircular(d: Dockerfile, buildArgs: Vars, baseEnv: Vars, i: nat)
    requires Indexed(d) && i < |d.stages|
  {
    exists y :: Mentions(UserGoal(d, buildArgs, baseEnv, i, {}), y) && Circular(d, buildArgs, baseEnv, y)
  }

  ghost predicate HasUser(d: Dockerfile, buildArgs: Vars, baseEnv: Vars, i: nat) {
    exists r :: UserAnswers(d, buildArgs, baseEnv, i, {}, r)
  }

  lemma {:induction false} UserCosts(d: Dockerfile, buildArgs: Vars, baseEnv: Vars, i: nat, seen: set<string>,
                                     fuel: nat)
    requires Indexed(d) && i < |d.stages| && UserGoal(d, buildArgs, baseEnv, i, seen).Text?
    requires SearchUser(d, buildArgs, baseEnv, i, seen, fuel).Some?
    ensures var g := UserGoal(d, buildArgs, baseEnv, i, seen);
            fuel > 0 && Replace(d, buildArgs, baseEnv, Scan(g.text), g.place, g.line, fuel - 1).Some?
    decreases fuel
  {
    hide Scan, StageId, Replace, Image, AllIds;
    var s, g := d.stages[i], UserGoal(d, buildArgs, baseEnv, i, seen);
    if s.users == [] {
      ImageOnly(d, buildArgs, baseEnv, i, fuel - 1);
      var j := d.byTarget[Image(d, buildArgs, baseEnv, i)];
      UserCosts(d, buildArgs, baseEnv, j, seen + {StageId(s)}, fuel - 1);
      MoreFuelText(d, buildArgs, baseEnv, Scan(g.text), g.place, g.line, fuel - 2, fuel - 1);
    }
  }

  lemma {:induction false} UserWalkAnswers(d: Dockerfile, buildArgs: Vars, baseEnv: Vars, i: nat, seen: set<string>)
    returns (r: string)
    requires Indexed(d) && i < |d.stages|
    requires var g := UserGoal(d, buildArgs, baseEnv, i, seen);
             g.Text? ==> exists t :: Renders(d, buildArgs, baseEnv, Scan(g.text), g.place, g.line, t)
    ensures UserAnswers(d, buildArgs, baseEnv, i, seen, r)
    decreases AllIds(d) - seen
  {
    hide Scan, StageId, UserAnswers, Renders, Image;
    var s := d.stages[i];
    if StageId(s) in seen || (s.users == [] && s.image == "") {
      UserStopped(d, buildArgs, baseEnv, i, seen);
      return "";
    }
    if s.users != [] {
      var u := s.users[|s.users| - 1];
      r :| Renders(d, buildArgs, baseEnv, Scan(u.key), AtStage(i), u.line, r);
      UserFound(d, buildArgs, baseEnv, i, seen, r);
      return;
    }
    assert StageId(s) in AllIds(d) - seen;
    var image := Image(d, buildArgs, baseEnv, i);
    r := "";
    if image in d.byTarget {
      r := UserWalkAnswers(d, buildArgs, baseEnv, d.byTarget[image], seen + {StageId(s)});
    }
    UserOnward(d, buildArgs, baseEnv, i, seen, image, r);
  }

  lemma UserNever(d: Dockerfile, buildArgs: Vars, baseEnv: Vars, i: nat, y: Key, fuel: nat)
    requires Indexed(d) && i < |d.stages| && Circular(d, buildArgs, baseEnv, y)
    requires Mentions(UserGoal(d, buildArgs, baseEnv, i, {}), y)
    ensures SearchUser(d, buildArgs, baseEnv, i, {}, fuel) == None
  {
    hide SearchUser, Search, Replace, Indexed, Circular, UserGoal, Scan;
    var g := UserGoal(d, buildArgs, baseEnv, i, {});
    CircularNever(d, buildArgs, baseEnv, y, if fuel > 0 then fuel - 1 else 0);
    if SearchUser(d, buildArgs, baseEnv, i, {}, fuel).Some? {
      var k :| 0 <= k < |Scan(g.text)| && Scan(g.text)[k].Ref? && Scan(g.text)[k].name == y.name;
      UserCosts(d, buildArgs, baseEnv, i, {}, fuel);
      TextCosts(d, buildArgs, baseEnv, Scan(g.text), g.place, g.line, fuel - 1, k);
    }
  }

  /** On every file, the search for a user ends exactly if the USER it comes to refers to nothing circular. */
  lemma UserAnswersIff(d: Dockerfile, buildArgs: Vars, baseEnv: Vars, i: nat)
    requires Indexed(d) && i < |d.stages|
    ensures HasUser(d, buildArgs, baseEnv, i) <==> !UserCircular(d, buildArgs, baseEnv, i)
  {
    hide SearchUser, Indexed, Circular, UserGoal, Renders, Mentions;
    if UserCircular(d, buildArgs, baseEnv, i) {
      var y :| Mentions(UserGoal(d, buildArgs, baseEnv, i, {}), y) && Circular(d, buildArgs, baseEnv, y);
      forall fuel: nat ensures SearchUser(d, buildArgs, baseEnv, i, {}, fuel) == None {
        UserNever(d, buildArgs, baseEnv, i, y, fuel);
      }
    } else {
      var g := UserGoal(d, buildArgs, baseEnv, i, {});
      if g.Text? {
        GoalRenders(d, buildArgs, baseEnv, g);
      }
      var _ := UserWalkAnswers(d, buildArgs, baseEnv, i, {});
    }
  }
}
