/**
 When the backward search returns what the forward evaluator holds. The search gives up when it
 meets a stage identity a second time, and identities are not unique; so the answer is right for a
 lookup on whose way, and hereditarily on the way of every reference it expands, the guard does not
 stop the search while there is still something to find.
 */
module DockerfileExact {
  import opened Text
  import opened DockerfileSyntax
  import opened Dockerfile
  import opened DockerfileScope
  import opened DockerfileBindings
  import opened DockerfileSearch

  // ---- files in which FROMs refer back ----

  /** A FROM that resolves to a stage refers to an earlier one. */
  predicate EarlierParents(d: Dockerfile, buildArgs: Vars, baseEnv: Vars)
    requires Shaped(d)
  {
    forall i :: 0 <= i < |d.stages| && Parent(d, buildArgs, baseEnv, i).Some? ==>
      Parent(d, buildArgs, baseEnv, i).value < i
  }

  function Rank(p: Place): nat {
    if p.AtStage? then p.i + 1 else 0
  }

  predicate Searchable(d: Dockerfile, buildArgs: Vars, baseEnv: Vars, p: Place) {
    InOrder(d) && InFile(d, p) && (p.AtStage? ==> EarlierParents(d, buildArgs, baseEnv))
  }

  /** What the forward evaluator holds for a lookup. */
  function Forward(d: Dockerfile, buildArgs: Vars, baseEnv: Vars, q: Lookup): string
    requires Shaped(d) && InFile(d, q.place)
  {
    Wanted(ScopeAt(d, buildArgs, baseEnv, q.place, q.line), q.considerArg, q.variable)
  }

  /** Where a lookup goes on when its stage says nothing. */
  function Next(d: Dockerfile, buildArgs: Vars, baseEnv: Vars, q: Lookup): (q': Lookup)
    requires Searchable(d, buildArgs, baseEnv, q.place) && q.place.AtStage?
    ensures Searchable(d, buildArgs, baseEnv, q'.place) && Rank(q'.place) < Rank(q.place)
  {
    InOrderIndexed(d);
    assert Parent(d, buildArgs, baseEnv, q.place.i).Some? ==>
        Parent(d, buildArgs, baseEnv, q.place.i).value < q.place.i;
    Onward(d, q, BaseName(d, buildArgs, baseEnv, q.place.i))
  }

  lemma PreambleAtEnd(d: Dockerfile, buildArgs: Vars, baseEnv: Vars)
    requires InOrder(d)
    ensures ScopeAt(d, buildArgs, baseEnv, AtPreamble, FirstLine(d.stages[0])) == PreambleEnd(d, buildArgs, baseEnv)
  {
    InOrderParts(d);
    BeforeAll(d.preamble.instructions, FirstLine(d.stages[0]));
  }

  lemma StageAtEnd(d: Dockerfile, buildArgs: Vars, baseEnv: Vars, j: nat)
    requires InOrder(d) && j < |d.stages|
    ensures Ordered(d.stages[j].instructions)
    ensures ScopeAt(d, buildArgs, baseEnv, AtStage(j), LastLine(d.stages[j]) + 1) == End(d, buildArgs, baseEnv, j)
  {
    StageInOrder(d, j);
    BeforeAll(d.stages[j].instructions, LastLine(d.stages[j]) + 1);
  }

  lemma StartsFrom(d: Dockerfile, buildArgs: Vars, baseEnv: Vars, i: nat)
    requires Shaped(d) && EarlierParents(d, buildArgs, baseEnv) && i < |d.stages|
    ensures Start(d, buildArgs, baseEnv, i).env
            == match Parent(d, buildArgs, baseEnv, i)
               case Some(j) => End(d, buildArgs, baseEnv, j).env
               case None => Visible(PreambleEnd(d, buildArgs, baseEnv))
  {
  }

  lemma NextIs(d: Dockerfile, buildArgs: Vars, baseEnv: Vars, q: Lookup)
    requires Searchable(d, buildArgs, baseEnv, q.place) && q.place.AtStage?
    ensures var next := Next(d, buildArgs, baseEnv, q);
            && next.variable == q.variable && next.seen == q.seen + {StageId(d.stages[q.place.i])}
            && match Parent(d, buildArgs, baseEnv, q.place.i)
               case Some(j) =>
                 && Ordered(d.stages[j].instructions) && next.place == AtStage(j)
                 && next.line == LastLine(d.stages[j]) + 1 && !next.considerArg
               case None => next.place == AtPreamble && next.line == FirstLine(d.stages[0]) && next.considerArg
  {
    hide Ordered, StageOf, FlatStages, BaseName, StageId, NoFrom, TargetIndex, PreambleOf;
    match Parent(d, buildArgs, baseEnv, q.place.i)
    case Some(j) => StageInOrder(d, j);
    case None =>
  }

  /** Going on to the stage a stage is built from, or to the preamble, asks for what the stage started with. */
  lemma NextForward(d: Dockerfile, buildArgs: Vars, baseEnv: Vars, q: Lookup)
    requires Searchable(d, buildArgs, baseEnv, q.place) && q.place.AtStage?
    ensures Forward(d, buildArgs, baseEnv, Next(d, buildArgs, baseEnv, q))
            == Get(Start(d, buildArgs, baseEnv, q.place.i).env, q.variable)
  {
    hide Run, Ordered, StageOf, FlatStages, ScopeAt, Start, End, StageId, Parent, Next, PreambleEnd, IsStage, NoFrom,
         TargetIndex, PreambleOf, EarlierParents;
    var i := q.place.i;
    StartsFrom(d, buildArgs, baseEnv, i);
    NextIs(d, buildArgs, baseEnv, q);
    match Parent(d, buildArgs, baseEnv, i)
    case Some(j) => StageAtEnd(d, buildArgs, baseEnv, j);
    case None => PreambleAtEnd(d, buildArgs, baseEnv);
  }

  /** One round of the search against the forward evaluator. */
  lemma FoundForward(d: Dockerfile, buildArgs: Vars, baseEnv: Vars, q: Lookup)
    requires Searchable(d, buildArgs, baseEnv, q.place)
    ensures Forward(d, buildArgs, baseEnv, q)
            == match Found(d, buildArgs, q)
               case Given(value) => value
               case SetTo(text, line, quoted) =>
                 Finish(quoted, Expand(text, Visible(ScopeAt(d, buildArgs, baseEnv, q.place, line))))
               case Unset =>
                 if q.place.AtPreamble? then Get(baseEnv, q.variable)
                 else Forward(d, buildArgs, baseEnv, Next(d, buildArgs, baseEnv, q))
  {
    hide Run, Expand, Ordered, StageOf, FlatStages, ScopeAt, Start, End, BaseName, BindingAt, Next;
    BindingInForce(d, buildArgs, baseEnv, q.place, q.line, q.variable, q.considerArg);
    if q.place.AtStage? {
      NextForward(d, buildArgs, baseEnv, q);
    }
  }

  // ---- the condition ----

  /**
   The guard stops neither this lookup nor, hereditarily, one for a reference in the text it finds,
   unless there is nothing to find.
   */
  predicate Kept(d: Dockerfile, buildArgs: Vars, baseEnv: Vars, q: Lookup)
    requires Searchable(d, buildArgs, baseEnv, q.place)
    decreases Rank(q.place), q.line, 0
  {
    if Stopped(d, q) then Forward(d, buildArgs, baseEnv, q) == ""
    else match Found(d, buildArgs, q)
      case Given(_) => true
      case SetTo(text, line, _) => KeptText(d, buildArgs, baseEnv, Scan(text), q.place, line)
      case Unset => q.place.AtStage? ==> Kept(d, buildArgs, baseEnv, Next(d, buildArgs, baseEnv, q))
  }

  predicate KeptText(d: Dockerfile, buildArgs: Vars, baseEnv: Vars, pieces: seq<Piece>, place: Place, line: nat)
    requires Searchable(d, buildArgs, baseEnv, place)
    decreases Rank(place), line, 1
  {
    forall k :: 0 <= k < |pieces| && pieces[k].Ref? ==>
      Kept(d, buildArgs, baseEnv, Ask(pieces[k].name, place, line))
  }

  /** In the preamble there is nowhere to go on to, so nothing is ever lost there. */
  lemma {:induction false} PreambleKept(d: Dockerfile, buildArgs: Vars, baseEnv: Vars, q: Lookup)
    requires InOrder(d) && q.place.AtPreamble? && !Stopped(d, q)
    ensures Kept(d, buildArgs, baseEnv, q)
    decreases q.line, 0
  {
    var b := Found(d, buildArgs, q);
    if b.SetTo? {
      PreambleTextKept(d, buildArgs, baseEnv, Scan(b.text), b.line);
    }
  }

  lemma {:induction false} PreambleTextKept(d: Dockerfile, buildArgs: Vars, baseEnv: Vars, pieces: seq<Piece>,
                                            line: nat)
    requires InOrder(d)
    ensures KeptText(d, buildArgs, baseEnv, pieces, AtPreamble, line)
    decreases line, 1
  {
    forall k | 0 <= k < |pieces| && pieces[k].Ref?
      ensures Kept(d, buildArgs, baseEnv, Ask(pieces[k].name, AtPreamble, line))
    {
      PreambleKept(d, buildArgs, baseEnv, Ask(pieces[k].name, AtPreamble, line));
    }
  }

  // ---- it suffices ----

  lemma {:induction false} SearchExact(d: Dockerfile, buildArgs: Vars, baseEnv: Vars, q: Lookup, fuel: nat)
    requires Searchable(d, buildArgs, baseEnv, q.place) && Indexed(d)
    requires Kept(d, buildArgs, baseEnv, q) && Search(d, buildArgs, baseEnv, q, fuel).Some?
    ensures Search(d, buildArgs, baseEnv, q, fuel).value == Forward(d, buildArgs, baseEnv, q)
    decreases fuel, 0
  {
    hide Scan, StageId, BindingAt, Finish, Forward, ExpandPieces, ScopeAt, KeptText, Replace, Indexed, InOrder;
    if !Stopped(d, q) {
      FoundForward(d, buildArgs, baseEnv, q);
      match Found(d, buildArgs, q)
      case Given(_) =>
      case SetTo(text, line, _) =>
        ReplaceExact(d, buildArgs, baseEnv, Scan(text), q.place, line, fuel - 1);
      case Unset =>
        if q.place.AtStage? {
          ImageExact(d, buildArgs, baseEnv, q.place.i, fuel - 1);
          SearchExact(d, buildArgs, baseEnv, Next(d, buildArgs, baseEnv, q), fuel - 1);
        }
    }
  }

  lemma {:induction false} ReplaceExact(d: Dockerfile, buildArgs: Vars, baseEnv: Vars, pieces: seq<Piece>,
                                        place: Place, line: nat, fuel: nat)
    requires Searchable(d, buildArgs, baseEnv, place) && Indexed(d)
    requires KeptText(d, buildArgs, baseEnv, pieces, place, line)
    requires Replace(d, buildArgs, baseEnv, pieces, place, line, fuel).Some?
    ensures Replace(d, buildArgs, baseEnv, pieces, place, line, fuel).value
            == ExpandPieces(pieces, Visible(ScopeAt(d, buildArgs, baseEnv, place, line)))
    decreases fuel, 1 + |pieces|
  {
    hide Scan, StageId, BindingAt, ScopeAt, Search, Kept, Indexed, InOrder, EarlierParents;
    if pieces != [] {
      var init, p := pieces[..|pieces| - 1], pieces[|pieces| - 1];
      assert forall k :: 0 <= k < |init| ==> init[k] == pieces[k];
      ReplaceExact(d, buildArgs, baseEnv, init, place, line, fuel);
      if p.Ref? {
        SearchExact(d, buildArgs, baseEnv, Ask(p.name, place, line), fuel);
      }
    }
  }

  /** The image behind a FROM is always what the forward evaluator makes of it. */
  lemma {:induction false} ImageExact(d: Dockerfile, buildArgs: Vars, baseEnv: Vars, i: nat, fuel: nat)
    requires InOrder(d) && Indexed(d) && i < |d.stages|
    requires Replace(d, buildArgs, baseEnv, Scan(d.stages[i].image), AtPreamble, FromLine(d), fuel).Some?
    ensures Replace(d, buildArgs, baseEnv, Scan(d.stages[i].image), AtPreamble, FromLine(d), fuel).value
            == BaseName(d, buildArgs, baseEnv, i)
    decreases fuel, 2 + |Scan(d.stages[i].image)|
  {
    hide Scan, ExpandPieces, ScopeAt, Replace, KeptText, Ordered, FlatStages;
    PreambleTextKept(d, buildArgs, baseEnv, Scan(d.stages[i].image), FromLine(d));
    ReplaceExact(d, buildArgs, baseEnv, Scan(d.stages[i].image), AtPreamble, FromLine(d), fuel);
    PreambleAtEnd(d, buildArgs, baseEnv);
  }

  /** What the code returns is the forward value whenever nothing is lost on the way. */
  lemma AnswerExact(d: Dockerfile, buildArgs: Vars, baseEnv: Vars, q: Lookup, r: string)
    requires Searchable(d, buildArgs, baseEnv, q.place)
    requires Answers(d, buildArgs, baseEnv, q, r) && Kept(d, buildArgs, baseEnv, q)
    ensures r == Forward(d, buildArgs, baseEnv, q)
  {
    hide Search, Kept, Forward, InOrder, Indexed;
    var f: nat :| Search(d, buildArgs, baseEnv, q, f) == Some(r);
    SearchExact(d, buildArgs, baseEnv, q, f);
  }

  // ---- and it is needed ----

  /** A reference that loses something on the way stands alone, not behind `:-` or `:+` and not in an ARG's text. */
  predicate Simple(d: Dockerfile, buildArgs: Vars, baseEnv: Vars, q: Lookup)
    requires Searchable(d, buildArgs, baseEnv, q.place)
    decreases Rank(q.place), q.line, 0
  {
    Stopped(d, q) || q.place.AtPreamble?
    || match Found(d, buildArgs, q)
       case Given(_) => true
       case SetTo(text, line, quoted) => SimpleText(d, buildArgs, baseEnv, Scan(text), quoted, q.place, line)
       case Unset => Simple(d, buildArgs, baseEnv, Next(d, buildArgs, baseEnv, q))
  }

  predicate SimpleText(d: Dockerfile, buildArgs: Vars, baseEnv: Vars, pieces: seq<Piece>, quoted: bool, place: Place,
                       line: nat)
    requires Searchable(d, buildArgs, baseEnv, place)
    decreases Rank(place), line, 1
  {
    forall k :: 0 <= k < |pieces| && pieces[k].Ref? ==>
      var q := Ask(pieces[k].name, place, line);
      || Kept(d, buildArgs, baseEnv, q)
      || (!quoted && pieces[k].alt.None? && Simple(d, buildArgs, baseEnv, q))
  }

  lemma {:induction false} SearchLoses(d: Dockerfile, buildArgs: Vars, baseEnv: Vars, q: Lookup, fuel: nat)
    requires Searchable(d, buildArgs, baseEnv, q.place) && Indexed(d)
    requires Simple(d, buildArgs, baseEnv, q) && !Kept(d, buildArgs, baseEnv, q)
    requires Search(d, buildArgs, baseEnv, q, fuel).Some?
    ensures |Search(d, buildArgs, baseEnv, q, fuel).value| < |Forward(d, buildArgs, baseEnv, q)|
    decreases fuel, 0
  {
    hide Scan, StageId, BindingAt, Forward, ExpandPieces, ScopeAt, Replace, Indexed, InOrder;
    if !Stopped(d, q) {
      FoundForward(d, buildArgs, baseEnv, q);
      if q.place.AtPreamble? {
        PreambleKept(d, buildArgs, baseEnv, q);
      }
      match Found(d, buildArgs, q)
      case Given(_) =>
      case SetTo(text, line, _) =>
        ReplaceLoses(d, buildArgs, baseEnv, Scan(text), q.place, line, fuel - 1);
      case Unset =>
        ImageExact(d, buildArgs, baseEnv, q.place.i, fuel - 1);
        SearchLoses(d, buildArgs, baseEnv, Next(d, buildArgs, baseEnv, q), fuel - 1);
    }
  }

  lemma {:induction false} ReplaceLoses(d: Dockerfile, buildArgs: Vars, baseEnv: Vars, pieces: seq<Piece>,
                                        place: Place, line: nat, fuel: nat)
    requires Searchable(d, buildArgs, baseEnv, place) && Indexed(d)
    requires SimpleText(d, buildArgs, baseEnv, pieces, false, place, line)
    requires Replace(d, buildArgs, baseEnv, pieces, place, line, fuel).Some?
    ensures var r := Replace(d, buildArgs, baseEnv, pieces, place, line, fuel).value;
            var f := ExpandPieces(pieces, Visible(ScopeAt(d, buildArgs, baseEnv, place, line)));
            |r| <= |f| && (!KeptText(d, buildArgs, baseEnv, pieces, place, line) ==> |r| < |f|)
    decreases fuel, 2 + |pieces|
  {
    hide ScopeAt, Visible, Search, Kept, Simple, Indexed, InOrder, EarlierParents, ExpressionValue;
    if pieces != [] {
      var init, p := pieces[..|pieces| - 1], pieces[|pieces| - 1];
      assert forall k :: 0 <= k < |init| ==> init[k] == pieces[k];
      ReplaceLoses(d, buildArgs, baseEnv, init, place, line, fuel);
      if p.Ref? {
        ReferenceLoses(d, buildArgs, baseEnv, p.name, place, line, fuel);
      }
    }
  }

  /** A kept reference has its forward value; a simple one that is not kept has a shorter one. */
  lemma {:induction false} ReferenceLoses(d: Dockerfile, buildArgs: Vars, baseEnv: Vars, name: string,
                                          place: Place, line: nat, fuel: nat)
    requires Searchable(d, buildArgs, baseEnv, place) && Indexed(d)
    requires Search(d, buildArgs, baseEnv, Ask(name, place, line), fuel).Some?
    ensures var q := Ask(name, place, line);
            var r := Search(d, buildArgs, baseEnv, q, fuel).value;
            var f := Get(Visible(ScopeAt(d, buildArgs, baseEnv, place, line)), name);
            if Kept(d, buildArgs, baseEnv, q) then r == f
            else Simple(d, buildArgs, baseEnv, q) ==> |r| < |f|
    decreases fuel, 1
  {
    hide ScopeAt, Search, Kept, Simple, Indexed, InOrder, EarlierParents;
    var q := Ask(name, place, line);
    if Kept(d, buildArgs, baseEnv, q) {
      SearchExact(d, buildArgs, baseEnv, q, fuel);
    } else if Simple(d, buildArgs, baseEnv, q) {
      SearchLoses(d, buildArgs, baseEnv, q, fuel);
    }
  }

  /** Where lost references stand alone, the code returns the forward value exactly when nothing is lost on the way. */
  lemma SimpleIff(d: Dockerfile, buildArgs: Vars, baseEnv: Vars, q: Lookup, r: string)
    requires Searchable(d, buildArgs, baseEnv, q.place)
    requires Simple(d, buildArgs, baseEnv, q) && Answers(d, buildArgs, baseEnv, q, r)
    ensures r == Forward(d, buildArgs, baseEnv, q) <==> Kept(d, buildArgs, baseEnv, q)
  {
    hide Search, Kept, Simple, Forward, InOrder, Indexed;
    var f: nat :| Search(d, buildArgs, baseEnv, q, f) == Some(r);
    if Kept(d, buildArgs, baseEnv, q) {
      SearchExact(d, buildArgs, baseEnv, q, f);
    } else {
      SearchLoses(d, buildArgs, baseEnv, q, f);
    }
  }

  // ---- bindings without references ----

  /** No identity comes twice between the place of a lookup and the place that binds its variable. */
  predicate Fresh(d: Dockerfile, buildArgs: Vars, baseEnv: Vars, q: Lookup)
    requires Searchable(d, buildArgs, baseEnv, q.place)
    decreases Rank(q.place)
  {
    && !Stopped(d, q)
    && (Found(d, buildArgs, q).Unset? && q.place.AtStage? ==>
          Fresh(d, buildArgs, baseEnv, Next(d, buildArgs, baseEnv, q)))
  }

  /** What the first place on the FROM chain that binds the variable says about it. */
  function FirstBinding(d: Dockerfile, buildArgs: Vars, baseEnv: Vars, q: Lookup): Binding
    requires Searchable(d, buildArgs, baseEnv, q.place)
    decreases Rank(q.place)
  {
    var b := Found(d, buildArgs, q);
    if b.Unset? && q.place.AtStage? then FirstBinding(d, buildArgs, baseEnv, Next(d, buildArgs, baseEnv, q)) else b
  }

  predicate NoReference(b: Binding) {
    b.SetTo? ==> forall k :: 0 <= k < |Scan(b.text)| ==> Scan(b.text)[k].Plain?
  }

  lemma {:induction false} FreshKept(d: Dockerfile, buildArgs: Vars, baseEnv: Vars, q: Lookup)
    requires Searchable(d, buildArgs, baseEnv, q.place) && NoReference(FirstBinding(d, buildArgs, baseEnv, q))
    ensures Simple(d, buildArgs, baseEnv, q)
    ensures Kept(d, buildArgs, baseEnv, q)
            <==> Fresh(d, buildArgs, baseEnv, q) || Forward(d, buildArgs, baseEnv, q) == ""
    decreases Rank(q.place)
  {
    hide Scan, StageId, BindingAt, Forward, InOrder, Next, EarlierParents;
    if Found(d, buildArgs, q).Unset? && q.place.AtStage? {
      FoundForward(d, buildArgs, baseEnv, q);
      FreshKept(d, buildArgs, baseEnv, Next(d, buildArgs, baseEnv, q));
    }
  }

  /** For a binding without references: right exactly if no identity repeats before it, or there is no value. */
  lemma NoReferenceIff(d: Dockerfile, buildArgs: Vars, baseEnv: Vars, q: Lookup, r: string)
    requires Searchable(d, buildArgs, baseEnv, q.place)
    requires NoReference(FirstBinding(d, buildArgs, baseEnv, q)) && Answers(d, buildArgs, baseEnv, q, r)
    ensures r == Forward(d, buildArgs, baseEnv, q)
            <==> Fresh(d, buildArgs, baseEnv, q) || Forward(d, buildArgs, baseEnv, q) == ""
  {
    hide Search, Kept, Simple, Forward, Fresh, InOrder, Indexed;
    FreshKept(d, buildArgs, baseEnv, q);
    SimpleIff(d, buildArgs, baseEnv, q, r);
  }

  // ---- the user ----

  lemma UserHere(d: Dockerfile, buildArgs: Vars, baseEnv: Vars, i: nat)
    requires InOrder(d) && i < |d.stages|
    ensures d.stages[i].users != [] ==>
              var u := d.stages[i].users[|d.stages[i].users| - 1];
              End(d, buildArgs, baseEnv, i).user
              == Expand(u.key, Visible(ScopeAt(d, buildArgs, baseEnv, AtStage(i), u.line)))
    ensures d.stages[i].users == [] ==>
              End(d, buildArgs, baseEnv, i).user == Start(d, buildArgs, baseEnv, i).user
  {
    hide Run, Expand, ArgsOf, EnvsOf, UsersOf, NoFrom, TargetIndex, FlatStages, Before, Start, PreambleOf;
    InOrderParts(d);
    LastUser(d.stages[i].instructions, Start(d, buildArgs, baseEnv, i), buildArgs);
  }

  lemma EmptyImage(d: Dockerfile, buildArgs: Vars, baseEnv: Vars, i: nat)
    requires Shaped(d) && i < |d.stages| && d.stages[i].image == ""
    ensures BaseName(d, buildArgs, baseEnv, i) == "" && Parent(d, buildArgs, baseEnv, i) == None
  {
    assert Scan("") == [];
  }

  /** The user in force at the end of a stage, one step of the FROM chain at a time. */
  lemma UserForward(d: Dockerfile, buildArgs: Vars, baseEnv: Vars, i: nat)
    requires Searchable(d, buildArgs, baseEnv, AtStage(i))
    ensures var s := d.stages[i];
            End(d, buildArgs, baseEnv, i).user
            == if s.users != [] then
                 var u := s.users[|s.users| - 1];
                 Expand(u.key, Visible(ScopeAt(d, buildArgs, baseEnv, AtStage(i), u.line)))
               else match Parent(d, buildArgs, baseEnv, i)
                 case Some(j) => End(d, buildArgs, baseEnv, j).user
                 case None => ""
    ensures d.stages[i].image == "" ==> Parent(d, buildArgs, baseEnv, i) == None
  {
    hide Run, Expand, Ordered, StageOf, FlatStages, ScopeAt, End, BaseName;
    UserHere(d, buildArgs, baseEnv, i);
    if d.stages[i].image == "" {
      EmptyImage(d, buildArgs, baseEnv, i);
    }
  }

  /** The guard does not stop the search for a user, nor one for a reference in it, before its end. */
  predicate KeptUser(d: Dockerfile, buildArgs: Vars, baseEnv: Vars, i: nat, seen: set<string>)
    requires Searchable(d, buildArgs, baseEnv, AtStage(i))
    decreases i
  {
    var s := d.stages[i];
    if StageId(s) in seen then End(d, buildArgs, baseEnv, i).user == ""
    else if s.users != [] then
      var u := s.users[|s.users| - 1];
      KeptText(d, buildArgs, baseEnv, Scan(u.key), AtStage(i), u.line)
    else match Parent(d, buildArgs, baseEnv, i)
      case Some(j) => KeptUser(d, buildArgs, baseEnv, j, seen + {StageId(s)})
      case None => true
  }

  predicate SimpleUser(d: Dockerfile, buildArgs: Vars, baseEnv: Vars, i: nat, seen: set<string>)
    requires Searchable(d, buildArgs, baseEnv, AtStage(i))
    decreases i
  {
    var s := d.stages[i];
    if StageId(s) in seen then true
    else if s.users != [] then
      var u := s.users[|s.users| - 1];
      SimpleText(d, buildArgs, baseEnv, Scan(u.key), false, AtStage(i), u.line)
    else match Parent(d, buildArgs, baseEnv, i)
      case Some(j) => SimpleUser(d, buildArgs, baseEnv, j, seen + {StageId(s)})
      case None => true
  }

  /** Following FROM in the search for a user. */
  lemma UserNext(d: Dockerfile, buildArgs: Vars, baseEnv: Vars, i: nat, seen: set<string>, fuel: nat)
    requires Searchable(d, buildArgs, baseEnv, AtStage(i)) && Indexed(d)
    requires StageId(d.stages[i]) !in seen && d.stages[i].users == []
    requires SearchUser(d, buildArgs, baseEnv, i, seen, fuel).Some?
    ensures fuel > 0
    ensures SearchUser(d, buildArgs, baseEnv, i, seen, fuel)
            == match Parent(d, buildArgs, baseEnv, i)
               case Some(j) => SearchUser(d, buildArgs, baseEnv, j, seen + {StageId(d.stages[i])}, fuel - 1)
               case None => Some("")
  {
    hide Scan, StageId, Replace, BaseName, Indexed, IsStage, Ordered, FlatStages, NoFrom, PreambleOf, TargetIndex;
    if d.stages[i].image == "" {
      EmptyImage(d, buildArgs, baseEnv, i);
    } else {
      ImageExact(d, buildArgs, baseEnv, i, fuel - 1);
    }
  }

  lemma {:induction false} UserExact(d: Dockerfile, buildArgs: Vars, baseEnv: Vars, i: nat, seen: set<string>,
                                     fuel: nat)
    requires Searchable(d, buildArgs, baseEnv, AtStage(i)) && Indexed(d)
    requires SearchUser(d, buildArgs, baseEnv, i, seen, fuel).Some?
    ensures var r, f := SearchUser(d, buildArgs, baseEnv, i, seen, fuel).value, End(d, buildArgs, baseEnv, i).user;
            && (KeptUser(d, buildArgs, baseEnv, i, seen) ==> r == f)
            && (SimpleUser(d, buildArgs, baseEnv, i, seen) && !KeptUser(d, buildArgs, baseEnv, i, seen) ==> |r| < |f|)
    decreases fuel
  {
    hide Scan, StageId, Replace, BaseName, Indexed, IsStage, Ordered, FlatStages, NoFrom, PreambleOf, TargetIndex,
         Parent, End, ScopeAt, ExpandPieces, KeptText, SimpleText;
    var s := d.stages[i];
    UserForward(d, buildArgs, baseEnv, i);
    if StageId(s) !in seen {
      if s.users != [] {
        var u := s.users[|s.users| - 1];
        if KeptText(d, buildArgs, baseEnv, Scan(u.key), AtStage(i), u.line) {
          ReplaceExact(d, buildArgs, baseEnv, Scan(u.key), AtStage(i), u.line, fuel - 1);
        } else if SimpleText(d, buildArgs, baseEnv, Scan(u.key), false, AtStage(i), u.line) {
          ReplaceLoses(d, buildArgs, baseEnv, Scan(u.key), AtStage(i), u.line, fuel - 1);
        }
      } else {
        UserNext(d, buildArgs, baseEnv, i, seen, fuel);
        if Parent(d, buildArgs, baseEnv, i).Some? {
          UserExact(d, buildArgs, baseEnv, Parent(d, buildArgs, baseEnv, i).value, seen + {StageId(s)}, fuel - 1);
        }
      }
    }
  }

  lemma UserIff(d: Dockerfile, buildArgs: Vars, baseEnv: Vars, i: nat, r: string)
    requires Searchable(d, buildArgs, baseEnv, AtStage(i))
    requires UserAnswers(d, buildArgs, baseEnv, i, {}, r)
    ensures KeptUser(d, buildArgs, baseEnv, i, {}) ==> r == End(d, buildArgs, baseEnv, i).user
    ensures SimpleUser(d, buildArgs, baseEnv, i, {}) ==>
              (r == End(d, buildArgs, baseEnv, i).user <==> KeptUser(d, buildArgs, baseEnv, i, {}))
  {
    hide SearchUser, KeptUser, SimpleUser, End, Indexed, InOrder;
    var f: nat :| SearchUser(d, buildArgs, baseEnv, i, {}, f) == Some(r);
    UserExact(d, buildArgs, baseEnv, i, {}, f);
  }

  // ---- a condition on the file ----

  function ParentPlace(d: Dockerfile, buildArgs: Vars, baseEnv: Vars, i: nat): (p: Place)
    requires Shaped(d) && i < |d.stages|
    ensures InFile(d, p)
  {
    match Parent(d, buildArgs, baseEnv, i)
    case Some(j) => AtStage(j)
    case None => AtPreamble
  }

  /** The identities met on the way from a place to the preamble. */
  function Ids(d: Dockerfile, buildArgs: Vars, baseEnv: Vars, p: Place): set<string>
    requires Shaped(d) && EarlierParents(d, buildArgs, baseEnv) && InFile(d, p)
    decreases Rank(p)
  {
    if p.AtPreamble? then {StageId(d.preamble)}
    else {StageId(d.stages[p.i])} + Ids(d, buildArgs, baseEnv, ParentPlace(d, buildArgs, baseEnv, p.i))
  }

  /** No stage shares its identity with a stage it is built from or with the preamble. */
  predicate Unambiguous(d: Dockerfile, buildArgs: Vars, baseEnv: Vars)
    requires Shaped(d)
  {
    && EarlierParents(d, buildArgs, baseEnv)
    && forall i :: 0 <= i < |d.stages| ==>
         StageId(d.stages[i]) !in Ids(d, buildArgs, baseEnv, ParentPlace(d, buildArgs, baseEnv, i))
  }

  /** In such a file the guard never stops a lookup. */
  lemma {:induction false} UnambiguousKept(d: Dockerfile, buildArgs: Vars, baseEnv: Vars, q: Lookup)
    requires InOrder(d) && Unambiguous(d, buildArgs, baseEnv) && InFile(d, q.place)
    requires q.seen !! Ids(d, buildArgs, baseEnv, q.place)
    ensures Kept(d, buildArgs, baseEnv, q)
    decreases Rank(q.place), q.line, 0
  {
    hide Scan, StageId, BindingAt, Forward, InOrder, Next, Parent;
    match Found(d, buildArgs, q)
    case Given(_) =>
    case SetTo(text, line, _) => UnambiguousTextKept(d, buildArgs, baseEnv, Scan(text), q.place, line);
    case Unset =>
      if q.place.AtStage? {
        NextIs(d, buildArgs, baseEnv, q);
        UnambiguousKept(d, buildArgs, baseEnv, Next(d, buildArgs, baseEnv, q));
      }
  }

  lemma {:induction false} UnambiguousTextKept(d: Dockerfile, buildArgs: Vars, baseEnv: Vars, pieces: seq<Piece>,
                                               place: Place, line: nat)
    requires InOrder(d) && Unambiguous(d, buildArgs, baseEnv) && InFile(d, place)
    ensures KeptText(d, buildArgs, baseEnv, pieces, place, line)
    decreases Rank(place), line, 1
  {
    hide StageId, InOrder, Parent, Ids, Kept;
    forall k | 0 <= k < |pieces| && pieces[k].Ref?
      ensures Kept(d, buildArgs, baseEnv, Ask(pieces[k].name, place, line))
    {
      UnambiguousKept(d, buildArgs, baseEnv, Ask(pieces[k].name, place, line));
    }
  }

  lemma {:induction false} UnambiguousUserKept(d: Dockerfile, buildArgs: Vars, baseEnv: Vars, i: nat, seen: set<string>)
    requires InOrder(d) && Unambiguous(d, buildArgs, baseEnv) && i < |d.stages|
    requires seen !! Ids(d, buildArgs, baseEnv, AtStage(i))
    ensures KeptUser(d, buildArgs, baseEnv, i, seen)
    decreases i
  {
    hide Scan, StageId, IsStage, Ordered, FlatStages, NoFrom, PreambleOf, TargetIndex, Parent, End;
    var s := d.stages[i];
    if s.users != [] {
      var u := s.users[|s.users| - 1];
      UnambiguousTextKept(d, buildArgs, baseEnv, Scan(u.key), AtStage(i), u.line);
    } else if Parent(d, buildArgs, baseEnv, i).Some? {
      UnambiguousUserKept(d, buildArgs, baseEnv, Parent(d, buildArgs, baseEnv, i).value, seen + {StageId(s)});
    }
  }
}
