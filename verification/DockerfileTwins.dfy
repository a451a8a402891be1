/**
 When two searches give the same answers, on every file and with every amount of fuel: the files
 have the same lists, the build args agree on every declared ARG, and the places that the search
 visits share identities in one file exactly if they do in the other.
 */
module DockerfileTwins {
  import opened Text
  import opened DockerfileSyntax
  import opened Dockerfile
  import opened DockerfileScope
  import opened DockerfileBindings
  import opened DockerfileSearch

  predicate AgreeOn(declared: seq<KeyValue>, a: Vars, b: Vars) {
    forall i :: 0 <= i < |declared| ==> Get(a, declared[i].key) == Get(b, declared[i].key)
  }

  /** Two build-arg maps agree on every ARG of a file. */
  predicate AgreeOnDeclared(d: Dockerfile, a: Vars, b: Vars) {
    AgreeOn(d.preamble.args, a, b) && forall j :: 0 <= j < |d.stages| ==> AgreeOn(d.stages[j].args, a, b)
  }

  predicate SameLists(s: Stage, s': Stage) {
    s.image == s'.image && s.args == s'.args && s.envs == s'.envs && s.users == s'.users
  }

  /** The image behind a FROM means the same stage of `on`, or no stage, in both files. */
  predicate SameTarget(d: Dockerfile, d': Dockerfile, on: set<Place>, image: string) {
    && (image in d.byTarget <==> image in d'.byTarget)
    && (image in d.byTarget ==> d.byTarget[image] == d'.byTarget[image] && AtStage(d.byTarget[image]) in on)
  }

  predicate SameShape(d: Dockerfile, d': Dockerfile) {
    && Indexed(d) && Indexed(d') && |d.stages| == |d'.stages|
    && SameLists(d.preamble, d'.preamble) && FromLine(d) == FromLine(d')
    && forall i :: 0 <= i < |d.stages| ==>
         SameLists(d.stages[i], d'.stages[i]) && EndLine(d, i) == EndLine(d', i)
  }

  predicate SameId(d: Dockerfile, x: Place, y: Place)
    requires InFile(d, x) && InFile(d, y)
  {
    StageId(StageAt(d, x)) == StageId(StageAt(d, y))
  }

  /** The places `on` are closed under FROM, and identities are shared alike among them. */
  ghost predicate Twins(d: Dockerfile, a: Vars, d': Dockerfile, b: Vars, baseEnv: Vars, on: set<Place>) {
    && SameShape(d, d') && AgreeOnDeclared(d, a, b)
    && AtPreamble in on && (forall x :: x in on ==> InFile(d, x))
    && (forall x, y :: x in on && y in on ==> (SameId(d, x, y) <==> SameId(d', x, y)))
    && (forall x, fuel: nat :: x in on && x.AtStage? ==>
          var image := Replace(d, a, baseEnv, Scan(d.stages[x.i].image), AtPreamble, FromLine(d), fuel);
          image.Some? ==> SameTarget(d, d', on, image.value))
  }

  predicate SameSeen(d: Dockerfile, seen: set<string>, d': Dockerfile, seen': set<string>, on: set<Place>)
    requires forall x :: x in on ==> InFile(d, x) && InFile(d', x)
  {
    forall x :: x in on ==> (StageId(StageAt(d, x)) in seen <==> StageId(StageAt(d', x)) in seen')
  }

  lemma {:induction false} LastArgAgrees(args: seq<KeyValue>, variable: string, line: nat, a: Vars, b: Vars)
    requires AgreeOn(args, a, b)
    ensures LastArgIndex(args, variable, line, a) == LastArgIndex(args, variable, line, b)
  {
    if args != [] {
      LastArgAgrees(args[..|args| - 1], variable, line, a, b);
    }
  }

  lemma BindingAgrees(s: Stage, s': Stage, variable: string, line: nat, considerArg: bool, a: Vars, b: Vars)
    requires SameLists(s, s') && AgreeOn(s.args, a, b)
    ensures BindingAt(s, variable, line, considerArg, a) == BindingAt(s', variable, line, considerArg, b)
  {
    LastArgAgrees(s.args, variable, line, a, b);
  }

  /** The loops of both searches are in the same state. */
  lemma OnwardSame(d: Dockerfile, a: Vars, d': Dockerfile, b: Vars, baseEnv: Vars, on: set<Place>, q: Lookup,
                   seen': set<string>, image: string)
    requires Twins(d, a, d', b, baseEnv, on) && q.place in on && SameSeen(d, q.seen, d', seen', on)
    requires SameTarget(d, d', on, image)
    ensures var next, next' := Onward(d, q, image), Onward(d', q.(seen := seen'), image);
            next'.(seen := next.seen) == next && next.place in on && SameSeen(d, next.seen, d', next'.seen, on)
  {
    hide Replace, Scan, StageId, Indexed, AgreeOnDeclared;
    assert forall x :: x in on ==> (SameId(d, x, q.place) <==> SameId(d', x, q.place));
  }

  lemma {:induction false} SearchAgrees(d: Dockerfile, a: Vars, d': Dockerfile, b: Vars, baseEnv: Vars,
                                        on: set<Place>, q: Lookup, seen': set<string>, fuel: nat)
    requires Twins(d, a, d', b, baseEnv, on) && q.place in on && SameSeen(d, q.seen, d', seen', on)
    ensures Search(d, a, baseEnv, q, fuel) == Search(d', b, baseEnv, q.(seen := seen'), fuel)
    decreases fuel, 0
  {
    hide Replace, Scan, StageId, Indexed, BindingAt, Finish, Onward, SameTarget;
    if fuel > 0 && !Stopped(d, q) {
      BindingAgrees(StageAt(d, q.place), StageAt(d', q.place), q.variable, q.line, q.considerArg, a, b);
      match Found(d, a, q)
      case Given(_) =>
      case SetTo(text, line, _) => ReplaceAgrees(d, a, d', b, baseEnv, on, Scan(text), q.place, line, fuel - 1);
      case Unset =>
        if q.place.AtStage? {
          var pieces := Scan(d.stages[q.place.i].image);
          ReplaceAgrees(d, a, d', b, baseEnv, on, pieces, AtPreamble, FromLine(d), fuel - 1);
          var r := Replace(d, a, baseEnv, pieces, AtPreamble, FromLine(d), fuel - 1);
          if r.Some? {
            OnwardSame(d, a, d', b, baseEnv, on, q, seen', r.value);
            SearchAgrees(d, a, d', b, baseEnv, on, Onward(d, q, r.value),
                         Onward(d', q.(seen := seen'), r.value).seen, fuel - 1);
          }
        }
    }
  }

  lemma {:induction false} ReplaceAgrees(d: Dockerfile, a: Vars, d': Dockerfile, b: Vars, baseEnv: Vars,
                                         on: set<Place>, pieces: seq<Piece>, place: Place, line: nat, fuel: nat)
    requires Twins(d, a, d', b, baseEnv, on) && place in on
    ensures Replace(d, a, baseEnv, pieces, place, line, fuel) == Replace(d', b, baseEnv, pieces, place, line, fuel)
    decreases fuel, 1 + |pieces|
  {
    hide Search, Indexed, Substitute, AgreeOnDeclared;
    if pieces != [] {
      var p := pieces[|pieces| - 1];
      ReplaceAgrees(d, a, d', b, baseEnv, on, pieces[..|pieces| - 1], place, line, fuel);
      if p.Ref? {
        SearchAgrees(d, a, d', b, baseEnv, on, Ask(p.name, place, line), {}, fuel);
      }
    }
  }

  lemma {:induction false} SearchUserAgrees(d: Dockerfile, a: Vars, d': Dockerfile, b: Vars, baseEnv: Vars,
                                            on: set<Place>, i: nat, seen: set<string>, seen': set<string>, fuel: nat)
    requires Twins(d, a, d', b, baseEnv, on) && AtStage(i) in on && SameSeen(d, seen, d', seen', on)
    ensures SearchUser(d, a, baseEnv, i, seen, fuel) == SearchUser(d', b, baseEnv, i, seen', fuel)
    decreases fuel
  {
    hide Replace, Scan, StageId, Indexed, AgreeOnDeclared;
    var s := d.stages[i];
    assert StageAt(d, AtStage(i)) == s && StageAt(d', AtStage(i)) == d'.stages[i];
    if fuel > 0 && StageId(s) !in seen {
      if s.users != [] {
        var u := s.users[|s.users| - 1];
        ReplaceAgrees(d, a, d', b, baseEnv, on, Scan(u.key), AtStage(i), u.line, fuel - 1);
      } else if s.image != "" {
        ReplaceAgrees(d, a, d', b, baseEnv, on, Scan(s.image), AtPreamble, FromLine(d), fuel - 1);
        var r := Replace(d, a, baseEnv, Scan(s.image), AtPreamble, FromLine(d), fuel - 1);
        if r.Some? && r.value in d.byTarget {
          assert SameTarget(d, d', on, r.value);
          var q := Lookup("", AtStage(i), 0, true, seen);
          OnwardSame(d, a, d', b, baseEnv, on, q, seen', r.value);
          SearchUserAgrees(d, a, d', b, baseEnv, on, d.byTarget[r.value], seen + {StageId(s)},
                           seen' + {StageId(d'.stages[i])}, fuel - 1);
        }
      }
    }
  }

  // ---- build args that no ARG declares ----

  function Everywhere(d: Dockerfile): (on: set<Place>)
    ensures forall x :: x in on <==> InFile(d, x)
  {
    assert forall x: Place :: x.AtStage? ==> x == AtStage(x.i);
    {AtPreamble} + set i: nat | i < |d.stages| :: AtStage(i)
  }

  lemma OwnTwin(d: Dockerfile, a: Vars, b: Vars, baseEnv: Vars)
    requires Indexed(d) && AgreeOnDeclared(d, a, b)
    ensures Twins(d, a, d, b, baseEnv, Everywhere(d))
  {
    hide Replace, Scan, StageId;
  }

  /**
   On every file, cyclic and ambiguous ones included, a build arg that no ARG declares has no effect
   on any lookup or user: same answer, or no answer, with the same fuel.
   */
  lemma UndeclaredArgsIgnored(d: Dockerfile, a: Vars, b: Vars, baseEnv: Vars, q: Lookup, i: nat, seen: set<string>,
                              fuel: nat)
    requires Indexed(d) && AgreeOnDeclared(d, a, b) && InFile(d, q.place) && i < |d.stages|
    ensures Search(d, a, baseEnv, q, fuel) == Search(d, b, baseEnv, q, fuel)
    ensures SearchUser(d, a, baseEnv, i, seen, fuel) == SearchUser(d, b, baseEnv, i, seen, fuel)
  {
    hide Search, SearchUser, Indexed, Twins, StageId;
    OwnTwin(d, a, b, baseEnv);
    SearchAgrees(d, a, d, b, baseEnv, Everywhere(d), q, q.seen, fuel);
    SearchUserAgrees(d, a, d, b, baseEnv, Everywhere(d), i, seen, seen, fuel);
  }

  /** So the code returns the same. */
  lemma UndeclaredAnswers(d: Dockerfile, a: Vars, b: Vars, baseEnv: Vars, q: Lookup, i: nat, r: string, r': string)
    requires AgreeOnDeclared(d, a, b)
    ensures Answers(d, a, baseEnv, q, r) && Answers(d, b, baseEnv, q, r') ==> r == r'
    ensures UserAnswers(d, a, baseEnv, i, {}, r) && UserAnswers(d, b, baseEnv, i, {}, r') ==> r == r'
  {
    hide Search, SearchUser, AgreeOnDeclared;
    if Answers(d, a, baseEnv, q, r) && Answers(d, b, baseEnv, q, r') {
      var f: nat :| Search(d, a, baseEnv, q, f) == Some(r);
      UndeclaredArgsIgnored(d, a, b, baseEnv, q, 0, {}, f);
      OneAnswer(d, b, baseEnv, q, r, r');
    }
    if UserAnswers(d, a, baseEnv, i, {}, r) && UserAnswers(d, b, baseEnv, i, {}, r') {
      var f: nat :| SearchUser(d, a, baseEnv, i, {}, f) == Some(r);
      UndeclaredArgsIgnored(d, a, b, baseEnv, Ask("", AtPreamble, 0), i, {}, f);
      OneUser(d, b, baseEnv, i, {}, r, r');
    }
  }
}
