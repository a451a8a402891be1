/**
 Which ARG or ENV of a stage is in force at a line: the backward loops of findValue pick the last
 binding of a list, and that is the one the forward evaluator holds there.
 */
module DockerfileBindings {
  import opened Text
  import opened DockerfileSyntax
  import opened Dockerfile
  import opened DockerfileScope

  // ---- the last binding in a list is the one in force ----

  predicate Binds(a: KeyValue, variable: string, line: nat, buildArgs: Vars) {
    a.key == variable && a.line < line && Effective(a, buildArgs)
  }

  predicate Sets(e: KeyValue, variable: string, line: nat) {
    e.key == variable && e.line < line && e.value != ""
  }

  lemma {:induction false} CollectedLines(ns: seq<Node>, line: nat)
    requires AllBelow(ns, line)
    ensures forall i :: 0 <= i < |ArgsOf(ns)| ==> ArgsOf(ns)[i].line < line
    ensures forall i :: 0 <= i < |EnvsOf(ns)| ==> EnvsOf(ns)[i].line < line
    ensures forall i :: 0 <= i < |UsersOf(ns)| ==> UsersOf(ns)[i].line < line
  {
    if ns != [] {
      var n := ns[|ns| - 1];
      CollectedLines(ns[..|ns| - 1], line);
      if IsEnv(n) {
        EnvLines(n.next, n.startLine);
      }
    }
  }

  lemma {:induction false} EnvLines(chain: Node, line: nat)
    ensures forall i :: 0 <= i < |EnvPairs(chain, line)| ==> EnvPairs(chain, line)[i].line == line
    decreases chain
  {
    if chain.Node? && chain.next.Node? {
      EnvLines(chain.next.next, line);
    }
  }

  /** In an ordered list, cutting at the last line or below drops the last instruction. */
  lemma BeforeInit(ns: seq<Node>, line: nat)
    requires Ordered(ns) && ns != []
    requires line <= ns[|ns| - 1].startLine
    ensures Before(ns, line) == Before(ns[..|ns| - 1], line)
    ensures line == ns[|ns| - 1].startLine ==> Before(ns, line) == ns[..|ns| - 1]
  {
    if line == ns[|ns| - 1].startLine {
      BeforeAll(ns[..|ns| - 1], line);
    }
  }

  /** Running up to a line, one instruction at a time. */
  lemma RunBefore(ns: seq<Node>, s: Scope, buildArgs: Vars, line: nat)
    requires Ordered(ns) && ns != []
    ensures var init, n := ns[..|ns| - 1], ns[|ns| - 1];
            Run(Before(ns, line), s, buildArgs)
            == if n.startLine < line then Exec(n, Run(Before(init, line), s, buildArgs), buildArgs)
               else Run(Before(init, line), s, buildArgs)
  {
    var init, n := ns[..|ns| - 1], ns[|ns| - 1];
    if n.startLine < line {
      BeforeAll(init, line);
    }
  }

  lemma ExecArg(n: Node, s: Scope, buildArgs: Vars, variable: string)
    ensures var args := Exec(n, s, buildArgs).args;
            if IsArg(n) && ParseArg(n).key == variable && Effective(ParseArg(n), buildArgs)
            then variable in args && args[variable] == ArgValue(ParseArg(n), Visible(s), buildArgs)
            else (variable in args <==> variable in s.args)
                 && (variable in args ==> args[variable] == s.args[variable])
  {
  }

  /** How the last instruction extends the list of ARGs. */
  lemma LastArgs(ns: seq<Node>)
    requires Ordered(ns) && ns != []
    ensures var init, n := ns[..|ns| - 1], ns[|ns| - 1];
            var m := |ArgsOf(init)|;
            && m <= |ArgsOf(ns)|
            && (forall j :: 0 <= j < m ==> ArgsOf(init)[j] == ArgsOf(ns)[j] && ArgsOf(ns)[j].line < n.startLine)
            && (IsArg(n) ==> |ArgsOf(ns)| == m + 1 && ArgsOf(ns)[m] == ParseArg(n))
  {
    CollectedLines(ns[..|ns| - 1], ns[|ns| - 1].startLine);
  }

  lemma {:induction false} ArgFound(ns: seq<Node>, s: Scope, buildArgs: Vars, variable: string, line: nat, i: nat)
    requires Ordered(ns) && i < |ArgsOf(ns)|
    requires Binds(ArgsOf(ns)[i], variable, line, buildArgs)
    requires forall j :: i < j < |ArgsOf(ns)| ==> !Binds(ArgsOf(ns)[j], variable, line, buildArgs)
    ensures var args := Run(Before(ns, line), s, buildArgs).args;
            var a := ArgsOf(ns)[i];
            variable in args && args[variable]
              == ArgValue(a, Visible(Run(Before(ns, a.line), s, buildArgs)), buildArgs)
  {
    var init, n, m := ns[..|ns| - 1], ns[|ns| - 1], |ArgsOf(ns[..|ns| - 1])|;
    if m <= i {
      assert ArgsOf(ns)[i] == ParseArg(n) && Before(ns, line) == ns;
      BeforeInit(ns, n.startLine);
      ExecArg(n, Run(init, s, buildArgs), buildArgs, variable);
    } else {
      LastArgs(ns);
      ArgFound(init, s, buildArgs, variable, line, i);
      RunBefore(ns, s, buildArgs, line);
      BeforeInit(ns, ArgsOf(ns)[i].line);
      ExecArg(n, Run(Before(init, line), s, buildArgs), buildArgs, variable);
    }
  }

  lemma {:induction false} ArgMissing(ns: seq<Node>, s: Scope, buildArgs: Vars, variable: string, line: nat)
    requires Ordered(ns)
    requires forall j :: 0 <= j < |ArgsOf(ns)| ==> !Binds(ArgsOf(ns)[j], variable, line, buildArgs)
    ensures variable in Run(Before(ns, line), s, buildArgs).args ==> variable in s.args
  {
    if ns != [] {
      var init, n, m := ns[..|ns| - 1], ns[|ns| - 1], |ArgsOf(ns[..|ns| - 1])|;
      assert forall j :: 0 <= j < m ==> ArgsOf(init)[j] == ArgsOf(ns)[j];
      assert IsArg(n) ==> ArgsOf(ns)[m] == ParseArg(n);
      RunBefore(ns, s, buildArgs, line);
      ExecArg(n, Run(Before(init, line), s, buildArgs), buildArgs, variable);
      ArgMissing(init, s, buildArgs, variable, line);
    }
  }

  lemma {:induction false} BindEnvsFound(pairs: seq<KeyValue>, vars: Vars, variable: string, i: nat)
    requires i < |pairs| && pairs[i].key == variable && pairs[i].value != ""
    requires forall j :: i < j < |pairs| ==> pairs[j].key != variable || pairs[j].value == ""
    ensures variable in BindEnvs(pairs, vars)
    ensures BindEnvs(pairs, vars)[variable] == Expand(pairs[i].value, vars)
  {
    if i < |pairs| - 1 {
      BindEnvsFound(pairs[..|pairs| - 1], vars, variable, i);
    }
  }

  lemma {:induction false} BindEnvsMissing(pairs: seq<KeyValue>, vars: Vars, variable: string)
    requires forall j :: 0 <= j < |pairs| ==> pairs[j].key != variable || pairs[j].value == ""
    ensures variable !in BindEnvs(pairs, vars)
  {
    if pairs != [] {
      BindEnvsMissing(pairs[..|pairs| - 1], vars, variable);
    }
  }

  predicate SetsHere(n: Node, variable: string) {
    IsEnv(n) && exists j :: 0 <= j < |ParseEnv(n)| && ParseEnv(n)[j].key == variable && ParseEnv(n)[j].value != ""
  }

  lemma ExecEnvUnset(n: Node, s: Scope, buildArgs: Vars, variable: string)
    requires !SetsHere(n, variable)
    ensures var env := Exec(n, s, buildArgs).env;
            (variable in env <==> variable in s.env)
            && (variable in env ==> env[variable] == s.env[variable])
  {
    if IsEnv(n) {
      BindEnvsMissing(ParseEnv(n), Visible(s), variable);
    }
  }

  /** How the last instruction extends the list of ENV pairs. */
  lemma LastEnvs(ns: seq<Node>)
    requires Ordered(ns) && ns != []
    ensures var init, n := ns[..|ns| - 1], ns[|ns| - 1];
            var m := |EnvsOf(init)|;
            && m <= |EnvsOf(ns)|
            && (forall j :: 0 <= j < m ==> EnvsOf(init)[j] == EnvsOf(ns)[j] && EnvsOf(ns)[j].line < n.startLine)
            && (forall j :: m <= j < |EnvsOf(ns)| ==>
                  IsEnv(n) && EnvsOf(ns)[j] == ParseEnv(n)[j - m] && EnvsOf(ns)[j].line == n.startLine)
            && (IsEnv(n) ==> |EnvsOf(ns)| == m + |ParseEnv(n)|)
  {
    hide EnvPairs, Is, ArgsOf, UsersOf;
    var init, n := ns[..|ns| - 1], ns[|ns| - 1];
    CollectedLines(init, n.startLine);
    if IsEnv(n) {
      EnvLines(n.next, n.startLine);
    }
  }

  lemma NotSetHere(ns: seq<Node>, variable: string, line: nat, from: nat)
    requires Ordered(ns) && ns != [] && ns[|ns| - 1].startLine < line
    requires from <= |EnvsOf(ns[..|ns| - 1])|
    requires forall j :: from <= j < |EnvsOf(ns)| ==> !Sets(EnvsOf(ns)[j], variable, line)
    ensures !SetsHere(ns[|ns| - 1], variable)
  {
    LastEnvs(ns);
    var n, m := ns[|ns| - 1], |EnvsOf(ns[..|ns| - 1])|;
    forall j | IsEnv(n) && 0 <= j < |ParseEnv(n)|
      ensures ParseEnv(n)[j].key != variable || ParseEnv(n)[j].value == ""
    {
      assert EnvsOf(ns)[m + j] == ParseEnv(n)[j];
    }
  }

  lemma EnvFoundLast(ns: seq<Node>, s: Scope, buildArgs: Vars, variable: string, line: nat, i: nat)
    requires Ordered(ns) && ns != [] && |EnvsOf(ns[..|ns| - 1])| <= i < |EnvsOf(ns)|
    requires Sets(EnvsOf(ns)[i], variable, line)
    requires forall j :: i < j < |EnvsOf(ns)| ==> !Sets(EnvsOf(ns)[j], variable, line)
    ensures var n := ns[|ns| - 1];
            var vars := Visible(Run(ns[..|ns| - 1], s, buildArgs));
            IsEnv(n) && variable in BindEnvs(ParseEnv(n), vars)
            && BindEnvs(ParseEnv(n), vars)[variable] == Expand(EnvsOf(ns)[i].value, vars)
  {
    var init, n, m := ns[..|ns| - 1], ns[|ns| - 1], |EnvsOf(ns[..|ns| - 1])|;
    LastEnvs(ns);
    forall j | i - m < j < |ParseEnv(n)|
      ensures ParseEnv(n)[j].key != variable || ParseEnv(n)[j].value == ""
    {
      assert ParseEnv(n)[j] == EnvsOf(ns)[j + m];
    }
    BindEnvsFound(ParseEnv(n), Visible(Run(init, s, buildArgs)), variable, i - m);
  }

  lemma EnvFoundHere(ns: seq<Node>, s: Scope, buildArgs: Vars, variable: string, line: nat, i: nat)
    requires Ordered(ns) && ns != [] && |EnvsOf(ns[..|ns| - 1])| <= i < |EnvsOf(ns)|
    requires Sets(EnvsOf(ns)[i], variable, line)
    requires forall j :: i < j < |EnvsOf(ns)| ==> !Sets(EnvsOf(ns)[j], variable, line)
    ensures var env := Run(Before(ns, line), s, buildArgs).env;
            var e := EnvsOf(ns)[i];
            variable in env
            && env[variable] == Expand(e.value, Visible(Run(Before(ns, e.line), s, buildArgs)))
  {
    hide Expand, BindEnvs, EnvPairs;
    LastEnvs(ns);
    EnvFoundLast(ns, s, buildArgs, variable, line, i);
    assert Before(ns, line) == ns;
    BeforeInit(ns, ns[|ns| - 1].startLine);
  }

  lemma {:induction false} EnvFound(ns: seq<Node>, s: Scope, buildArgs: Vars, variable: string, line: nat, i: nat)
    requires Ordered(ns) && i < |EnvsOf(ns)|
    requires Sets(EnvsOf(ns)[i], variable, line)
    requires forall j :: i < j < |EnvsOf(ns)| ==> !Sets(EnvsOf(ns)[j], variable, line)
    ensures var env := Run(Before(ns, line), s, buildArgs).env;
            var e := EnvsOf(ns)[i];
            variable in env
            && env[variable] == Expand(e.value, Visible(Run(Before(ns, e.line), s, buildArgs)))
  {
    hide ParseEnv, Expand, SetsHere, Exec, Run;
    var init, n, m := ns[..|ns| - 1], ns[|ns| - 1], |EnvsOf(ns[..|ns| - 1])|;
    LastEnvs(ns);
    if m <= i {
      EnvFoundHere(ns, s, buildArgs, variable, line, i);
    } else {
      EnvFound(init, s, buildArgs, variable, line, i);
      RunBefore(ns, s, buildArgs, line);
      BeforeInit(ns, EnvsOf(ns)[i].line);
      if n.startLine < line {
        NotSetHere(ns, variable, line, i + 1);
        ExecEnvUnset(n, Run(Before(init, line), s, buildArgs), buildArgs, variable);
      }
    }
  }

  lemma {:induction false} EnvMissing(ns: seq<Node>, s: Scope, buildArgs: Vars, variable: string, line: nat)
    requires Ordered(ns)
    requires forall j :: 0 <= j < |EnvsOf(ns)| ==> !Sets(EnvsOf(ns)[j], variable, line)
    ensures Get(Run(Before(ns, line), s, buildArgs).env, variable) == Get(s.env, variable)
  {
    if ns != [] {
      var init, n := ns[..|ns| - 1], ns[|ns| - 1];
      LastEnvs(ns);
      EnvMissing(init, s, buildArgs, variable, line);
      RunBefore(ns, s, buildArgs, line);
      if n.startLine < line {
        NotSetHere(ns, variable, line, 0);
        ExecEnvUnset(n, Run(Before(init, line), s, buildArgs), buildArgs, variable);
      }
    }
  }

  lemma ExecUser(n: Node, s: Scope, buildArgs: Vars)
    ensures Exec(n, s, buildArgs).user
            == if IsUser(n) then Expand(ParseUser(n).key, Visible(s)) else s.user
  {
    if IsUser(n) {
      assert !Is(n, "arg") && !Is(n, "env");
    }
  }

  lemma {:induction false} LastUser(ns: seq<Node>, s: Scope, buildArgs: Vars)
    requires Ordered(ns)
    ensures UsersOf(ns) == [] ==> Run(ns, s, buildArgs).user == s.user
    ensures UsersOf(ns) != [] ==>
              var u := UsersOf(ns)[|UsersOf(ns)| - 1];
              Run(ns, s, buildArgs).user == Expand(u.key, Visible(Run(Before(ns, u.line), s, buildArgs)))
  {
    if ns != [] {
      var init, n := ns[..|ns| - 1], ns[|ns| - 1];
      LastUser(init, s, buildArgs);
      LastUserStep(ns, s, buildArgs);
    }
  }

  /** How the last instruction bears on the user. */
  lemma LastUserStep(ns: seq<Node>, s: Scope, buildArgs: Vars)
    requires Ordered(ns) && ns != []
    ensures var init, n := ns[..|ns| - 1], ns[|ns| - 1];
            if IsUser(n)
            then UsersOf(ns) == UsersOf(init) + [ParseUser(n)] && Before(ns, n.startLine) == init
                 && Run(ns, s, buildArgs).user == Expand(ParseUser(n).key, Visible(Run(init, s, buildArgs)))
            else UsersOf(ns) == UsersOf(init) && Run(ns, s, buildArgs).user == Run(init, s, buildArgs).user
                 && (UsersOf(init) != [] ==>
                       var line := UsersOf(init)[|UsersOf(init)| - 1].line;
                       Before(ns, line) == Before(init, line))
  {
    var init, n := ns[..|ns| - 1], ns[|ns| - 1];
    ExecUser(n, Run(init, s, buildArgs), buildArgs);
    if IsUser(n) {
      BeforeInit(ns, n.startLine);
    } else if UsersOf(init) != [] {
      CollectedLines(init, n.startLine);
      BeforeInit(ns, UsersOf(init)[|UsersOf(init)| - 1].line);
    }
  }

  // ---- what one round of the search finds ----

  /** The value a lookup is after: ARG first when ARGs count, ENV otherwise. */
  function Wanted(s: Scope, considerArg: bool, variable: string): string {
    Get(if considerArg then Visible(s) else s.env, variable)
  }

  function LastArgIndex(args: seq<KeyValue>, variable: string, line: nat, buildArgs: Vars): (i: int)
    ensures -1 <= i < |args|
    ensures i >= 0 ==> Binds(args[i], variable, line, buildArgs)
    ensures forall j :: i < j < |args| ==> !Binds(args[j], variable, line, buildArgs)
  {
    if args == [] then -1
    else if Binds(args[|args| - 1], variable, line, buildArgs) then |args| - 1
    else LastArgIndex(args[..|args| - 1], variable, line, buildArgs)
  }

  function LastEnvIndex(envs: seq<KeyValue>, variable: string, line: nat): (i: int)
    ensures -1 <= i < |envs|
    ensures i >= 0 ==> Sets(envs[i], variable, line)
    ensures forall j :: i < j < |envs| ==> !Sets(envs[j], variable, line)
  {
    if envs == [] then -1
    else if Sets(envs[|envs| - 1], variable, line) then |envs| - 1
    else LastEnvIndex(envs[..|envs| - 1], variable, line)
  }

  /** A build arg, a text to be expanded at its own line, or nothing. An ARG's text loses its quotes. */
  datatype Binding = Unset | Given(value: string) | SetTo(text: string, line: nat, quoted: bool)

  function BindingAt(s: Stage, variable: string, line: nat, considerArg: bool, buildArgs: Vars): (b: Binding)
    ensures b.SetTo? ==> b.line < line
  {
    var a := if considerArg then LastArgIndex(s.args, variable, line, buildArgs) else -1;
    var e := LastEnvIndex(s.envs, variable, line);
    if a >= 0 then
      if Get(buildArgs, variable) != "" then Given(Unquote(Get(buildArgs, variable)))
      else SetTo(s.args[a].value, s.args[a].line, true)
    else if e >= 0 then SetTo(s.envs[e].value, s.envs[e].line, false)
    else Unset
  }

  function Finish(quoted: bool, text: string): string {
    if quoted then Unquote(text) else text
  }

  /** findValue's loop over a list of ARGs, from the end. */
  method LastArg(args: seq<KeyValue>, variable: string, line: nat, buildArgs: Vars) returns (i: int)
    ensures i == LastArgIndex(args, variable, line, buildArgs)
  {
    i := |args| - 1;
    while i >= 0
      invariant -1 <= i < |args|
      invariant LastArgIndex(args[..i + 1], variable, line, buildArgs)
                == LastArgIndex(args, variable, line, buildArgs)
    {
      assert args[..i + 1][..i] == args[..i];
      if args[i].key == variable && args[i].line < line
         && (Get(buildArgs, args[i].key) != "" || args[i].value != "") {
        return;
      }
      i := i - 1;
    }
  }

  /** findValue's loop over a list of ENVs, from the end. */
  method LastEnv(envs: seq<KeyValue>, variable: string, line: nat) returns (i: int)
    ensures i == LastEnvIndex(envs, variable, line)
  {
    i := |envs| - 1;
    while i >= 0
      invariant -1 <= i < |envs|
      invariant LastEnvIndex(envs[..i + 1], variable, line) == LastEnvIndex(envs, variable, line)
    {
      assert envs[..i + 1][..i] == envs[..i];
      if envs[i].key == variable && envs[i].line < line && envs[i].value != "" {
        return;
      }
      i := i - 1;
    }
  }

  lemma OrderedAt(d: Dockerfile, p: Place)
    requires InOrder(d) && InFile(d, p)
    ensures Ordered(StageAt(d, p).instructions)
    ensures StageAt(d, p).args == ArgsOf(StageAt(d, p).instructions)
    ensures StageAt(d, p).envs == EnvsOf(StageAt(d, p).instructions)
  {
    InOrderParts(d);
  }

  /** What the scope holds when no list of the place binds the variable. */
  lemma NothingHere(d: Dockerfile, buildArgs: Vars, baseEnv: Vars, p: Place, line: nat,
                    variable: string, considerArg: bool)
    requires InOrder(d) && InFile(d, p)
    requires considerArg ==> forall j :: 0 <= j < |StageAt(d, p).args| ==>
               !Binds(StageAt(d, p).args[j], variable, line, buildArgs)
    requires forall j :: 0 <= j < |StageAt(d, p).envs| ==> !Sets(StageAt(d, p).envs[j], variable, line)
    ensures Wanted(ScopeAt(d, buildArgs, baseEnv, p, line), considerArg, variable)
            == Get(StartOf(d, buildArgs, baseEnv, p).env, variable)
  {
    var ns, s := StageAt(d, p).instructions, StartOf(d, buildArgs, baseEnv, p);
    OrderedAt(d, p);
    if considerArg {
      ArgMissing(ns, s, buildArgs, variable, line);
    }
    EnvMissing(ns, s, buildArgs, variable, line);
  }

  lemma ArgHere(d: Dockerfile, buildArgs: Vars, baseEnv: Vars, p: Place, line: nat, variable: string, i: nat)
    requires InOrder(d) && InFile(d, p) && i < |StageAt(d, p).args|
    requires Binds(StageAt(d, p).args[i], variable, line, buildArgs)
    requires forall j :: i < j < |StageAt(d, p).args| ==>
               !Binds(StageAt(d, p).args[j], variable, line, buildArgs)
    ensures Wanted(ScopeAt(d, buildArgs, baseEnv, p, line), true, variable)
            == ArgValue(StageAt(d, p).args[i],
                        Visible(ScopeAt(d, buildArgs, baseEnv, p, StageAt(d, p).args[i].line)), buildArgs)
  {
    OrderedAt(d, p);
    ArgFound(StageAt(d, p).instructions, StartOf(d, buildArgs, baseEnv, p), buildArgs, variable, line, i);
  }

  lemma EnvHere(d: Dockerfile, buildArgs: Vars, baseEnv: Vars, p: Place, line: nat,
                variable: string, considerArg: bool, i: nat)
    requires InOrder(d) && InFile(d, p) && i < |StageAt(d, p).envs|
    requires considerArg ==> forall j :: 0 <= j < |StageAt(d, p).args| ==>
               !Binds(StageAt(d, p).args[j], variable, line, buildArgs)
    requires Sets(StageAt(d, p).envs[i], variable, line)
    requires forall j :: i < j < |StageAt(d, p).envs| ==> !Sets(StageAt(d, p).envs[j], variable, line)
    ensures Wanted(ScopeAt(d, buildArgs, baseEnv, p, line), considerArg, variable)
            == Expand(StageAt(d, p).envs[i].value,
                      Visible(ScopeAt(d, buildArgs, baseEnv, p, StageAt(d, p).envs[i].line)))
  {
    var ns, s := StageAt(d, p).instructions, StartOf(d, buildArgs, baseEnv, p);
    OrderedAt(d, p);
    EnvFound(ns, s, buildArgs, variable, line, i);
    if considerArg {
      ArgMissing(ns, s, buildArgs, variable, line);
    }
  }

  /** What one round finds is what the forward evaluator holds; nothing found means the start value. */
  lemma BindingInForce(d: Dockerfile, buildArgs: Vars, baseEnv: Vars, p: Place, line: nat,
                       variable: string, considerArg: bool)
    requires InOrder(d) && InFile(d, p)
    ensures Wanted(ScopeAt(d, buildArgs, baseEnv, p, line), considerArg, variable)
            == match BindingAt(StageAt(d, p), variable, line, considerArg, buildArgs)
               case Unset => Get(StartOf(d, buildArgs, baseEnv, p).env, variable)
               case Given(value) => value
               case SetTo(text, l, quoted) =>
                 Finish(quoted, Expand(text, Visible(ScopeAt(d, buildArgs, baseEnv, p, l))))
  {
    hide Run, Expand, Ordered, StageOf, FlatStages, ScopeAt, StartOf, Wanted;
    var s := StageAt(d, p);
    var a := if considerArg then LastArgIndex(s.args, variable, line, buildArgs) else -1;
    var e := LastEnvIndex(s.envs, variable, line);
    if a >= 0 {
      ArgHere(d, buildArgs, baseEnv, p, line, variable, a);
    } else if e >= 0 {
      EnvHere(d, buildArgs, baseEnv, p, line, variable, considerArg, e);
    } else {
      NothingHere(d, buildArgs, baseEnv, p, line, variable, considerArg);
    }
  }
}
