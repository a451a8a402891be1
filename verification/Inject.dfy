/**
 The agent injection protocol: one attempt (pkg/inject/inject.go) against an arbitrary remote, and
 the retry loop around it (pkg/agent/inject.go). Everything the remote, the pipes, the clock and the
 scheduler can do is chosen freely in an `Attempt`.
 */
module Inject {
  import opened Text
  import opened DelayedWriter

  // ---- reading from the remote ----

  /** One Read of a single byte: a byte, no byte yet, or an error; the end of the list is EOF. */
  datatype Event = Data(b: char) | NoData | Broken

  /** The bytes that can still be read. */
  function Payload(events: seq<Event>): string {
    if events == [] || events[0].Broken? then ""
    else (if events[0].Data? then [events[0].b] else "") + Payload(events[1..])
  }

  /** A line without its newline, and the events behind it; no line if the stream ends first. */
  function Line(events: seq<Event>): (Option<string>, seq<Event>) {
    if events == [] then (None, [])
    else match events[0]
      case Broken => (None, events[1..])
      case NoData => Line(events[1..])
      case Data(b) =>
        if b == '\n' then (Some(""), events[1..])
        else
          var (line, rest) := Line(events[1..]);
          (if line.Some? then Some([b] + line.value) else None, rest)
  }

  /** A line is read exactly when a newline is still to come, and nothing behind it is consumed. */
  lemma {:induction false} LineExact(events: seq<Event>)
    ensures Line(events).0.Some? <==> '\n' in Payload(events)
    ensures Line(events).0.Some? ==>
              && '\n' !in Line(events).0.value
              && Payload(events) == Line(events).0.value + "\n" + Payload(Line(events).1)
  {
    if events != [] && !events[0].Broken? {
      LineExact(events[1..]);
      if events[0].Data? {
        var b, next := events[0].b, Line(events[1..]).0;
        assert Payload(events) == [b] + Payload(events[1..]);
        if b == '\n' {
          assert [b] == "" + "\n";
        } else if next.Some? {
          ConsLine(b, next.value, Payload(Line(events[1..]).1));
        }
      } else {
        assert Payload(events) == Payload(events[1..]);
      }
    }
  }

  lemma ConsLine(b: char, line: string, rest: string)
    ensures [b] + (line + "\n" + rest) == ([b] + line) + "\n" + rest
  {
  }

  class Reader {
    var events: seq<Event>

    constructor (events: seq<Event>)
      ensures this.events == events
    {
      this.events := events;
    }

    /** readLine: byte by byte, up to and including the newline. */
    method ReadLine() returns (line: Option<string>)
      modifies this
      ensures (line, events) == Line(old(events))
    {
      var str := "";
      PrependNone(events);
      while events != []
        invariant Line(old(events)) == Prepend(str, Line(events))
        decreases |events|
      {
        var e := events[0];
        PrependByte(str, events);
        events := events[1..];
        match e {
          case Broken => return None;
          case NoData =>
          case Data(b) =>
            if b == '\n' {
              return Some(str);
            }
            str := str + [b];
        }
      }
      return None;
    }
  }

  function Prepend(str: string, r: (Option<string>, seq<Event>)): (Option<string>, seq<Event>) {
    (if r.0.Some? then Some(str + r.0.value) else None, r.1)
  }

  lemma PrependNone(events: seq<Event>)
    ensures Prepend("", Line(events)) == Line(events)
  {
    if Line(events).0.Some? {
      assert "" + Line(events).0.value == Line(events).0.value;
    }
  }

  lemma PrependByte(str: string, events: seq<Event>)
    requires events != []
    ensures match events[0]
            case Broken => Prepend(str, Line(events)) == (None, events[1..])
            case NoData => Prepend(str, Line(events)) == Prepend(str, Line(events[1..]))
            case Data(b) => Prepend(str, Line(events))
                            == if b == '\n' then (Some(str), events[1..])
                               else Prepend(str + [b], Line(events[1..]))
  {
    if events[0].Data? {
      var b, line := events[0].b, Line(events[1..]).0;
      if b == '\n' {
        assert str + "" == str;
      } else if line.Some? {
        assert str + ([b] + line.value) == (str + [b]) + line.value;
      }
    }
  }

  // ---- one attempt ----

  /** What the user's streams see. */
  class User {
    var stdin: string
    var stdout: string
    const stderr: Sink
    /** How many times the streams have been handed to a remote process. */
    var handovers: nat

    constructor (stdin: string)
      ensures this.stdin == stdin && stdout == "" && handovers == 0
      ensures fresh(stderr) && stderr.data == ""
    {
      this.stdin, stdout, handovers := stdin, "", 0;
      stderr := new Sink();
    }
  }

  datatype Rerun = Rerun(output: string, taken: nat, failed: bool)

  datatype Attempt = Attempt(
    setupFails: bool,           // script, pipes or a context that is already done
    timedOut: bool,             // no first line within the timeout
    remote: seq<Event>,         // what the remote process sends
    pongFails: bool,            // writing the answer to the handshake fails
    fileMissing: bool,          // the local agent binary cannot be opened
    binary: string,             // its content
    uploadFails: bool,
    uploaded: nat,              // bytes of it that were written when the upload failed
    copiedOut: nat,             // bytes the stdout copier has moved when the run is over
    copiedIn: nat,              // bytes the stdin copier has taken
    copyFails: bool,
    execFailsFirst: bool,       // the command's error arrives before the injection's result
    rerun: Rerun,               // the command run again behind an upload
    errEarly: seq<string>,      // what the remote writes to stderr before Start
    errLate: seq<string>,       // and after it
    tooLate: bool)              // more than five minutes have passed when the attempt ends

  function Take(s: string, n: nat): string {
    if n < |s| then s[..n] else s
  }

  function Drop(s: string, n: nat): string {
    if n < |s| then s[n..] else ""
  }

  function Concat(parts: seq<string>): string {
    if parts == [] then "" else Concat(parts[..|parts| - 1]) + parts[|parts| - 1]
  }

  predicate Says(line: Option<string>, word: string) {
    line.Some? && TrimSpace(line.value) == word
  }

  /** The handshake came through and the remote said "done": the agent was already there. */
  predicate Executes(a: Attempt) {
    var (first, rest) := Line(a.remote);
    !a.timedOut && !a.pongFails && Says(first, "ping") && Says(Line(rest).0, "done")
  }

  /** The remote asked for the agent binary and confirmed that it got it. */
  predicate Uploads(a: Attempt) {
    var (first, rest) := Line(a.remote);
    var (second, tail) := Line(rest);
    && !a.timedOut && !a.pongFails && Says(first, "ping")
    && second.Some? && "ARM-" <= TrimSpace(second.value)
    && !a.fileMissing && !a.uploadFails && Says(Line(tail).0, "done")
  }

  /** The user's streams are given to the remote process in this attempt. */
  predicate HandsOver(a: Attempt, command: string) {
    !a.setupFails && (Executes(a) || (Uploads(a) && !a.execFailsFirst && command != ""))
  }

  /** The bytes behind the two lines of the handshake. */
  function AfterHandshake(events: seq<Event>): string {
    Payload(Line(Line(events).1).1)
  }

  method WriteAll(w: DelayedWriter, parts: seq<string>)
    requires w.Valid() && w.writer != null
    modifies w, w.writer
    ensures w.Valid() && w.started == old(w.started)
    ensures w.written == old(w.written) + Concat(parts)
  {
    for k := 0 to |parts|
      invariant w.Valid() && w.started == old(w.started)
      invariant w.written == old(w.written) + Concat(parts[..k])
    {
      assert parts[..k + 1][..k] == parts[..k];
      var _ := w.Write(parts[k]);
      assert old(w.written) + Concat(parts[..k]) + parts[k] == old(w.written) + (Concat(parts[..k]) + parts[k]);
    }
    assert parts[..|parts|] == parts;
  }

  datatype Injected = Injected(wasExecuted: bool, failed: bool)

  /** injectBinary: upload, then wait for "done". */
  method InjectBinary(a: Attempt, stdout: Reader) returns (failed: bool, sent: string)
    modifies stdout
    ensures failed <==> a.uploadFails || !Says(Line(old(stdout.events)).0, "done")
    ensures !failed ==> sent == a.binary
  {
    if a.uploadFails {
      return true, Take(a.binary, a.uploaded);
    }
    sent := a.binary;
    var line := stdout.ReadLine();
    if line.None? {
      return true, sent;
    }
    return TrimSpace(line.value) != "done", sent;
  }

  /** inject: handshake, then either an upload or the hand-over of the user's streams; `sent` is what the remote got. */
  method Inject(a: Attempt, user: User, delayedStderr: DelayedWriter)
    returns (r: Injected, sent: string)
    requires delayedStderr.Valid() && !delayedStderr.started && delayedStderr.writer == user.stderr
    modifies user, user.stderr, delayedStderr
    ensures delayedStderr.Valid() && delayedStderr.written == old(delayedStderr.written)
    ensures r.wasExecuted <==> Executes(a)
    ensures r.failed <==> if Executes(a) then a.copyFails else !Uploads(a)
    ensures !r.wasExecuted ==>
              && !delayedStderr.started
              && user.stdin == old(user.stdin) && user.stdout == old(user.stdout)
              && user.handovers == old(user.handovers)
    ensures r.wasExecuted ==>
              && user.stdout == old(user.stdout) + Take(AfterHandshake(a.remote), a.copiedOut)
              && user.stdin == Drop(old(user.stdin), a.copiedIn)
              && user.handovers == old(user.handovers) + 1 && delayedStderr.started
    ensures a.timedOut || !Says(Line(a.remote).0, "ping") ==> sent == ""
    ensures Executes(a) ==> sent == "pong\n" + Take(old(user.stdin), a.copiedIn)
    ensures Uploads(a) ==> sent == "pong\n" + a.binary
  {
    sent := "";
    if a.timedOut {
      return Injected(false, true), sent;
    }
    var stdout := new Reader(a.remote);
    var line := stdout.ReadLine();
    if line.None? || TrimSpace(line.value) != "ping" {
      return Injected(false, true), sent;
    }
    if a.pongFails {
      return Injected(false, true), sent;
    }
    sent := "pong\n";
    line := stdout.ReadLine();
    if line.None? {
      return Injected(false, true), sent;
    }
    var lineStr := TrimSpace(line.value);
    if "ARM-" <= lineStr {
      assert lineStr[0] == 'A';
      if a.fileMissing {
        return Injected(false, true), sent;
      }
      var failed, upload := InjectBinary(a, stdout);
      return Injected(false, failed), sent + upload;
    } else if lineStr != "done" {
      return Injected(false, true), sent;
    }
    delayedStderr.Start();
    user.handovers := user.handovers + 1;
    user.stdout := user.stdout + Take(Payload(stdout.events), a.copiedOut);
    sent := sent + Take(user.stdin, a.copiedIn);
    user.stdin := Drop(user.stdin, a.copiedIn);
    return Injected(true, a.copyFails), sent;
  }

  /** What an attempt that hands over adds to the user's stdout. */
  function Delivered(a: Attempt): string {
    if Executes(a) then Take(AfterHandshake(a.remote), a.copiedOut) else a.rerun.output
  }

  /** What an attempt reports back to the retry loop. */
  function Report(a: Attempt, command: string): Injected {
    if a.setupFails then Injected(true, true)
    else if Executes(a) then Injected(true, a.copyFails || a.execFailsFirst)
    else if !Uploads(a) || a.execFailsFirst then Injected(false, true)
    else if command == "" then Injected(false, false)
    else Injected(true, a.rerun.failed)
  }

  /**
   An attempt succeeds if nothing was in the way of starting it, the command's error did not come
   first, and either the agent was there and all bytes were copied, or it was uploaded and the
   command, if there is one, ran without an error.
   */
  lemma ReportIs(a: Attempt, command: string)
    ensures !Report(a, command).failed <==>
            && !a.setupFails && !a.execFailsFirst
            && ((Executes(a) && !a.copyFails) || (Uploads(a) && (command == "" || !a.rerun.failed)))
    ensures Report(a, command).wasExecuted <==>
            a.setupFails || Executes(a) || (Uploads(a) && !a.execFailsFirst && command != "")
  {
    if Executes(a) {
      assert "done"[0] != "ARM-"[0];
    }
  }

  function Taken(a: Attempt): nat {
    if Executes(a) then a.copiedIn else a.rerun.taken
  }

  /** InjectAndExecute: one attempt, with the remote's stderr held back until the hand-over. */
  method InjectAndExecute(a: Attempt, command: string, user: User) returns (r: Injected)
    modifies user, user.stderr
    ensures r == Report(a, command)
    ensures !r.failed <==>
            && !a.setupFails && !a.execFailsFirst
            && ((Executes(a) && !a.copyFails) || (Uploads(a) && (command == "" || !a.rerun.failed)))
    ensures r.wasExecuted <==>
            a.setupFails || Executes(a) || (Uploads(a) && !a.execFailsFirst && command != "")
    ensures !HandsOver(a, command) ==>
              && user.stdin == old(user.stdin) && user.stdout == old(user.stdout)
              && user.stderr.data == old(user.stderr.data) && user.handovers == old(user.handovers)
    ensures HandsOver(a, command) ==>
              && user.handovers == old(user.handovers) + 1
              && user.stdout == old(user.stdout) + Delivered(a)
              && user.stdin == Drop(old(user.stdin), Taken(a))
              && user.stderr.data == old(user.stderr.data) + (Concat(a.errEarly) + Concat(a.errLate))
    ensures HandsOver(a, command) && !Executes(a) ==>
              user.stdout == old(user.stdout) + a.rerun.output && user.stdin == Drop(old(user.stdin), a.rerun.taken)
  {
    hide Line, TrimSpace;
    ReportIs(a, command);
    if a.setupFails {
      return Injected(true, true);
    }
    var delayedStderr := new DelayedWriter(user.stderr);
    WriteAll(delayedStderr, a.errEarly);
    var result, _ := Inject(a, user, delayedStderr);
    var rerun := !result.failed && !a.execFailsFirst && !result.wasExecuted && command != "";
    if rerun {
      delayedStderr.Start();
      user.handovers := user.handovers + 1;
      user.stdout := user.stdout + a.rerun.output;
      user.stdin := Drop(user.stdin, a.rerun.taken);
    }
    WriteAll(delayedStderr, a.errLate);
    if rerun {
      return Injected(true, a.rerun.failed);
    }
    return Injected(result.wasExecuted, result.failed || a.execFailsFirst);
  }

  // ---- the retry loop ----

  datatype Outcome = Finished | TimedOut | AgentError | StillTrying

  /** How the loop judges an attempt; StillTrying means that it goes on to the next. */
  function Verdict(a: Attempt, command: string): Outcome {
    var r := Report(a, command);
    if !r.failed then Finished
    else if a.tooLate then TimedOut
    else if r.wasExecuted then AgentError
    else StillTrying
  }

  /**
   InjectAgentAndExecute over any sequence of attempts, of which it makes the first `made`. Only the
   last attempt made can have been given the user's streams, whatever failed and whatever the remote
   did; before it the user's streams were not touched, not even stderr.
   */
  method InjectAgentAndExecute(attempts: seq<Attempt>, command: string, user: User)
    returns (outcome: Outcome, made: nat)
    modifies user, user.stderr
    ensures made <= |attempts|
    ensures forall k :: 0 <= k < made - 1 ==> !HandsOver(attempts[k], command)
    ensures var handed := made > 0 && HandsOver(attempts[made - 1], command);
            && user.handovers == old(user.handovers) + (if handed then 1 else 0)
            && user.stdout == old(user.stdout) + (if handed then Delivered(attempts[made - 1]) else "")
            && (!handed ==> user.stdin == old(user.stdin) && user.stderr.data == old(user.stderr.data))
            && (handed ==> user.stdin == Drop(old(user.stdin), Taken(attempts[made - 1])))
            && (handed ==> user.stderr.data == old(user.stderr.data)
                           + (Concat(attempts[made - 1].errEarly) + Concat(attempts[made - 1].errLate)))
            && (handed ==> outcome != StillTrying)
    ensures forall k :: 0 <= k < made - 1 || (0 <= k < made && outcome == StillTrying) ==>
              Report(attempts[k], command) == Injected(false, true) && !attempts[k].tooLate
    ensures if made == 0 then outcome == StillTrying
            else outcome == Verdict(attempts[made - 1], command)
    ensures outcome == StillTrying ==> made == |attempts|
    ensures made > 0 ==>
              var a := attempts[made - 1];
              && (outcome == Finished <==>
                    && !a.setupFails && !a.execFailsFirst
                    && ((Executes(a) && !a.copyFails) || (Uploads(a) && (command == "" || !a.rerun.failed))))
              && (outcome == TimedOut <==> outcome != Finished && a.tooLate)
              && (outcome == AgentError <==>
                    && outcome != Finished && !a.tooLate
                    && (a.setupFails || Executes(a) || (Uploads(a) && !a.execFailsFirst && command != "")))
    ensures forall k :: 0 <= k < made - 1 ==>
              var a := attempts[k];
              && !a.setupFails && !a.tooLate && !Executes(a)
              && (!Uploads(a) || a.execFailsFirst)
  {
    made := 0;
    while made < |attempts|
      invariant made <= |attempts|
      invariant forall k :: 0 <= k < made ==> !HandsOver(attempts[k], command)
      invariant forall k :: 0 <= k < made ==>
                  Report(attempts[k], command) == Injected(false, true) && !attempts[k].tooLate
      invariant user.handovers == old(user.handovers) && user.stdout == old(user.stdout)
      invariant user.stdin == old(user.stdin) && user.stderr.data == old(user.stderr.data)
    {
      var a := attempts[made];
      made := made + 1;
      var r := InjectAndExecute(a, command, user);
      if r.failed {
        if a.tooLate {
          return TimedOut, made;
        } else if r.wasExecuted {
          return AgentError, made;
        }
        continue;
      }
      return Finished, made;
    }
    return StillTrying, made;
  }

  /**
   On the "done" path the remote's bytes are two lines and then, in order and without a gap, what
   the user gets; all of it once the stdout copier has run to the end.
   */
  lemma HandoverByteExact(a: Attempt)
    requires Executes(a)
    ensures var first := Line(a.remote);
            var second := Line(first.1);
            && first.0.Some? && second.0.Some?
            && '\n' !in first.0.value && '\n' !in second.0.value
            && Payload(a.remote)
               == first.0.value + "\n" + second.0.value + "\n" + AfterHandshake(a.remote)
    ensures Delivered(a) <= AfterHandshake(a.remote)
    ensures a.copiedOut >= |AfterHandshake(a.remote)| ==> Delivered(a) == AfterHandshake(a.remote)
  {
    LineExact(a.remote);
    LineExact(Line(a.remote).1);
    var l1, l2, rest := Line(a.remote).0.value, Line(Line(a.remote).1).0.value, AfterHandshake(a.remote);
    assert l1 + "\n" + (l2 + "\n" + rest) == l1 + "\n" + l2 + "\n" + rest;
  }

  // ---- what the remote has to say ----

  lemma OneFirstLine(l: string, p: string, line: string, rest: string)
    requires '\n' !in l && '\n' !in line && l + "\n" + p == line + "\n" + rest
    ensures l == line && p == rest
  {
    SplitPart(l, p, '\n');
    SplitPart(line, rest, '\n');
    assert l + ['\n'] + p == line + ['\n'] + rest;
    assert ([l] + Split(p, '\n'))[0] == ([line] + Split(rest, '\n'))[0];
    assert p == (l + "\n" + p)[|l| + 1..] == (line + "\n" + rest)[|l| + 1..] == rest;
  }

  /** A text that begins with a line has that line as its first. */
  lemma FirstLineIs(events: seq<Event>, line: string, rest: string)
    requires '\n' !in line && Payload(events) == line + "\n" + rest
    ensures Line(events).0 == Some(line) && Payload(Line(events).1) == rest
  {
    hide Line, Payload;
    LineExact(events);
    assert Payload(events)[|line|] == '\n';
    OneFirstLine(Line(events).0.value, Payload(Line(events).1), line, rest);
  }

  /** The first two lines the remote sends, and what follows them. */
  predicate Begins(text: string, first: string, second: string, rest: string) {
    '\n' !in first && '\n' !in second && text == first + "\n" + (second + "\n" + rest)
  }

  /** The agent is taken to be there exactly if the remote's bytes begin with a line "ping" and a line "done". */
  lemma ExecutesIff(a: Attempt)
    ensures Executes(a) <==>
            && !a.timedOut && !a.pongFails
            && exists first, second, rest :: Begins(Payload(a.remote), first, second, rest)
                 && TrimSpace(first) == "ping" && TrimSpace(second) == "done"
  {
    hide TrimSpace, Payload, Line;
    if Executes(a) {
      LineExact(a.remote);
      LineExact(Line(a.remote).1);
      assert Begins(Payload(a.remote), Line(a.remote).0.value, Line(Line(a.remote).1).0.value,
                    Payload(Line(Line(a.remote).1).1));
    }
    if first, second, rest :|
      Begins(Payload(a.remote), first, second, rest) && TrimSpace(first) == "ping" && TrimSpace(second) == "done"
    {
      FirstLineIs(a.remote, first, second + "\n" + rest);
      FirstLineIs(Line(a.remote).1, second, rest);
    }
  }

  /** The binary is uploaded exactly if they begin with "ping" and "ARM-", and a line "done" follows. */
  lemma UploadsIff(a: Attempt)
    ensures Uploads(a) <==>
            && !a.timedOut && !a.pongFails && !a.fileMissing && !a.uploadFails
            && exists first, second, third, rest :: Begins(Payload(a.remote), first, second, third + "\n" + rest)
                 && '\n' !in third && TrimSpace(first) == "ping" && "ARM-" <= TrimSpace(second)
                 && TrimSpace(third) == "done"
  {
    hide TrimSpace, Payload, Line;
    if Uploads(a) {
      var r1 := Line(a.remote).1;
      var r2 := Line(r1).1;
      LineExact(a.remote);
      LineExact(r1);
      LineExact(r2);
      assert Begins(Payload(a.remote), Line(a.remote).0.value, Line(r1).0.value,
                    Line(r2).0.value + "\n" + Payload(Line(r2).1));
    }
    if first, second, third, rest :|
      Begins(Payload(a.remote), first, second, third + "\n" + rest) && '\n' !in third && TrimSpace(first) == "ping"
      && "ARM-" <= TrimSpace(second) && TrimSpace(third) == "done"
    {
      FirstLineIs(a.remote, first, second + "\n" + (third + "\n" + rest));
      FirstLineIs(Line(a.remote).1, second, third + "\n" + rest);
      FirstLineIs(Line(Line(a.remote).1).1, third, rest);
    }
  }

  /** What a copier moves and what it leaves are the stream. */
  lemma TakeDrop(s: string, n: nat)
    ensures Take(s, n) + Drop(s, n) == s && (n <= |s| ==> |Take(s, n)| == n)
  {
  }

  lemma {:induction false} ConcatAll(a: seq<string>, b: seq<string>, s: string)
    ensures Concat([s]) == s && Concat(a + b) == Concat(a) + Concat(b)
    decreases |b|
  {
    assert [s][..0] == [];
    if b == [] {
      assert a + b == a;
    } else {
      var n := |b| - 1;
      ConcatAll(a, b[..n], s);
      assert (a + b)[..|a + b| - 1] == a + b[..n];
    }
  }
}
