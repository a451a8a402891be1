/** The inactivity daemon of cmd/agent/daemon.go over time; times and durations are in seconds. */
module Daemon {
  import opened Text

  const BUSY_BONUS: int := 20 * 60
  const DEFAULT_TIMEOUT: int := 20 * 60

  /** A workspace config file and what the daemon learns from it. */
  datatype Workspace = Workspace(
    readable: bool,           // the config parses
    hasShutdown: bool,        // a shutdown command is configured, so auto-stop is on
    statFails: bool,
    mtime: int,
    busy: bool,               // the busy file is there
    timeout: Option<int>)     // None if missing or not a duration

  /** getActivity: None when the workspace does not count. */
  function Activity(w: Workspace): Option<int> {
    if !w.readable || !w.hasShutdown || w.statFails then None
    else Some(w.mtime + if w.busy then BUSY_BONUS else 0)
  }

  function TimeoutOf(w: Workspace): int {
    if w.timeout.Some? then w.timeout.value else DEFAULT_TIMEOUT
  }

  /** The first of the most recently active workspaces. */
  predicate IsLatest(ws: seq<Workspace>, i: int) {
    && 0 <= i < |ws| && Activity(ws[i]).Some?
    && (forall j :: 0 <= j < |ws| && Activity(ws[j]).Some? ==>
          Activity(ws[j]).value <= Activity(ws[i]).value)
    && (forall j :: 0 <= j < i && Activity(ws[j]).Some? ==>
          Activity(ws[j]).value < Activity(ws[i]).value)
  }

  /** A tick at `now` runs the shutdown command. */
  ghost predicate ShutsDown(ws: seq<Workspace>, now: int) {
    exists i :: IsLatest(ws, i) && Activity(ws[i]).value + TimeoutOf(ws[i]) <= now
  }

  // ---- runs ----

  /** What happens between and at ticks. */
  datatype Event =
    | Tick(now: int)
    | Touch(i: nat, now: int)
    | Busy(i: nat, busy: bool)
    | Appear(w: Workspace)
    | Vanish(i: nat)

  function Change(ws: seq<Workspace>, e: Event): seq<Workspace> {
    match e
    case Tick(_) => ws
    case Touch(i, now) => if i < |ws| then ws[i := ws[i].(mtime := now)] else ws
    case Busy(i, busy) => if i < |ws| then ws[i := ws[i].(busy := busy)] else ws
    case Appear(w) => ws + [w]
    case Vanish(i) => if i < |ws| then ws[..i] + ws[i + 1..] else ws
  }

  /** The times at which the shutdown command runs. */
  ghost function Shutdowns(ws: seq<Workspace>, events: seq<Event>): seq<int>
    decreases |events|
  {
    if events == [] then []
    else
      (if events[0].Tick? && ShutsDown(ws, events[0].now) then [events[0].now] else [])
      + Shutdowns(Change(ws, events[0]), events[1..])
  }

  /** initialTouch, which gives up at the first file it cannot touch. */
  function Touched(ws: seq<Workspace>, now: int, touchable: nat): seq<Workspace> {
    seq(|ws|, i requires 0 <= i < |ws| => if i < touchable then ws[i].(mtime := now) else ws[i])
  }

  class Patrol {
    var workspaces: seq<Workspace>
    var shutdowns: seq<int>

    constructor (workspaces: seq<Workspace>)
      ensures this.workspaces == workspaces && shutdowns == []
    {
      this.workspaces, shutdowns := workspaces, [];
    }

    method InitialTouch(now: int, touchable: nat)
      modifies this
      ensures workspaces == Touched(old(workspaces), now, touchable) && shutdowns == old(shutdowns)
    {
      var i := 0;
      while i < |workspaces|
        invariant 0 <= i <= |workspaces| == |old(workspaces)|
        invariant i <= touchable || i == 0
        invariant forall j :: 0 <= j < i ==> workspaces[j] == old(workspaces)[j].(mtime := now)
        invariant forall j :: i <= j < |workspaces| ==> workspaces[j] == old(workspaces)[j]
        invariant shutdowns == old(shutdowns)
      {
        if i >= touchable {
          break;
        }
        workspaces := workspaces[i := workspaces[i].(mtime := now)];
        i := i + 1;
      }
    }

    /** doOnce: the search for the latest activity, then the comparison with its timeout. */
    method DoOnce(now: int)
      modifies this`shutdowns
      ensures shutdowns == old(shutdowns) + if ShutsDown(workspaces, now) then [now] else []
    {
      var latest: Option<int> := None;
      var workspace := -1;
      for k := 0 to |workspaces|
        invariant -1 <= workspace < k
        invariant workspace == -1 <==> latest == None
        invariant workspace == -1 ==> forall j :: 0 <= j < k ==> Activity(workspaces[j]).None?
        invariant workspace >= 0 ==> IsLatest(workspaces[..k], workspace) && latest == Activity(workspaces[workspace])
      {
        ghost var seen := workspaces[..k + 1];
        assert workspaces[..k] == seen[..k];
        var activity := Activity(workspaces[k]);
        if activity.None? {
          continue;
        }
        if latest.None? || activity.value > latest.value {
          latest := activity;
          workspace := k;
        }
      }
      assert workspaces[..|workspaces|] == workspaces;
      if latest.None? {
        return;
      }
      LatestUnique(workspaces, workspace);
      var timeout := DEFAULT_TIMEOUT;
      if workspaces[workspace].timeout.Some? {
        timeout := workspaces[workspace].timeout.value;
      }
      if latest.value + timeout > now {
        return;
      }
      shutdowns := shutdowns + [now];
    }

    /** patrol: the touch at the start, then ticks for as long as the run lasts. */
    method Run(start: int, touchable: nat, events: seq<Event>)
      requires shutdowns == []
      modifies this
      ensures shutdowns == Shutdowns(Touched(old(workspaces), start, touchable), events)
    {
      hide ShutsDown, Change;
      InitialTouch(start, touchable);
      ghost var touched := workspaces;
      for k := 0 to |events|
        invariant shutdowns + Shutdowns(workspaces, events[k..]) == Shutdowns(touched, events)
      {
        var e := events[k];
        ghost var log, here, rest := shutdowns, [], Shutdowns(Change(workspaces, e), events[k + 1..]);
        if e.Tick? && ShutsDown(workspaces, e.now) {
          here := [e.now];
        }
        assert events[k..][0] == e && events[k..][1..] == events[k + 1..];
        assert Shutdowns(workspaces, events[k..]) == here + rest;
        assert log + (here + rest) == (log + here) + rest;
        if e.Tick? {
          DoOnce(e.now);
        }
        assert shutdowns == log + here;
        workspaces := Change(workspaces, e);
      }
    }
  }

  lemma LatestUnique(ws: seq<Workspace>, i: int)
    requires IsLatest(ws, i)
    ensures forall j :: IsLatest(ws, j) ==> j == i
  {
  }

  // ---- when the machine is stopped ----

  /** Every auto-stop workspace has been inactive for the timeout of the most recently active one. */
  ghost predicate AllWaited(ws: seq<Workspace>, now: int) {
    exists i :: IsLatest(ws, i) && forall j :: 0 <= j < |ws| && Activity(ws[j]).Some? ==>
      Activity(ws[j]).value + TimeoutOf(ws[i]) <= now
  }

  lemma ShutdownWaits(ws: seq<Workspace>, now: int)
    requires ShutsDown(ws, now)
    ensures AllWaited(ws, now)
  {
    var i :| IsLatest(ws, i) && Activity(ws[i]).value + TimeoutOf(ws[i]) <= now;
    assert forall j :: 0 <= j < |ws| && Activity(ws[j]).Some? ==>
             Activity(ws[j]).value + TimeoutOf(ws[i]) <= now;
  }

  /** The workspaces as they are when event m happens. */
  function StateAt(ws: seq<Workspace>, events: seq<Event>, m: nat): seq<Workspace>
    requires m <= |events|
    decreases m
  {
    if m == 0 then ws else StateAt(Change(ws, events[0]), events[1..], m - 1)
  }

  /** In every run, every shutdown happens at a tick by which all auto-stop workspaces have waited. */
  lemma {:induction false} EveryShutdownWaited(ws: seq<Workspace>, events: seq<Event>, k: nat)
    requires k < |Shutdowns(ws, events)|
    ensures exists m: nat :: m < |events| && events[m] == Tick(Shutdowns(ws, events)[k])
              && AllWaited(StateAt(ws, events, m), Shutdowns(ws, events)[k])
    decreases |events|
  {
    var e, log := events[0], Shutdowns(ws, events);
    var here := if e.Tick? && ShutsDown(ws, e.now) then [e.now] else [];
    if k < |here| {
      ShutdownWaits(ws, e.now);
      assert events[0] == Tick(log[k]) && AllWaited(StateAt(ws, events, 0), log[k]);
    } else {
      EveryShutdownWaited(Change(ws, e), events[1..], k - |here|);
      var t := Shutdowns(Change(ws, e), events[1..])[k - |here|];
      var m: nat :| m < |events[1..]| && events[1..][m] == Tick(t)
                    && AllWaited(StateAt(Change(ws, e), events[1..], m), t);
      assert log[k] == t && events[m + 1] == Tick(t);
      assert StateAt(ws, events, m + 1) == StateAt(Change(ws, e), events[1..], m);
    }
  }

  predicate CommonTimeout(ws: seq<Workspace>, timeout: int) {
    forall j :: 0 <= j < |ws| && Activity(ws[j]).Some? ==> TimeoutOf(ws[j]) == timeout
  }

  lemma {:induction false} LatestExists(ws: seq<Workspace>)
    requires exists j :: 0 <= j < |ws| && Activity(ws[j]).Some?
    ensures exists i :: IsLatest(ws, i)
  {
    var n := |ws| - 1;
    var init := ws[..n];
    if k :| 0 <= k < n && Activity(ws[k]).Some? {
      assert Activity(init[k]).Some?;
      LatestExists(init);
      var i :| IsLatest(init, i);
      assert forall j :: 0 <= j < n ==> init[j] == ws[j];
      if Activity(ws[n]).Some? && Activity(ws[n]).value > Activity(ws[i]).value {
        assert IsLatest(ws, n);
      } else {
        assert IsLatest(ws, i);
      }
    } else {
      assert IsLatest(ws, n);
    }
  }

  /** The latest activity of all. */
  ghost predicate LastActivity(ws: seq<Workspace>, last: int) {
    exists i :: IsLatest(ws, i) && Activity(ws[i]).value == last
  }

  lemma ShutdownAt(ws: seq<Workspace>, timeout: int, last: int, now: int)
    requires CommonTimeout(ws, timeout) && LastActivity(ws, last)
    ensures ShutsDown(ws, now) <==> last + timeout <= now
  {
    var i :| IsLatest(ws, i) && Activity(ws[i]).value == last;
    LatestUnique(ws, i);
  }

  predicate QuietTicks(events: seq<Event>) {
    && (forall k :: 0 <= k < |events| ==> events[k].Tick?)
    && (forall j, k :: 0 <= j < k < |events| ==> events[j].now < events[k].now)
  }

  function Times(events: seq<Event>): seq<int>
    requires QuietTicks(events)
  {
    seq(|events|, k requires 0 <= k < |events| => events[k].now)
  }

  /**
   With one timeout and no further activity the command runs at exactly the ticks at or after last
   activity + timeout: `first` is the first such tick, or the end of the run.
   */
  lemma {:induction false} QuietRun(ws: seq<Workspace>, events: seq<Event>, timeout: int, last: int, first: nat)
    requires CommonTimeout(ws, timeout) && LastActivity(ws, last) && QuietTicks(events)
    requires first <= |events|
    requires forall k :: 0 <= k < first ==> events[k].now < last + timeout
    requires first < |events| ==> events[first].now >= last + timeout
    ensures Shutdowns(ws, events) == Times(events)[first..]
    decreases |events|
  {
    if events != [] {
      ShutdownAt(ws, timeout, last, events[0].now);
      assert QuietTicks(events[1..]);
      assert Times(events) == [events[0].now] + Times(events[1..]);
      if first > 0 {
        QuietRun(ws, events[1..], timeout, last, first - 1);
      } else {
        QuietRun(ws, events[1..], timeout, last, 0);
      }
    }
  }

  // ---- never right after the start ----

  predicate AllSince(ws: seq<Workspace>, start: int) {
    forall j :: 0 <= j < |ws| ==> ws[j].mtime >= start
  }

  /** Nothing that happens later carries an older time. */
  predicate Later(e: Event, start: int) {
    (e.Touch? ==> e.now >= start) && (e.Appear? ==> e.w.mtime >= start)
  }

  /** Every timeout in the run is at least `least`. */
  predicate TimeoutsAtLeast(ws: seq<Workspace>, events: seq<Event>, least: int) {
    && (forall j :: 0 <= j < |ws| ==> TimeoutOf(ws[j]) >= least)
    && (forall k :: 0 <= k < |events| && events[k].Appear? ==> TimeoutOf(events[k].w) >= least)
  }

  lemma {:induction false} NoneBefore(ws: seq<Workspace>, events: seq<Event>, start: int, least: int)
    requires AllSince(ws, start) && TimeoutsAtLeast(ws, events, least)
    requires forall k :: 0 <= k < |events| ==> Later(events[k], start)
    ensures forall k :: 0 <= k < |Shutdowns(ws, events)| ==> Shutdowns(ws, events)[k] >= start + least
    decreases |events|
  {
    if events != [] {
      var e := events[0];
      assert Later(e, start) && (e.Appear? ==> TimeoutOf(e.w) >= least);
      assert TimeoutsAtLeast(Change(ws, e), events[1..], least);
      NoneBefore(Change(ws, e), events[1..], start, least);
    }
  }

  /**
   In every run that began with touching all workspaces, whatever is touched, busy, added or removed
   later, no shutdown comes before start + the smallest timeout.
   */
  lemma NeverBeforeStart(ws: seq<Workspace>, start: int, touchable: nat, events: seq<Event>, least: int)
    requires touchable >= |ws| && TimeoutsAtLeast(ws, events, least)
    requires forall k :: 0 <= k < |events| ==> Later(events[k], start)
    ensures var log := Shutdowns(Touched(ws, start, touchable), events);
            forall k :: 0 <= k < |log| ==> log[k] >= start + least
  {
    NoneBefore(Touched(ws, start, touchable), events, start, least);
  }

  // ---- one workspace ----

  /**
   A lone workspace is shut down exactly if its config can be read and has a shutdown command, and
   its last touch, twenty minutes more if it is busy, lies its timeout back, twenty minutes if it has
   none.
   */
  lemma ShutdownOfOne(w: Workspace, now: int)
    ensures ShutsDown([w], now) <==>
            && w.readable && w.hasShutdown && !w.statFails
            && w.mtime + (if w.busy then 1200 else 0) + (if w.timeout.Some? then w.timeout.value else 1200) <= now
  {
    var ws := [w];
    if ShutsDown(ws, now) {
      var i :| IsLatest(ws, i) && Activity(ws[i]).value + TimeoutOf(ws[i]) <= now;
      assert ws[i] == w;
    }
    if w.readable && w.hasShutdown && !w.statFails {
      assert IsLatest(ws, 0);
    }
  }

  /** Two workspaces: the one touched last decides, with its own timeout; the first if both are equal. */
  lemma ShutdownOfTwo(v: Workspace, w: Workspace, now: int)
    requires v.readable && v.hasShutdown && !v.statFails && w.readable && w.hasShutdown && !w.statFails
    ensures var later := if v.mtime + (if v.busy then 1200 else 0) >= w.mtime + (if w.busy then 1200 else 0)
                         then v else w;
            ShutsDown([v, w], now) <==> ShutsDown([later], now)
  {
    var ws := [v, w];
    var first := v.mtime + (if v.busy then 1200 else 0) >= w.mtime + (if w.busy then 1200 else 0);
    var k, later := if first then 0 else 1, if first then v else w;
    assert IsLatest(ws, k) && IsLatest([later], 0);
    LatestUnique(ws, k);
    LatestUnique([later], 0);
  }
}
