/** Port reconciliation, pkg/netstat/watcher.go: forward what listens, stop what no longer does. */
module Watcher {
  import opened Text

  type Port = string

  datatype Call = Forward(port: Port) | StopForward(port: Port)

  /** The last call for a port was Forward. */
  predicate On(log: seq<Call>, port: Port) {
    if log == [] then false
    else
      var c := log[|log| - 1];
      if c.port == port then c.Forward? else On(log[..|log| - 1], port)
  }

  /** Per port, Forward and StopForward take turns, beginning with Forward. */
  predicate Alternating(log: seq<Call>) {
    forall k :: 0 <= k < |log| ==> (log[k].Forward? <==> !On(log[..k], log[k].port))
  }

  lemma Append(log: seq<Call>, c: Call)
    ensures forall p :: On(log + [c], p) <==> if p == c.port then c.Forward? else On(log, p)
    ensures Alternating(log) && (c.Forward? <==> !On(log, c.port)) ==> Alternating(log + [c])
  {
    var log' := log + [c];
    assert log'[..|log|] == log;
    if Alternating(log) && (c.Forward? <==> !On(log, c.port)) {
      forall k | 0 <= k < |log'| ensures log'[k].Forward? <==> !On(log'[..k], log'[k].port) {
        if k < |log| {
          assert log'[..k] == log[..k];
        }
      }
    }
  }

  /** The other side: which forwards exist, and the calls that were made. */
  class Forwarder {
    var active: set<Port>
    var log: seq<Call>

    constructor ()
      ensures active == {} && log == []
    {
      active, log := {}, [];
    }

    /** `faults` says which calls fail, and whether the port is active afterwards. */
    method Do(c: Call, faults: map<Port, bool>) returns (ok: bool)
      modifies this
      ensures ok <==> c.port !in faults
      ensures log == old(log) + [c]
      ensures active == if (if ok then c.Forward? else faults[c.port]) then old(active) + {c.port}
                        else old(active) - {c.port}
    {
      log := log + [c];
      ok := c.port !in faults;
      var on := c.Forward?;
      if !ok {
        on := faults[c.port];
      }
      active := if on then active + {c.port} else active - {c.port};
    }
  }

  /** One tick: the ports findPorts returns, None if it fails, and the faults of the forwarder. */
  datatype Tick = Tick(ports: Option<set<Port>>, faults: map<Port, bool>)

  class Watcher {
    const forwarder: Forwarder
    var forwardedPorts: set<Port>

    constructor (forwarder: Forwarder)
      ensures this.forwarder == forwarder && forwardedPorts == {}
    {
      this.forwarder := forwarder;
      forwardedPorts := {};
    }

    /** The bookkeeping agrees with the forwarder, and the calls so far took turns. */
    ghost predicate Healthy()
      reads this, forwarder
    {
      && forwarder.active == forwardedPorts
      && (forall p :: On(forwarder.log, p) <==> p in forwarder.active)
      && Alternating(forwarder.log)
    }

    /** One of the two loops of runOnce: the same call for every port of a set, in any order. */
    method ForAll(ports: set<Port>, forward: bool, faults: map<Port, bool>) returns (ok: bool)
      modifies forwarder
      ensures ok <==> ports !! faults.Keys
      ensures ok ==>
                forwarder.active == if forward then old(forwarder.active) + ports else old(forwarder.active) - ports
      ensures forall p :: p !in ports ==> (p in forwarder.active <==> p in old(forwarder.active))
      ensures ok && (forall p :: On(old(forwarder.log), p) <==> p in old(forwarder.active))
              && Alternating(old(forwarder.log))
              && (if forward then ports !! old(forwarder.active) else ports <= old(forwarder.active)) ==>
                (forall p :: On(forwarder.log, p) <==> p in forwarder.active) && Alternating(forwarder.log)
    {
      var rest := ports;
      ghost var done: set<Port> := {};
      ghost var turns := (forall p :: On(forwarder.log, p) <==> p in forwarder.active)
                         && Alternating(forwarder.log)
                         && (if forward then ports !! forwarder.active else ports <= forwarder.active);
      while rest != {}
        invariant rest + done == ports && rest !! done && done !! faults.Keys
        invariant forwarder.active == if forward then old(forwarder.active) + done else old(forwarder.active) - done
        invariant turns ==> (forall p :: On(forwarder.log, p) <==> p in forwarder.active) && Alternating(forwarder.log)
        decreases rest
      {
        var port :| port in rest;
        var c := if forward then Forward(port) else StopForward(port);
        Append(forwarder.log, c);
        var fine := forwarder.Do(c, faults);
        if !fine {
          return false;
        }
        rest, done := rest - {port}, done + {port};
      }
      return true;
    }

    method RunOnce(t: Tick) returns (ok: bool)
      modifies this, forwarder
      ensures t.ports.None? ==>
                !ok && forwardedPorts == old(forwardedPorts) && forwarder.active == old(forwarder.active)
      ensures t.ports.Some? && t.faults == map[] ==> ok
      ensures ok ==>
                && forwardedPorts == t.ports.value
                && forwarder.active == Reconciled(old(forwarder.active), old(forwardedPorts), t.ports.value)
      ensures !ok && t.ports.Some? ==>
                && forwardedPorts == old(forwardedPorts)
                && forall p :: (p in old(forwardedPorts) <==> p in t.ports.value) ==>
                     (p in forwarder.active <==> p in old(forwarder.active))
      ensures old(Healthy()) && (ok || t.ports.None?) ==> Healthy()
    {
      if t.ports.None? {
        return false;
      }
      var newPorts := t.ports.value;
      ok := ForAll(forwardedPorts - newPorts, false, t.faults);
      if !ok {
        return;
      }
      ok := ForAll(newPorts - forwardedPorts, true, t.faults);
      if !ok {
        return;
      }
      forwardedPorts := newPorts;
    }

    /** A run without forwarder faults: after every tick exactly the last found ports are active. */
    method Run(ticks: seq<Tick>)
      requires Healthy() && forall k :: 0 <= k < |ticks| ==> ticks[k].faults == map[]
      modifies this, forwarder
      ensures Healthy() && forwarder.active == LastFound(old(forwardedPorts), ticks)
    {
      for k := 0 to |ticks|
        invariant Healthy() && forwardedPorts == LastFound(old(forwardedPorts), ticks[..k])
      {
        assert ticks[..k + 1][..k] == ticks[..k];
        var _ := RunOnce(ticks[k]);
      }
      assert ticks[..|ticks|] == ticks;
    }

    /** A tick that fails half way is repaired by the next one that finds the same ports. */
    method FailThenRepeat(first: Tick, ports: set<Port>)
      requires Healthy() && first.ports == Some(ports)
      modifies this, forwarder
      ensures forwarder.active == forwardedPorts == ports
    {
      ghost var before := forwardedPorts;
      var ok := RunOnce(first);
      ghost var after := forwarder.active;
      if !ok {
        RepairedExactly(before, after, ports);
      }
      ok := RunOnce(Tick(Some(ports), map[]));
    }
  }

  function LastFound(initial: set<Port>, ticks: seq<Tick>): set<Port> {
    if ticks == [] then initial
    else if ticks[|ticks| - 1].ports.Some? then ticks[|ticks| - 1].ports.value
    else LastFound(initial, ticks[..|ticks| - 1])
  }

  /** What a successful tick makes of the active forwards. */
  function Reconciled(active: set<Port>, known: set<Port>, found: set<Port>): set<Port> {
    (active - (known - found)) + (found - known)
  }

  /**
   After a failed tick the bookkeeping still holds the old ports `known` while `active` may differ.
   A successful tick then ends with exactly the found ports if and only if it makes a call for every
   port on which the two differ; other differences are never repaired.
   */
  lemma RepairedExactly(known: set<Port>, active: set<Port>, found: set<Port>)
    ensures Reconciled(active, known, found) == found <==>
            forall p :: p in known + active && !(p in known && p in active) ==> (p in known) != (p in found)
  {
    if Reconciled(active, known, found) == found {
      forall p | p in known + active && !(p in known && p in active) ensures (p in known) != (p in found) {
        assert p in Reconciled(active, known, found) <==> p in found;
      }
    }
  }
}
