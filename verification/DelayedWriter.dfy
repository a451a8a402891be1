/** The stderr writer of pkg/inject/delayed_writer.go: it holds output back until Start. */
module DelayedWriter {

  /** The writer behind it. */
  class Sink {
    var data: string

    constructor ()
      ensures data == ""
    {
      data := "";
    }
  }

  class DelayedWriter {
    const writer: Sink?
    var started: bool
    var buffer: string

    /** What the writer behind held at the beginning, and everything written since. */
    ghost const initial: string
    ghost var written: string

    constructor (writer: Sink?)
      ensures Valid() && this.writer == writer && !started && written == ""
      ensures writer != null ==> initial == writer.data
    {
      this.writer := writer;
      started, buffer, written := false, "", "";
      initial := if writer == null then "" else writer.data;
    }

    /** Before Start nothing has reached the writer; afterwards everything has, once and in order. */
    ghost predicate Valid()
      reads this, writer
    {
      if writer == null then buffer == "" && !started
      else if started then buffer <= written && writer.data == initial + written
      else buffer == written && writer.data == initial
    }

    method Buffer() returns (b: string)
      requires Valid()
      ensures b == buffer && (writer != null && !started ==> b == written)
    {
      b := buffer;
    }

    method Start()
      requires Valid()
      modifies this, writer
      ensures Valid() && written == old(written) && started == (writer != null)
    {
      if writer == null {
        return;
      }
      if started {
        return;
      }
      started := true;
      if |buffer| == 0 {
        return;
      }
      writer.data := writer.data + buffer;
    }

    method Write(p: string) returns (n: nat)
      requires Valid()
      modifies this, writer
      ensures Valid() && started == old(started) && n == |p|
      ensures written == old(written) + if writer == null then "" else p
    {
      if writer == null {
        return |p|;
      }
      written := written + p;
      if started {
        writer.data := writer.data + p;
        assert initial + written == initial + old(written) + p;
      } else {
        buffer := buffer + p;
      }
      return |p|;
    }
  }

  // ---- every interleaving ----

  /** The mutex makes each call one step; a run is any sequence of calls. */
  datatype Call = CallStart | CallWrite(p: string)

  function AllWrites(calls: seq<Call>): string {
    if calls == [] then ""
    else
      var c := calls[|calls| - 1];
      AllWrites(calls[..|calls| - 1]) + if c.CallWrite? then c.p else ""
  }

  /** After any run the writer holds every write once, in order, if Start was among the calls, and nothing if not. */
  method Replay(w: DelayedWriter, calls: seq<Call>)
    requires w.Valid() && !w.started && w.written == ""
    modifies w, w.writer
    ensures w.Valid() && w.started == (w.writer != null && CallStart in calls)
    ensures w.writer != null ==>
              w.writer.data == w.initial + if CallStart in calls then AllWrites(calls) else ""
  {
    for k := 0 to |calls|
      invariant w.Valid()
      invariant w.writer != null ==> w.written == AllWrites(calls[..k])
      invariant w.started == (w.writer != null && CallStart in calls[..k])
    {
      assert calls[..k + 1] == calls[..k] + [calls[k]];
      match calls[k] {
        case CallStart => w.Start();
        case CallWrite(p) => var _ := w.Write(p);
      }
    }
    assert calls[..|calls|] == calls;
  }
}
