// RWSocket::Write and RWSocket::Send of cppnet/socket/rw_socket.cpp, over an
// operating system that takes any part of what it is offered.

module RWSockets {
  import opened Basics
  import opened Bytes
  import opened Streams
  import opened BufferQueues

  const MAX_WRITE_CACHE: nat := 1024 * 1024 * 4
  const LINUX_WRITE_BUFF_GET: nat := 4096

  /** One answer of writev: so many bytes taken, or an error. */
  datatype OsReturn = Wrote(n: nat) | WouldBlock | Broken

  datatype Outcome =
    | Drained        // all queued bytes are on the wire
    | Waiting        // the socket waits for a send event
    | Disconnected
    | Refused        // the cache is too long, nothing was queued
    | Orphan         // the library object is gone, nothing is sent

  /** Call i of writev took log[i]: the next bytes of the queue, as many as the system
      answered, of those offered; and that is the whole queue or 4096 bytes or more, but
      less than a block more. */
  ghost predicate Took(block: nat, queued: seq<Byte>, os: seq<OsReturn>, log: seq<seq<Byte>>, i: nat)
    requires i < |log|
  {
    var done := |Flat(log[..i])|;
    && i < |os| && os[i].Wrote? && done < |queued| && done + |log[i]| <= |queued|
    && |log[i]| <= os[i].n && log[i] == queued[done..done + |log[i]|]
    && (|log[i]| == os[i].n || done + |log[i]| == |queued| || 4096 <= |log[i]|)
    && |log[i]| < 4096 + block
  }

  ghost predicate AllTook(block: nat, queued: seq<Byte>, os: seq<OsReturn>, log: seq<seq<Byte>>) {
    forall i :: 0 <= i < |log| ==> Took(block, queued, os, log, i)
  }

  /** What Send does to a queue, given what writev answers: `log` is what the calls took,
      and it ends when nothing is left, or at the first answer that is an error. */
  ghost predicate Sends(block: nat, queued: seq<Byte>, base: bool, os: seq<OsReturn>, outcome: Outcome, log: seq<seq<Byte>>, left: seq<Byte>) {
    if !base then outcome == Orphan && log == [] && left == queued
    else
      && AllTook(block, queued, os, log) && queued == Flat(log) + left
      && (outcome == Drained <==> left == [])
      && match outcome
         case Drained => true
         case Waiting => |log| == |os| || (|log| < |os| && os[|log|] == WouldBlock)
         case Disconnected => |log| < |os| && os[|log|] == Broken
         case _ => false
  }

  /** What Write does: no byte goes out past bytes that wait, and over 4 MiB may not wait. */
  ghost predicate Writes(block: nat, queued: seq<Byte>, src: seq<Byte>, base: bool, os: seq<OsReturn>, outcome: Outcome, log: seq<seq<Byte>>, left: seq<Byte>) {
    if |queued| > 4194304 then outcome == Refused && log == [] && left == queued
    else if queued != [] then outcome == Waiting && log == [] && left == queued + src
    else Sends(block, src, base, os, outcome, log, left)
  }

  lemma {:induction false} TookMore(block: nat, queued: seq<Byte>, os: seq<OsReturn>, log: seq<seq<Byte>>, left: seq<Byte>, n: nat)
    requires AllTook(block, queued, os, log) && queued == Flat(log) + left && left != [] && n <= |left|
    requires |log| < |os| && os[|log|].Wrote? && n <= os[|log|].n
    requires (n == os[|log|].n || n == |left| || 4096 <= n) && n < 4096 + block
    ensures AllTook(block, queued, os, log + [left[..n]]) && queued == Flat(log + [left[..n]]) + left[n..]
  {
    hide Flat;
    var more := log + [left[..n]];
    FlatCat(log, [left[..n]]);
    FlatOne(left[..n]);
    assert Flat(log) + left[..n] + left[n..] == Flat(log) + left;
    assert more[..|log|] == log;
    forall i | 0 <= i < |more|
      ensures Took(block, queued, os, more, i)
    {
      if i < |log| {
        assert Took(block, queued, os, log, i);
        assert more[..i] == log[..i];
      }
    }
  }

  class RWSocket {
    const writeBuffer: BufferQueue

    ghost predicate Valid()
      reads this, writeBuffer, writeBuffer.list, Memory(writeBuffer.list)
    {
      writeBuffer.Valid()
    }

    ghost function Queued(): seq<Byte>
      requires Valid()
      reads this, writeBuffer, writeBuffer.list, Memory(writeBuffer.list)
    {
      writeBuffer.Stream()
    }

    constructor (blockSize: nat)
      requires 0 < blockSize
      ensures Valid() && Queued() == [] && fresh(writeBuffer) && writeBuffer.blockSize == blockSize && writeBuffer.list == []
    {
      writeBuffer := new BufferQueue(blockSize);
    }

    /** Send all that is queued, as far as the system takes it; `os` is what its writev
        calls answer, and where it ends the system blocks. */
    method Send(base: bool, os: seq<OsReturn>) returns (outcome: Outcome, log: seq<seq<Byte>>)
      requires Valid()
      modifies writeBuffer, writeBuffer.list
      ensures Valid() && Sends(writeBuffer.blockSize, old(Queued()), base, os, outcome, log, Queued())
      ensures forall k :: 0 <= k < |writeBuffer.list| ==> writeBuffer.list[k] in old(writeBuffer.list)
    {
      hide BufferQueue.Shape, BufferQueue.Stream, Gather, Flat, Took, AllTook;
      log := [];
      if !base {
        return Orphan, [];
      }
      NoneTook(writeBuffer.blockSize, Queued(), os);
      while writeBuffer.canReadLength > 0
        invariant Valid() && |log| <= |os|
        invariant AllTook(writeBuffer.blockSize, old(Queued()), os, log) && old(Queued()) == Flat(log) + Queued()
        invariant forall k :: 0 <= k < |writeBuffer.list| ==> writeBuffer.list[k] in old(writeBuffer.list)
        decreases |os| - |log|
      {
        var spans, offered, blocks := writeBuffer.GetUseMemoryBlock(LINUX_WRITE_BUFF_GET);
        if |log| == |os| {
          return Waiting, log;
        }
        match os[|log|]
        case Wrote(taken) =>
          var n := Min(taken, offered);
          var bytes := CopySpans(spans);
          assert bytes[..n] == Queued()[..n];
          TookMore(writeBuffer.blockSize, old(Queued()), os, log, Queued(), n);
          log := log + [bytes[..n]];
          var moved := writeBuffer.MoveReadPt(n);
        case WouldBlock =>
          return Waiting, log;
        case Broken =>
          return Disconnected, log;
      }
      outcome := Drained;
    }

    method Write(src: seq<Byte>, base: bool, os: seq<OsReturn>) returns (outcome: Outcome, log: seq<seq<Byte>>)
      requires Valid()
      modifies writeBuffer, writeBuffer.list, Memory(writeBuffer.list)
      ensures Valid() && Writes(writeBuffer.blockSize, old(Queued()), src, base, os, outcome, log, Queued())
      ensures forall k :: 0 <= k < |writeBuffer.list| ==>
                writeBuffer.list[k] in old(writeBuffer.list) || (fresh(writeBuffer.list[k]) && fresh(writeBuffer.list[k].data))
    {
      hide BufferQueue.Shape, BufferQueue.Stream, Sends;
      if writeBuffer.canReadLength > 0 {
        if writeBuffer.canReadLength > MAX_WRITE_CACHE {
          return Refused, [];
        }
        var n := writeBuffer.Write(src);
        return Waiting, [];
      } else {
        var n := writeBuffer.Write(src);
        assert old(Queued()) + src == src;
        outcome, log := Send(base, os);
      }
    }
  }

  lemma {:induction false} NoneTook(block: nat, queued: seq<Byte>, os: seq<OsReturn>)
    ensures AllTook(block, queued, os, []) && queued == Flat([]) + queued
  {
  }

  // Whole runs.

  datatype Event =
    | AppWrite(src: seq<Byte>, base: bool, os: seq<OsReturn>)
    | Writable(alive: bool, answers: seq<OsReturn>)

  /** What became of an event: its outcome, and the bytes its calls of writev took. */
  datatype Report = Report(outcome: Outcome, log: seq<seq<Byte>>)

  /** The buffer the event adds to the queue. */
  function Added(e: Event, r: Report): seq<Byte> {
    if e.AppWrite? && r.outcome != Refused then e.src else []
  }

  ghost predicate Happens(block: nat, queued: seq<Byte>, e: Event, r: Report, left: seq<Byte>) {
    match e
    case AppWrite(src, base, os) => Writes(block, queued, src, base, os, r.outcome, r.log, left)
    case Writable(alive, answers) => Sends(block, queued, alive, answers, r.outcome, r.log, left)
  }

  /** The buffers that Write did not refuse, one after the other. */
  function Accepted(events: seq<Event>, reports: seq<Report>): seq<Byte>
    requires |events| == |reports|
  {
    if events == [] then []
    else
      var n := |events| - 1;
      Accepted(events[..n], reports[..n]) + Added(events[n], reports[n])
  }

  /** The bytes that writev took, one call after the other. */
  function OnWire(reports: seq<Report>): seq<Byte> {
    if reports == [] then []
    else
      var n := |reports| - 1;
      OnWire(reports[..n]) + Flat(reports[n].log)
  }

  /** An event moves bytes from the front of the queue to the wire. */
  lemma {:induction false} Conserved(block: nat, queued: seq<Byte>, e: Event, r: Report, left: seq<Byte>)
    requires Happens(block, queued, e, r, left)
    ensures queued + Added(e, r) == Flat(r.log) + left
  {
    FlatNothing<Byte>();
    assert queued + [] == queued;
  }

  function Drop(s: seq<Byte>, n: nat): seq<Byte> {
    if n <= |s| then s[n..] else []
  }

  /** The bytes that wait after the events. */
  function Waits(events: seq<Event>, reports: seq<Report>): seq<Byte>
    requires |events| == |reports|
  {
    if events == [] then []
    else
      var n := |events| - 1;
      Drop(Waits(events[..n], reports[..n]) + Added(events[n], reports[n]), |Flat(reports[n].log)|)
  }

  /** Every event did what the answers of writev, and the queue at that time, make it do. */
  ghost predicate AllHappen(block: nat, events: seq<Event>, reports: seq<Report>) {
    |events| == |reports|
    && forall k :: 0 <= k < |events| ==>
         Happens(block, Waits(events[..k], reports[..k]), events[k], reports[k], Waits(events[..k + 1], reports[..k + 1]))
  }

  lemma {:induction false} WaitsOn(block: nat, events: seq<Event>, reports: seq<Report>, i: nat, r: Report, left: seq<Byte>)
    requires i < |events| && |reports| == i && Happens(block, Waits(events[..i], reports), events[i], r, left)
    ensures Waits(events[..i + 1], reports + [r]) == left
    ensures OnWire(reports + [r]) == OnWire(reports) + Flat(r.log)
  {
    hide Happens, Flat, Added;
    Conserved(block, Waits(events[..i], reports), events[i], r, left);
    assert events[..i + 1][..i] == events[..i] && (reports + [r])[..i] == reports;
    assert (Flat(r.log) + left)[|Flat(r.log)|..] == left;
  }

  lemma {:induction false} OneMore(block: nat, events: seq<Event>, reports: seq<Report>, i: nat, r: Report, left: seq<Byte>)
    requires i < |events| && AllHappen(block, events[..i], reports) && Happens(block, Waits(events[..i], reports), events[i], r, left)
    ensures AllHappen(block, events[..i + 1], reports + [r]) && Waits(events[..i + 1], reports + [r]) == left
    ensures OnWire(reports + [r]) == OnWire(reports) + Flat(r.log)
  {
    hide Happens, Flat, Waits, OnWire;
    var more, all := events[..i + 1], reports + [r];
    WaitsOn(block, events, reports, i, r, left);
    forall k | 0 <= k < |more|
      ensures Happens(block, Waits(more[..k], all[..k]), more[k], all[k], Waits(more[..k + 1], all[..k + 1]))
    {
      if k < i {
        assert more[..k] == events[..i][..k] && all[..k] == reports[..k];
        assert more[..k + 1] == events[..i][..k + 1] && all[..k + 1] == reports[..k + 1];
      } else {
        assert more[..k] == events[..i] && all[..k] == reports;
        assert more[..k + 1] == more && all[..k + 1] == all;
      }
    }
  }

  /** Whatever the application writes and the system takes, in any order: what is sent is
      what the calls of writev took. */
  method Run(blockSize: nat, events: seq<Event>) returns (reports: seq<Report>, sent: seq<Byte>, queued: seq<Byte>)
    requires 0 < blockSize
    ensures AllHappen(blockSize, events, reports) && sent == OnWire(reports) && queued == Waits(events, reports)
  {
    hide BufferQueue.Shape, BufferQueue.Stream, Happens, AllHappen, Waits, OnWire;
    var s := new RWSocket(blockSize);
    reports, sent := [], [];
    NoneHappen(blockSize, events);
    for i := 0 to |events|
      invariant s.Valid() && s.writeBuffer.blockSize == blockSize && fresh(s) && fresh(s.writeBuffer)
      invariant forall k :: 0 <= k < |s.writeBuffer.list| ==> fresh(s.writeBuffer.list[k]) && fresh(s.writeBuffer.list[k].data)
      invariant |reports| == i && AllHappen(blockSize, events[..i], reports)
      invariant sent == OnWire(reports) && s.Queued() == Waits(events[..i], reports)
    {
      var r := Do(s, events[i]);
      OneMore(blockSize, events, reports, i, r, s.Queued());
      reports := reports + [r];
      sent := sent + Flat(r.log);
    }
    assert events[..|events|] == events;
    queued := s.writeBuffer.ReadNotMovePt(s.writeBuffer.canReadLength);
  }

  method Do(s: RWSocket, e: Event) returns (r: Report)
    requires s.Valid()
    modifies s.writeBuffer, s.writeBuffer.list, Memory(s.writeBuffer.list)
    ensures s.Valid() && Happens(s.writeBuffer.blockSize, old(s.Queued()), e, r, s.Queued())
    ensures forall k :: 0 <= k < |s.writeBuffer.list| ==>
              || s.writeBuffer.list[k] in old(s.writeBuffer.list)
              || (fresh(s.writeBuffer.list[k]) && fresh(s.writeBuffer.list[k].data))
  {
    hide BufferQueue.Shape, BufferQueue.Stream, Sends, Writes;
    var outcome, log;
    match e {
      case AppWrite(src, base, os) => outcome, log := s.Write(src, base, os);
      case Writable(alive, answers) => outcome, log := s.Send(alive, answers);
    }
    r := Report(outcome, log);
  }

  lemma {:induction false} NoneHappen(block: nat, events: seq<Event>)
    ensures AllHappen(block, events[..0], []) && Waits(events[..0], []) == [] && OnWire([]) == []
  {
  }

  /** In every such run the bytes on the wire followed by those that wait are the buffers
      that were accepted: none is lost, doubled or overtaken. */
  lemma {:induction false} WireConserved(block: nat, events: seq<Event>, reports: seq<Report>)
    requires |events| == |reports| && AllHappen(block, events, reports)
    ensures OnWire(reports) + Waits(events, reports) == Accepted(events, reports)
  {
    hide Happens, Flat, AllHappen, Added;
    if events != [] {
      var n := |events| - 1;
      var before, said := events[..n], reports[..n];
      Earlier(block, events, reports);
      WireConserved(block, before, said);
      var q, e, r, left := Waits(before, said), events[n], reports[n], Waits(events, reports);
      LastHappens(block, events, reports);
      Conserved(block, q, e, r, left);
      Regrouped(OnWire(said), Flat(r.log), left, q, Added(e, r));
    }
  }

  lemma {:induction false} LastHappens(block: nat, events: seq<Event>, reports: seq<Report>)
    requires events != [] && AllHappen(block, events, reports)
    ensures |reports| == |events|
    ensures var n := |events| - 1;
      Happens(block, Waits(events[..n], reports[..n]), events[n], reports[n], Waits(events, reports))
  {
    hide Happens, Waits;
    var n := |events| - 1;
    assert events[..n + 1] == events && reports[..n + 1] == reports;
  }

  lemma {:induction false} Earlier(block: nat, events: seq<Event>, reports: seq<Report>)
    requires events != [] && AllHappen(block, events, reports)
    ensures |reports| == |events| && AllHappen(block, events[..|events| - 1], reports[..|events| - 1])
  {
    hide Happens, Waits;
    var n := |events| - 1;
    var before, said := events[..n], reports[..n];
    forall k | 0 <= k < n
      ensures Happens(block, Waits(before[..k], said[..k]), before[k], said[k], Waits(before[..k + 1], said[..k + 1]))
    {
      assert before[..k] == events[..k] && said[..k] == reports[..k];
      assert before[..k + 1] == events[..k + 1] && said[..k + 1] == reports[..k + 1];
    }
  }
}
