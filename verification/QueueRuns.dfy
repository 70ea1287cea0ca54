// Any run of calls on a queue does what they do to one flat FIFO of bytes.

module QueueRuns {
  import opened Basics
  import opened Bytes
  import opened Streams
  import opened BufferBlocks
  import opened BufferQueues
  import opened ScatterGather

  datatype Call =
    | Write(src: seq<Byte>)
    | Read(len: nat)
    | ReadNotMovePt(len: nat)
    | MoveReadPt(len: nat)
    | Offer(size: nat)         // GetFreeMemoryBlock(size)
    | Fill(data: seq<Byte>)    // what fits of data stored through the spans last offered
    | Commit(len: nat)         // MoveWritePt(len)
    | Collect(maxSize: nat)    // GetUseMemoryBlock(maxSize), and what its spans hold
    | GetCanReadLength
    | Clear

  datatype Answer = Nothing | Count(n: nat) | Got(bytes: seq<Byte>)

  /** The queue of bytes; what lies in the room behind it; and how many bytes of that are
      offered, which is 0 when a call has moved the room. */
  datatype State = State(stream: seq<Byte>, room: seq<Byte>, offered: nat)

  const EMPTY := State([], [], 0)

  /** The calls that leave everything as it is. */
  predicate Looks(call: Call) {
    call.ReadNotMovePt? || call.Collect? || call.GetCanReadLength?
  }

  /** What a call may answer and do, with blocks of the given size. Less than a block is
      offered beyond the size asked for, or collected beyond the maximum; just how much, and
      what lies in the room when a call has moved it, depends on where the blocks end. */
  predicate Allowed(block: nat, s: State, call: Call, a: Answer, t: State) {
    match call
    case Write(src) => a == Count(|src|) && t.stream == s.stream + src && t.offered == 0
    case Read(len) =>
      var n := Min(len, |s.stream|);
      a == Got(s.stream[..n]) && t.stream == s.stream[n..] && t.offered == 0
    case ReadNotMovePt(len) => a == Got(s.stream[..Min(len, |s.stream|)]) && t == s
    case MoveReadPt(len) =>
      var n := Min(len, |s.stream|);
      a == Count(n) && t.stream == s.stream[n..] && t.offered == 0
    case Offer(size) =>
      && a == Count(t.offered) && size <= t.offered <= |t.room| && t.stream == s.stream && s.room <= t.room
      && (size > 0 ==> t.offered < size + block)
      && (size == 0 ==> t.offered == |t.room| && (t.room == s.room || (s.room == [] && |t.room| == block)))
      && (t.room != s.room ==> t.offered == |t.room|)
    case Fill(data) =>
      var n := Min(|data|, s.offered);
      && a == Count(n) && t.stream == s.stream && t.offered == s.offered <= |t.room|
      && t.room[..n] == data[..n]
    case Commit(len) =>
      var n := Min(len, |s.room|);
      a == Count(n) && t == State(s.stream + s.room[..n], s.room[n..], 0)
    case Collect(maxSize) =>
      && a.Got? && a.bytes <= s.stream && (a.bytes != s.stream ==> 0 < maxSize <= |a.bytes|)
      && (0 < maxSize ==> |a.bytes| < maxSize + block)
      && t == s
    case GetCanReadLength => a == Count(|s.stream|) && t == s
    case Clear => a == Nothing && t == EMPTY
  }

  /** Every answer and every state is one that a flat FIFO of bytes has. */
  ghost predicate AsFifo(block: nat, calls: seq<Call>, answers: seq<Answer>, states: seq<State>) {
    && |answers| == |calls| && |states| == |calls| + 1 && states[0] == EMPTY
    && forall k :: 0 <= k < |calls| ==> Allowed(block, states[k], calls[k], answers[k], states[k + 1])
  }

  ghost function StateOf(q: BufferQueue, offered: nat): State
    requires q.Valid()
    reads q, q.list, Memory(q.list)
  {
    State(q.Stream(), q.Free(), offered)
  }

  /** The spans are still those of the first bytes of the room. */
  ghost predicate Current(q: BufferQueue, spans: seq<Iovec>, offered: nat, upto: nat)
    requires q.Valid()
    reads q, q.list, Memory(q.list)
  {
    offered > 0 ==> q.Offered(spans, offered, upto)
  }

  method Store(q: BufferQueue, spans: seq<Iovec>, offered: nat, ghost upto: nat, data: seq<Byte>)
    requires q.Valid() && q.Offered(spans, offered, upto) && |data| <= offered
    modifies Memory(q.list)
    ensures q.Valid() && q.Stream() == old(q.Stream()) && q.Offered(spans, offered, upto)
    ensures |data| <= offered <= |q.Free()| && q.Free()[..|data|] == data
  {
    hide BufferQueue.Shape, BufferQueue.Stream, BufferQueue.Free, BufferQueue.Offered;
    Deliver(q, spans, offered, upto, data);
    OfferFits(q, spans, offered, upto);
  }

  method DoOffer(q: BufferQueue, size: nat, ghost before: nat) returns (spans: seq<Iovec>, offered: nat, ghost upto: nat)
    requires q.Valid()
    modifies q
    ensures q.Valid() && Current(q, spans, offered, upto)
    ensures Allowed(q.blockSize, old(StateOf(q, before)), Offer(size), Count(offered), StateOf(q, offered))
    ensures forall k :: 0 <= k < |q.list| ==> q.list[k] in old(q.list) || (fresh(q.list[k]) && fresh(q.list[k].data))
  {
    hide BufferQueue.Shape, BufferQueue.Stream, BufferQueue.Free, BufferQueue.Offered;
    q.NoRoom();
    spans, offered, upto := q.GetFreeMemoryBlock(size);
    OfferFits(q, spans, offered, upto);
  }

  /** The calls that only look. */
  method Look(q: BufferQueue, call: Call, ghost offered: nat) returns (a: Answer)
    requires q.Valid() && Looks(call)
    ensures Allowed(q.blockSize, StateOf(q, offered), call, a, StateOf(q, offered))
  {
    hide BufferQueue.Shape, BufferQueue.Stream, BufferQueue.Free;
    match call
    case ReadNotMovePt(len) =>
      var got := q.ReadNotMovePt(len);
      a := Got(got);
    case Collect(maxSize) =>
      var used, n, blocks := q.GetUseMemoryBlock(maxSize);
      var got := CopySpans(used);
      a := Got(got);
    case GetCanReadLength =>
      a := Count(q.canReadLength);
  }

  /** The calls that read bytes off, or drop them. */
  method Take(q: BufferQueue, call: Call, ghost offered: nat) returns (a: Answer)
    requires q.Valid() && (call.Read? || call.MoveReadPt? || call.Clear?)
    modifies q, q.list
    ensures q.Valid() && Allowed(q.blockSize, old(StateOf(q, offered)), call, a, StateOf(q, 0))
    ensures forall k :: 0 <= k < |q.list| ==> q.list[k] in old(q.list)
  {
    hide BufferQueue.Shape, BufferQueue.Stream, BufferQueue.Free;
    match call
    case Read(len) =>
      var got := q.Read(len);
      a := Got(got);
    case MoveReadPt(len) =>
      var n := q.MoveReadPt(len);
      a := Count(n);
    case Clear =>
      q.Clear();
      NoRoomLeft(q);
      a := Nothing;
  }

  /** The calls that put bytes in. */
  method Put(q: BufferQueue, call: Call, ghost offered: nat) returns (a: Answer)
    requires q.Valid() && (call.Write? || call.Commit?)
    modifies q, q.list, Memory(q.list)
    ensures q.Valid() && Allowed(q.blockSize, old(StateOf(q, offered)), call, a, StateOf(q, 0))
    ensures forall k :: 0 <= k < |q.list| ==> q.list[k] in old(q.list) || (fresh(q.list[k]) && fresh(q.list[k].data))
  {
    hide BufferQueue.Shape, BufferQueue.Stream, BufferQueue.Free;
    var n;
    if call.Write? {
      n := q.Write(call.src);
      assert forall k :: 0 <= k < |old(q.list)| ==> q.list[k] == old(q.list)[k];
    } else {
      n := q.MoveWritePt(call.len);
    }
    a := Count(n);
  }

  method DoFill(q: BufferQueue, data: seq<Byte>, spans: seq<Iovec>, offered: nat, ghost upto: nat) returns (n: nat)
    requires q.Valid() && Current(q, spans, offered, upto)
    modifies Memory(q.list)
    ensures q.Valid() && Current(q, spans, offered, upto)
    ensures Allowed(q.blockSize, old(StateOf(q, offered)), Fill(data), Count(n), StateOf(q, offered))
  {
    hide BufferQueue.Shape, BufferQueue.Stream, BufferQueue.Free, BufferQueue.Offered;
    n := Min(|data|, offered);
    if offered > 0 {
      Store(q, spans, offered, upto, data[..n]);
    }
  }

  method Do(q: BufferQueue, call: Call, spans: seq<Iovec>, offered: nat, ghost upto: nat)
    returns (a: Answer, spans': seq<Iovec>, offered': nat, ghost upto': nat)
    requires q.Valid() && Current(q, spans, offered, upto)
    modifies q, q.list, Memory(q.list)
    ensures q.Valid() && Current(q, spans', offered', upto')
    ensures Allowed(q.blockSize, old(StateOf(q, offered)), call, a, StateOf(q, offered'))
    ensures forall k :: 0 <= k < |q.list| ==> q.list[k] in old(q.list) || (fresh(q.list[k]) && fresh(q.list[k].data))
  {
    hide BufferQueue.Shape, BufferQueue.Stream, BufferQueue.Free, BufferQueue.Offered, Allowed, Current, StateOf;
    spans', offered', upto' := spans, offered, upto;
    if Looks(call) {
      a := Look(q, call, offered);
    } else if call.Offer? {
      spans', offered', upto' := DoOffer(q, call.size, offered);
      a := Count(offered');
    } else if call.Fill? {
      var n := DoFill(q, call.data, spans, offered, upto);
      a := Count(n);
    } else {
      offered' := 0;
      if call.Write? || call.Commit? {
        a := Put(q, call, offered);
      } else {
        a := Take(q, call, offered);
      }
      NotOffered(q, spans, upto);
    }
  }

  lemma OfferFits(q: BufferQueue, spans: seq<Iovec>, offered: nat, upto: nat)
    requires q.Shape() && q.Offered(spans, offered, upto)
    ensures offered <= |q.Free()| && (upto == |q.list| ==> offered == |q.Free()|)
  {
    hide BufferQueue.Shape, BufferQueue.Free, BufferQueue.Offered, Gather, TailOf, Flat;
    q.OfferedEnds(spans, offered, upto);
    q.AllSound();
    CutEnds(q.Free(), Gather(spans), TailOf(RoomList(q.list), upto));
    TailEnds(RoomList(q.list));
  }

  lemma NoRoomLeft(q: BufferQueue)
    requires q.Shape() && q.list == []
    ensures q.Free() == []
  {
  }

  /** Any calls, in any order, on blocks of any size. */
  method Run(blockSize: nat, calls: seq<Call>) returns (answers: seq<Answer>, left: seq<Byte>, ghost states: seq<State>)
    requires 0 < blockSize
    ensures AsFifo(blockSize, calls, answers, states) && left == states[|calls|].stream
  {
    hide BufferQueue.Shape, BufferQueue.Stream, BufferQueue.Free, Current, Allowed;
    var q := new BufferQueue(blockSize);
    NoRoomLeft(q);
    answers, states := [], [EMPTY];
    var spans: seq<Iovec>, offered := [], 0;
    ghost var upto := 0;
    NotOffered(q, spans, upto);
    for i := 0 to |calls|
      invariant q.Valid() && q.blockSize == blockSize && fresh(q) && (forall k :: 0 <= k < |q.list| ==> fresh(q.list[k]) && fresh(q.list[k].data))
      invariant Current(q, spans, offered, upto)
      invariant AsFifo(blockSize, calls[..i], answers, states) && states[i] == StateOf(q, offered)
    {
      assert forall m :: m in Memory(q.list) ==> fresh(m);
      var a;
      a, spans, offered, upto := Do(q, calls[i], spans, offered, upto);
      OneMore(blockSize, calls, answers, states, i, a, StateOf(q, offered));
      answers, states := answers + [a], states + [StateOf(q, offered)];
    }
    assert calls[..|calls|] == calls;
    left := q.ReadNotMovePt(q.canReadLength);
  }

  lemma NotOffered(q: BufferQueue, spans: seq<Iovec>, upto: nat)
    requires q.Valid()
    ensures Current(q, spans, 0, upto)
  {
  }

  lemma {:induction false} OneMore(block: nat, calls: seq<Call>, answers: seq<Answer>, states: seq<State>, i: nat, a: Answer, t: State)
    requires i < |calls| && AsFifo(block, calls[..i], answers, states) && Allowed(block, states[i], calls[i], a, t)
    ensures AsFifo(block, calls[..i + 1], answers + [a], states + [t])
  {
    hide Allowed;
    var more, all, after := calls[..i + 1], answers + [a], states + [t];
    forall k | 0 <= k < |more|
      ensures Allowed(block, after[k], more[k], all[k], after[k + 1])
    {
      if k < i {
        assert Allowed(block, states[k], calls[..i][k], answers[k], states[k + 1]);
      }
    }
  }

  /** Scatter and commit across calls: bytes that were stored through the spans, and then
      committed when nothing but looks came between, are appended to the stream. */
  lemma {:induction false} FilledIsCommitted(block: nat, calls: seq<Call>, answers: seq<Answer>, states: seq<State>, j: nat, k: nat, data: seq<Byte>)
    requires AsFifo(block, calls, answers, states) && j < k < |calls|
    requires calls[j] == Fill(data) && answers[j] == Count(|data|) && calls[k] == Commit(|data|)
    requires forall i :: j < i < k ==> Looks(calls[i])
    ensures states[k + 1].stream == states[j].stream + data
  {
    Unmoved(block, calls, answers, states, j + 1, k);
    assert Allowed(block, states[j], calls[j], answers[j], states[j + 1]);
    assert Allowed(block, states[k], calls[k], answers[k], states[k + 1]);
  }

  lemma {:induction false} Unmoved(block: nat, calls: seq<Call>, answers: seq<Answer>, states: seq<State>, j: nat, k: nat)
    requires AsFifo(block, calls, answers, states) && j <= k <= |calls|
    requires forall i :: j <= i < k ==> Looks(calls[i])
    ensures states[k] == states[j]
  {
    if j < k {
      Unmoved(block, calls, answers, states, j, k - 1);
      assert Allowed(block, states[k - 1], calls[k - 1], answers[k - 1], states[k]);
    }
  }

  /** The bytes a call puts in, and those it reads out. */
  function In(s: State, call: Call): seq<Byte> {
    match call
    case Write(src) => src
    case Commit(len) => s.room[..Min(len, |s.room|)]
    case _ => []
  }

  function Out(call: Call, a: Answer): seq<Byte> {
    if call.Read? && a.Got? then a.bytes else []
  }

  function Given(calls: seq<Call>, states: seq<State>): seq<Byte>
    requires |states| > |calls|
  {
    if calls == [] then []
    else
      var n := |calls| - 1;
      Given(calls[..n], states) + In(states[n], calls[n])
  }

  function Taken(calls: seq<Call>, answers: seq<Answer>): seq<Byte>
    requires |answers| >= |calls|
  {
    if calls == [] then []
    else
      var n := |calls| - 1;
      Taken(calls[..n], answers) + Out(calls[n], answers[n])
  }

  lemma {:induction false} Balanced(block: nat, s: State, call: Call, a: Answer, t: State)
    requires Allowed(block, s, call, a, t) && !call.MoveReadPt? && !call.Clear?
    ensures Out(call, a) + t.stream == s.stream + In(s, call)
  {
  }

  /** Where nothing is skipped or cleared, what was read out and then what is left is what
      was put in: each byte once, and in order. */
  lemma {:induction false} NothingLost(block: nat, calls: seq<Call>, answers: seq<Answer>, states: seq<State>, n: nat)
    requires AsFifo(block, calls, answers, states) && n <= |calls|
    requires forall k :: 0 <= k < |calls| ==> !calls[k].MoveReadPt? && !calls[k].Clear?
    ensures Taken(calls[..n], answers) + states[n].stream == Given(calls[..n], states)
  {
    hide Allowed, In, Out;
    if n > 0 {
      NothingLost(block, calls, answers, states, n - 1);
      assert calls[..n][..n - 1] == calls[..n - 1];
      Balanced(block, states[n - 1], calls[n - 1], answers[n - 1], states[n]);
      Regrouped(Taken(calls[..n - 1], answers), Out(calls[n - 1], answers[n - 1]), states[n].stream,
                states[n - 1].stream, In(states[n - 1], calls[n - 1]));
    }
  }
}
