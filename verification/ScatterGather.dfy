// Writing into a queue through the spans of GetFreeMemoryBlock, as readv does.

module ScatterGather {
  import opened Basics
  import opened Bytes
  import opened Streams
  import opened BufferBlocks
  import opened BufferQueues
  import Ring

  /** The spans of a block's free space do not meet and cover no content. */
  lemma BlockSpansFree(b: BufferBlock)
    requires b.Valid()
    ensures Apart(b.FreeSpans())
    ensures forall v, i :: v in b.FreeSpans() && v.Covers(b.data, i) ==> Ring.InRoom(b.total, b.read, b.write, b.canRead, i)
    ensures forall v :: v in b.FreeSpans() ==> v.mem == b.data
  {
  }

  /** Spans over different arrays, array by array. */
  ghost predicate Separate(spans: seq<seq<Iovec>>, mems: seq<array<Byte>>) {
    && |spans| == |mems|
    && (forall i, j :: 0 <= i < j < |mems| ==> mems[i] != mems[j])
    && (forall i :: 0 <= i < |spans| ==> Apart(spans[i]) && forall v :: v in spans[i] ==> v.mem == mems[i])
  }

  lemma {:induction false} FlatApart(spans: seq<seq<Iovec>>, mems: seq<array<Byte>>)
    requires Separate(spans, mems)
    ensures Apart(Flat(spans))
    ensures forall v :: v in Flat(spans) ==> exists i :: 0 <= i < |spans| && v in spans[i]
  {
    if |spans| > 0 {
      var s, t := spans[0], Flat(spans[1..]);
      FlatApart(spans[1..], mems[1..]);
      forall v | v in t
        ensures v.mem != mems[0]
      {
        var i :| 0 <= i < |spans[1..]| && v in spans[1..][i];
        assert v in spans[i + 1];
      }
      forall v | v in Flat(spans)
        ensures exists i :: 0 <= i < |spans| && v in spans[i]
      {
        if v in t {
          var i :| 0 <= i < |spans[1..]| && v in spans[1..][i];
          assert v in spans[i + 1];
        }
      }
      ApartCat(s, t);
    }
  }

  lemma ApartCat(s: seq<Iovec>, t: seq<Iovec>)
    requires Apart(s) && Apart(t)
    requires forall u, v :: u in s && v in t ==> u.mem != v.mem
    ensures Apart(s + t)
  {
  }

  ghost predicate FromBlocks(spans: seq<Iovec>, blocks: seq<BufferBlock>)
    requires Sound(blocks)
    reads blocks
  {
    forall v :: v in spans ==> exists j :: 0 <= j < |blocks| && v in blocks[j].FreeSpans()
  }

  lemma BlocksApart(blocks: seq<BufferBlock>, w: nat, k: nat)
    requires Sound(blocks) && w <= k <= |blocks|
    requires forall i, j :: 0 <= i < j < |blocks| ==> blocks[i].data != blocks[j].data
    ensures Apart(Flat(SpanList(blocks)[w..k])) && FromBlocks(Flat(SpanList(blocks)[w..k]), blocks)
  {
    hide BufferBlock.FreeSpans, BufferBlock.Valid, Apart, Flat;
    var free := SpanList(blocks)[w..k];
    var mems := seq(k - w, i requires 0 <= i < k - w => blocks[w + i].data);
    forall i | w <= i < k { BlockSpansFree(blocks[i]); }
    FlatApart(free, mems);
    forall v | v in Flat(free)
      ensures exists j :: 0 <= j < |blocks| && v in blocks[j].FreeSpans()
    {
      var i :| 0 <= i < |free| && v in free[i];
      assert v in blocks[w + i].FreeSpans();
    }
  }

  lemma CoveredInRoom(blocks: seq<BufferBlock>, spans: seq<Iovec>, i: nat, c: int)
    requires Sound(blocks) && FromBlocks(spans, blocks) && i < |blocks|
    requires forall i, j :: 0 <= i < j < |blocks| ==> blocks[i].data != blocks[j].data
    requires Covered(spans, blocks[i].data, c)
    ensures Ring.InRoom(blocks[i].total, blocks[i].read, blocks[i].write, blocks[i].canRead, c)
  {
    var v :| v in spans && v.Covers(blocks[i].data, c);
    var j :| 0 <= j < |blocks| && v in blocks[j].FreeSpans();
    BlockSpansFree(blocks[j]);
  }

  lemma OfferedApart(q: BufferQueue, spans: seq<Iovec>, curLen: nat, k: nat)
    requires q.Shape() && q.Offered(spans, curLen, k)
    ensures Sound(q.list) && Apart(spans) && FromBlocks(spans, q.list) && Mems(spans) <= Memory(q.list)
  {
    q.AllSound();
    BlocksApart(q.list, q.write, k);
    hide Flat, BufferBlock.FreeSpans;
    forall v | v in spans
      ensures v.mem in Memory(q.list)
    {
      var j :| 0 <= j < |q.list| && v in q.list[j].FreeSpans();
      BlockSpansFree(q.list[j]);
    }
  }

  /** The content of block i after its room was written to. */
  lemma StillHolds(b: BufferBlock, size: nat, p: seq<Byte>, was: seq<Byte>)
    requires b.Valid() && b.total == size == |was|
    requires p == Ring.Content(was, b.read, b.write, b.canRead)
    requires forall c :: 0 <= c < size && !Ring.InRoom(size, b.read, b.write, b.canRead, c) ==> b.data[c] == was[c]
    ensures Holds(b, size, p)
  {
  }

  /** readv into spans of the blocks' room leaves what the blocks hold. */
  method Store(ghost blocks: seq<BufferBlock>, ghost size: nat, ghost parts: seq<seq<Byte>>, spans: seq<Iovec>, src: seq<Byte>)
    requires Stores(blocks, size, parts) && Sound(blocks) && FromBlocks(spans, blocks)
    requires InBounds(spans) && Apart(spans) && Mems(spans) <= Memory(blocks) && |src| <= Total(spans)
    modifies Memory(blocks)
    ensures Stores(blocks, size, parts) && HoldsFirst(spans, src)
  {
    hide BufferBlock.FreeSpans, Gather, Total, Apart, Ring.Content, Ring.InRoom, HoldsFirst, Covered;
    ghost var was := seq(|blocks|, i requires 0 <= i < |blocks| reads Memory(blocks) => blocks[i].data[..]);
    Readv(spans, src);
    forall i | 0 <= i < |blocks|
      ensures Holds(blocks[i], size, parts[i])
    {
      var b := blocks[i];
      forall c | 0 <= c < size && !Ring.InRoom(size, b.read, b.write, b.canRead, c)
        ensures b.data[c] == was[i][c]
      {
        if Covered(spans, b.data, c) { CoveredInRoom(blocks, spans, i, c); }
      }
      StillHolds(b, size, parts[i], was[i]);
    }
  }

  /** Write src through the offered spans: the queue's bytes stay, and src lies at the
      front of its room. */
  method Deliver(q: BufferQueue, spans: seq<Iovec>, curLen: nat, ghost k: nat, src: seq<Byte>)
    requires q.Shape() && q.Offered(spans, curLen, k) && |src| <= curLen
    modifies Memory(q.list)
    ensures q.Shape() && q.Offered(spans, curLen, k)
    ensures |src| <= |q.Free()| && q.Free()[..|src|] == src
  {
    hide BufferBlock.FreeSpans, BufferBlock.Room, BufferBlock.Content, Flat, Gather, Total, InBounds, Apart, Mems, Memory, FromBlocks, Stores, Arranged, Sound, TailOf, Cut;
    OfferedApart(q, spans, curLen, k);
    q.OfferedEnds(spans, curLen, k);
    ghost var free := SpanList(q.list);
    Store(q.list, q.blockSize, q.parts, spans, src);
    assert SpanList(q.list) == free;
    q.OfferedEnds(spans, curLen, k);
    CutEnds(q.Free(), Gather(spans), TailOf(RoomList(q.list), k));
  }

  /** Bytes stored in order through the spans of GetFreeMemoryBlock and then committed
      with MoveWritePt are appended to the stream. */
  method ScatterCommit(q: BufferQueue, size: nat, src: seq<Byte>) returns (total: nat, n: nat)
    requires q.Valid()
    modifies q, q.list, Memory(q.list)
    ensures q.Valid()
    ensures size <= total && n == Min(|src|, total)
    ensures q.Stream() == old(q.Stream()) + src[..n]
    ensures |old(q.list)| <= |q.list| && q.list[..|old(q.list)|] == old(q.list)
    ensures forall k :: |old(q.list)| <= k < |q.list| ==> fresh(q.list[k]) && fresh(q.list[k].data)
  {
    hide BufferQueue.Shape, BufferQueue.Stream, BufferQueue.Free, BufferQueue.Offered;
    var spans;
    ghost var k;
    spans, total, k := q.GetFreeMemoryBlock(size);
    n := Min(|src|, total);
    assert Memory(q.list[..|old(q.list)|]) == Memory(old(q.list));
    Deliver(q, spans, total, k, src[..n]);
    var moved := q.MoveWritePt(n);
    assert moved == n;
  }
}
