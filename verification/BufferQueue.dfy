// common/buffer/buffer_queue.cpp: a list of blocks with a write block in the
// middle of it, used as one stream of bytes.

module BufferQueues {
  import opened Basics
  import opened Bytes
  import opened Streams
  import opened BufferBlocks

  /** The memory of the given blocks. */
  ghost function Memory(blocks: seq<BufferBlock>): set<array<Byte>> {
    set b | b in blocks :: b.data
  }

  ghost predicate Sound(blocks: seq<BufferBlock>)
    reads blocks
  {
    forall i :: 0 <= i < |blocks| ==> blocks[i].Valid()
  }

  /** What lies in the room of each block, in the order writes will fill it. */
  ghost function RoomList(blocks: seq<BufferBlock>): (s: seq<seq<Byte>>)
    requires Sound(blocks)
    reads blocks, Memory(blocks)
    ensures |s| == |blocks| && forall i :: 0 <= i < |s| ==> s[i] == blocks[i].Room()
  {
    seq(|blocks|, i requires 0 <= i < |blocks| && blocks[i].Valid() reads blocks, Memory(blocks) => blocks[i].Room())
  }

  /** The spans of that room. */
  ghost function SpanList(blocks: seq<BufferBlock>): (s: seq<seq<Iovec>>)
    requires Sound(blocks)
    reads blocks
    ensures |s| == |blocks| && forall i :: 0 <= i < |s| ==> s[i] == blocks[i].FreeSpans()
  {
    seq(|blocks|, i requires 0 <= i < |blocks| && blocks[i].Valid() reads blocks => blocks[i].FreeSpans())
  }

  lemma SpansHoldRooms(blocks: seq<BufferBlock>)
    requires Sound(blocks)
    ensures forall i :: 0 <= i < |blocks| ==>
              InBounds(SpanList(blocks)[i]) && Gather(SpanList(blocks)[i]) == RoomList(blocks)[i]
  {
    hide BufferBlock.FreeSpans, BufferBlock.Room, Gather, InBounds;
    forall i | 0 <= i < |blocks|
      ensures InBounds(SpanList(blocks)[i]) && Gather(SpanList(blocks)[i]) == RoomList(blocks)[i]
    {
      blocks[i].GatherFree();
    }
  }

  /** Block b is a block of the given size that holds the bytes p. */
  ghost predicate Holds(b: BufferBlock, size: nat, p: seq<Byte>)
    reads b, b.data
  {
    b.Valid() && b.total == size && b.Content() == p
  }

  /** The blocks hold the parts, and no two of them share memory. */
  ghost predicate Stores(blocks: seq<BufferBlock>, size: nat, parts: seq<seq<Byte>>)
    reads blocks, Memory(blocks)
  {
    && |parts| == |blocks|
    && (forall i :: 0 <= i < |blocks| ==> Holds(blocks[i], size, parts[i]))
    && (forall i, j :: 0 <= i < j < |blocks| ==> blocks[i].data != blocks[j].data)
  }

  ghost predicate Arranged(parts: seq<seq<Byte>>, write: nat, size: nat) {
    && write <= |parts|
    && (forall i :: write < i < |parts| ==> parts[i] == [])
    && (forall i :: 0 < i < write ==> |parts[i]| == size)
  }

  lemma HoldsNow(b: BufferBlock, size: nat, p: seq<Byte>)
    requires b.Valid() && b.total == size && b.Content() == p
    ensures Holds(b, size, p)
  {
  }

  lemma BlockHolds(b: BufferBlock, size: nat, p: seq<Byte>)
    requires Holds(b, size, p)
    ensures b.Valid() && b.total == size && b.Content() == p && |p| + |b.Room()| == size
  {
  }

  lemma {:induction false} ArrangedAt(parts: seq<seq<Byte>>, write: nat, size: nat, p: seq<Byte>)
    requires Arranged(parts, write, size) && write < |parts|
    ensures Arranged(parts[write := p], write, size)
  {
  }

  class BufferQueue {
    const blockSize: nat
    var list: seq<BufferBlock>
    var write: nat                    // where the write block is in the list; |list| if there is none
    var canReadLength: nat
    ghost var parts: seq<seq<Byte>>   // the content of each block

    /** Where the bytes are: the blocks after the write block are empty and those
        between the first and the write block are full. While Write or MoveWritePt
        looks for the next write block there may be none. */
    ghost predicate Shape()
      reads `list, `write, `parts, list, Memory(list)
    {
      0 < blockSize && Stores(list, blockSize, parts) && Arranged(parts, write, blockSize)
    }

    ghost predicate Valid()
      reads this, list, Memory(list)
    {
      && Shape()
      && (list != [] ==> write < |list|)
      && canReadLength == |Stream()|
    }

    /** The bytes in the queue, oldest first. */
    ghost function Stream(): seq<Byte>
      reads `parts
    {
      Flat(parts)
    }

    constructor (size: nat)
      requires 0 < size
      ensures Valid() && list == [] && Stream() == [] && blockSize == size
    {
      blockSize := size;
      canReadLength := 0;
      list, write, parts := [], 0, [];
    }

    method SetLength(n: nat)
      requires Shape()
      modifies `canReadLength
      ensures Shape() && Stream() == old(Stream()) && canReadLength == n
      ensures Free() == old(Free())
    {
      hide BufferBlock.Room, BufferBlock.Content, BufferBlock.Valid, Flat, TailOf, Holds, Arranged;
      AllSound();
      ghost var rooms := RoomList(list);
      canReadLength := n;
      AllSound();
      assert RoomList(list) == rooms;
    }

    /** The first block's GetCanReadLength. */
    function HeadLength(): (n: nat)
      requires Shape() && list != []
      reads this, list, Memory(list)
      ensures n == |parts[0]|
    {
      list[0].GetCanReadLength()
    }

    method Reset()
      requires Shape()
      modifies this
      ensures Shape() && list == [] && Stream() == []
      ensures canReadLength == old(canReadLength)
    {
      list := [];
      write := 0;
      parts := [];
    }

    /** A new block at the end of the list, which becomes the write block if there is none. */
    method Append() returns (temp: BufferBlock)
      requires Shape()
      modifies this
      ensures Shape() && list == old(list) + [temp]
      ensures fresh(temp) && fresh(temp.data) && temp.Valid() && |temp.Room()| == blockSize
      ensures |parts| == |list| && parts[|old(list)|] == [] && Stream() == old(Stream())
      ensures write == old(write) && canReadLength == old(canReadLength)
    {
      hide BufferBlock.Valid, BufferBlock.Content, BufferBlock.Room, Flat, Holds;
      FlatPad(parts);
      temp := new BufferBlock(blockSize);
      HoldsNow(temp, blockSize, []);
      list := list + [temp];
      parts := parts + [[]];
    }

    /** Take at most len bytes from the first block. */
    method ReadHead(len: nat) returns (res: seq<Byte>)
      requires Shape() && list != []
      modifies `parts, list[0]
      ensures Shape()
      ensures Cut(old(Stream()), res, Stream())
      ensures |res| <= len && (|res| < len ==> parts[0] == [])
    {
      hide BufferBlock.Content, BufferBlock.Room, Flat;
      FlatDrop(parts, Min(len, |parts[0]|));
      res := list[0].DoRead(len, true);
      parts := parts[0 := parts[0][|res|..]];
    }

    /** Step from the drained first block to the next one, taking the write block
        along if it is the one left behind. Without a next block the queue is reset. */
    method NextHead() returns (more: bool)
      requires Shape() && write < |list| && parts[0] == []
      modifies this
      ensures Shape() && canReadLength == old(canReadLength)
      ensures Stream() == old(Stream())
      ensures more <==> 1 < |old(list)|
      ensures list == if more then old(list)[1..] else []
      ensures more ==> write < |list| && (parts[0] == [] ==> Stream() == [])
      ensures !more ==> Stream() == []
    {
      hide Holds;
      if write == 0 {
        FlatEmpty(parts);
        if write + 1 < |list| {
          write := write + 1;
        } else {
          Reset();
          return false;
        }
      }
      more := true;
      list := list[1..];
      parts := parts[1..];
      write := write - 1;
      if parts[0] == [] {
        FlatEmpty(parts);
      }
    }

    method Read(len: nat) returns (res: seq<Byte>)
      requires Valid()
      modifies this, list
      ensures Valid()
      ensures res == old(Stream())[..Min(len, |old(Stream())|)]
      ensures Stream() == old(Stream())[|res|..]
      ensures forall k :: 0 <= k < |list| ==> list[k] in old(list)
    {
      hide Shape, Stream, Cut, Free;
      res := [];
      ghost var all := Stream();
      CutFirst(all);
      if |list| == 0 || len == 0 {
        Bounds();
        return;
      }
      while true
        invariant Shape()
        invariant list != [] && write < |list|
        invariant |res| < len
        invariant Cut(all, res, Stream())
        invariant canReadLength == |all|
        invariant |list| <= |old(list)| && list == old(list)[|old(list)| - |list|..]
        decreases |list|
      {
        ghost var back := Stream();
        var got := ReadHead(len - |res|);
        CutMore(all, res, back, got, Stream());
        res := res + got;
        if |res| >= len {
          break;
        }
        var more := NextHead();
        if !more {
          break;
        }
        if HeadLength() == 0 {
          break;
        }
      }
      CutEnds(all, res, Stream());
      SetLength(canReadLength - |res|);
    }

    /** Nothing is stored past the end of the list or past the write block. */
    lemma NoMoreAt(i: nat)
      requires Shape()
      ensures |list| <= i || write < i ==> TailOf(parts, i) == []
      ensures i == 0 ==> TailOf(parts, i) == Stream()
    {
      if i <= |parts| && (write < i || i == |list|) { FlatEmpty(parts[i..]); }
      if i == 0 { assert parts[0..] == parts; }
    }

    method ReadNotMovePt(len: nat) returns (res: seq<Byte>)
      requires Valid()
      ensures res == Stream()[..Min(len, |Stream()|)]
    {
      hide Shape, Stream, TailOf, Cut;
      res := [];
      var temp := 0;
      NoMoreAt(0);
      ghost var all, rest := Stream(), Stream();
      CutFirst(all);
      while temp < |list| && |res| < len
        invariant Shape()
        invariant temp <= |list| && |res| <= len
        invariant Cut(all, res, rest)
        invariant |res| < len ==> rest == TailOf(parts, temp)
      {
        ghost var left;
        var got;
        got, left := PeekBlock(temp, len - |res|);
        CutMore(all, res, rest, got, left);
        res, rest := res + got, left;
        temp := temp + 1;
        if temp - 1 == write {
          break;
        }
      }
      NoMoreAt(temp);
      CutEnds(all, res, rest);
    }

    /** At most len bytes of block i, which stay there. */
    method PeekBlock(i: nat, len: nat) returns (res: seq<Byte>, ghost rest: seq<Byte>)
      requires Shape() && i < |list|
      ensures Shape()
      ensures Cut(TailOf(parts, i), res, rest)
      ensures |res| <= len && (|res| < len ==> rest == TailOf(parts, i + 1))
    {
      hide BufferBlock.Content, TailOf, Cut;
      res := list[i].CopyOut(len);
      FlatFrontOf(parts, i, |res|);
      rest := parts[i][|res|..] + TailOf(parts, i + 1);
    }

    /** The spans of the content, block by block, up to the first block at which they
        hold maxSize bytes (all of them if maxSize is 0). They are of upto blocks, and
        those before the last hold less than maxSize. */
    method GetUseMemoryBlock(maxSize: nat) returns (spans: seq<Iovec>, curLen: nat, ghost upto: nat)
      requires Valid()
      ensures InBounds(spans) && Mems(spans) <= Memory(list)
      ensures curLen <= |Stream()| && Gather(spans) == Stream()[..curLen]
      ensures curLen < |Stream()| ==> 0 < maxSize <= curLen
      ensures upto <= |parts| && curLen == |Flat(parts[..upto])|
      ensures 0 < maxSize && 0 < upto ==> |Flat(parts[..upto - 1])| < maxSize
      ensures 0 < maxSize ==> curLen < maxSize + blockSize
    {
      hide Shape, Stream, TailOf, Spanned, InBounds, Gather, Mems, Memory, Flat;
      spans, curLen := [], 0;
      var temp := 0;
      ghost var all := Stream();
      SpannedStart();
      FlatNothing<Byte>();
      while temp < |list|
        invariant Shape() && Spanned(spans, curLen, all, temp)
        invariant temp <= |list| == |parts|
        invariant curLen == |Flat(parts[..temp])| && (0 < maxSize ==> curLen < maxSize)
        invariant 0 < maxSize && 0 < temp ==> |Flat(parts[..temp - 1])| < maxSize
      {
        UseMore(temp);
        spans, curLen := UseBlock(temp, spans, curLen, all);
        temp := temp + 1;
        if temp - 1 == write {
          break;
        }
        if maxSize > 0 && curLen >= maxSize {
          break;
        }
      }
      upto := temp;
      NoMoreAt(temp);
      SpannedEnds(spans, curLen, all, temp);
    }

    /** A block more, and at most its size in bytes. */
    lemma UseMore(i: nat)
      requires Shape() && i < |list|
      ensures i < |parts| && |Flat(parts[..i + 1])| == |Flat(parts[..i])| + |parts[i]| && |parts[i]| <= blockSize
    {
      hide Flat;
      BlockHolds(list[i], blockSize, parts[i]);
      FlatSnoc(parts, 0, i);
      assert parts[0..i + 1] == parts[..i + 1] && parts[0..i] == parts[..i];
    }

    /** The spans hold the first curLen bytes of all, and the rest is in the blocks
        from i on. */
    ghost predicate Spanned(spans: seq<Iovec>, curLen: nat, all: seq<Byte>, i: nat)
      reads this, Mems(spans)
    {
      && InBounds(spans) && Mems(spans) <= Memory(list)
      && curLen == |Gather(spans)|
      && Cut(all, Gather(spans), TailOf(parts, i))
    }

    lemma SpannedStart()
      requires Shape()
      ensures |parts| == |list| && 0 < blockSize && Spanned([], 0, Stream(), 0)
    {
    }

    lemma SpannedEnds(spans: seq<Iovec>, curLen: nat, all: seq<Byte>, i: nat)
      requires Spanned(spans, curLen, all, i)
      ensures InBounds(spans) && Mems(spans) <= Memory(list)
      ensures curLen <= |all| && Gather(spans) == all[..curLen] && TailOf(parts, i) == all[curLen..]
    {
    }

    /** Add the spans of the content of block i. */
    method UseBlock(i: nat, spans: seq<Iovec>, curLen: nat, ghost all: seq<Byte>) returns (spans': seq<Iovec>, curLen': nat)
      requires Shape() && i < |list| && Spanned(spans, curLen, all, i)
      ensures Shape() && Spanned(spans', curLen', all, i + 1)
      ensures i < |parts| && curLen' == curLen + |parts[i]|
    {
      var b := list[i];
      var any, off1, len1, off2, len2 := b.GetUseMemoryBlock();
      var more := b.Spans(off1, len1, off2, len2);
      b.SpansInBounds(off1, len1, off2, len2);
      GatherCat(spans, more);
      MemsCat(spans, more);
      FlatFront(parts, i);
      hide BufferBlock.Content, BufferBlock.Spans, BufferBlock.FreeSpans, Gather, Cut, TailOf;
      CutMore(all, Gather(spans), TailOf(parts, i), Gather(more), TailOf(parts, i + 1));
      spans', curLen' := spans + more, curLen + len1 + len2;
    }

    /** Write as much of src as fits into the write block. */
    method WriteBlock(src: seq<Byte>) returns (n: nat)
      requires Shape() && write < |list|
      modifies `parts, list[write], list[write].data
      ensures Shape()
      ensures n <= |src| && (n < |src| ==> |parts[write]| == blockSize)
      ensures write < |parts| == |list| && (old(parts[write]) == [] && src != [] ==> 0 < n && parts[write] != [])
      ensures Cut(Stream(), old(Stream()), src[..n])
    {
      hide BufferBlock.Content, BufferBlock.Room, Flat, Cut;
      n := list[write].DoWrite(src);
      FlatAppend(parts, write, src[..n]);
      parts := parts[write := parts[write] + src[..n]];
    }

    /** Leave the full write block for the next one, if there is one. */
    method NextWrite()
      requires Shape() && write < |list| && |parts[write]| == blockSize
      modifies `write
      ensures Shape() && Stream() == old(Stream()) && write == old(write) + 1
    {
      write := write + 1;
    }

    method Write(src: seq<Byte>) returns (writeLen: nat)
      requires Valid()
      modifies this, list, Memory(list)
      ensures Valid()
      ensures writeLen == |src| && Stream() == old(Stream()) + src
      ensures |list| > |old(list)| ==> write + 1 == |list| == |parts| && parts[write] != []
      ensures |old(list)| <= |list| && list[..|old(list)|] == old(list)
      ensures forall k :: |old(list)| <= k < |list| ==> fresh(list[k]) && fresh(list[k].data)
    {
      hide Shape, Stream, Free;
      if |src| == 0 {
        return 0;
      }
      writeLen := WriteBlocks(src);
      SetLength(canReadLength + writeLen);
    }

    /** The part of src for the write block; if there is none a new block is appended. */
    method WriteNext(src: seq<Byte>) returns (n: nat)
      requires Shape() && write <= |list| && src != []
      modifies this, list, Memory(list)
      ensures Shape() && write == old(write) < |list| == |parts| && canReadLength == old(canReadLength)
      ensures n <= |src| && (n < |src| ==> |parts[write]| == blockSize)
      ensures Cut(Stream(), old(Stream()), src[..n])
      ensures old(write < |list|) ==> list == old(list)
      ensures old(write == |list|) ==> |list| == |old(list)| + 1 && list[..|old(list)|] == old(list) && parts[write] != []
      ensures old(write == |list|) ==> 0 < n && fresh(list[write]) && fresh(list[write].data)
    {
      hide Shape, Stream, Cut, Free;
      if write == |list| {
        var temp := Append();
      }
      n := WriteBlock(src);
    }

    /** The loop of Write: fill the write block, and go on with the next one. */
    method WriteBlocks(src: seq<Byte>) returns (writeLen: nat)
      requires Valid() && 0 < |src|
      modifies this, list, Memory(list)
      ensures Shape() && write < |list| && canReadLength == old(canReadLength)
      ensures writeLen == |src| && Stream() == old(Stream()) + src
      ensures |list| > |old(list)| ==> write + 1 == |list| == |parts| && parts[write] != []
      ensures |old(list)| <= |list| && list[..|old(list)|] == old(list)
      ensures forall k :: |old(list)| <= k < |list| ==> fresh(list[k]) && fresh(list[k].data)
    {
      hide Shape, Stream, Cut, Free;
      writeLen := 0;
      Bounds();
      ghost var before := Stream();
      CutLast(before);
      while true
        invariant Shape() && write <= |list| && canReadLength == old(canReadLength)
        invariant writeLen < |src| && Cut(Stream(), before, src[..writeLen])
        invariant |old(list)| <= |list| && list[..|old(list)|] == old(list)
        invariant |list| > |old(list)| ==> write == |list|
        invariant forall k :: |old(list)| <= k < |list| ==> fresh(list[k]) && fresh(list[k].data)
        decreases |src| - writeLen, |list| - write
      {
        assert forall k :: 0 <= k < |list| ==> list[k] in old(list) || (fresh(list[k]) && fresh(list[k].data));
        ghost var mid := Stream();
        var n := WriteNext(src[writeLen..]);
        CutGrow(mid, Stream(), before, src[..writeLen], src[writeLen..][..n]);
        assert src[..writeLen] + src[writeLen..][..n] == src[..writeLen + n];
        writeLen := writeLen + n;
        if writeLen >= |src| {
          break;
        }
        NextWrite();
      }
      CutEnds(Stream(), before, src[..writeLen]);
    }

    method Clear()
      requires Valid()
      modifies this
      ensures Valid() && list == [] && Stream() == []
    {
      canReadLength := 0;
      Reset();
    }

    /** Move the read cursor of the first block over at most len bytes. */
    method SkipHead(len: nat) returns (n: nat, ghost gone: seq<Byte>)
      requires Shape() && list != []
      modifies `parts, list[0]
      ensures Shape()
      ensures Cut(old(Stream()), gone, Stream()) && |gone| == n
      ensures n <= len && (n < len ==> parts[0] == [])
    {
      hide BufferBlock.Content, BufferBlock.Room, Flat;
      FlatDrop(parts, Min(len, |parts[0]|));
      n := list[0].MoveReadPt(len);
      gone := parts[0][..n];
      parts := parts[0 := parts[0][n..]];
    }

    /** MoveReadPt for len >= 0. */
    method MoveReadPt(len: nat) returns (total: nat)
      requires Valid()
      modifies this, list
      ensures Valid()
      ensures total == Min(len, |old(Stream())|)
      ensures Stream() == old(Stream())[total..]
      ensures forall k :: 0 <= k < |list| ==> list[k] in old(list)
    {
      hide Shape, Stream, Cut, Free;
      total := 0;
      ghost var all, gone := Stream(), [];
      CutFirst(all);
      Bounds();
      while |list| > 0
        invariant Shape() && (list != [] ==> write < |list|)
        invariant total < len || total == 0 == len
        invariant Cut(all, gone, Stream()) && total == |gone|
        invariant canReadLength == |all|
        invariant list == [] ==> Stream() == []
        invariant |list| <= |old(list)| && list == old(list)[|old(list)| - |list|..]
        decreases |list|
      {
        ghost var back := Stream();
        ghost var piece;
        var n;
        n, piece := SkipHead(len - total);
        CutMore(all, gone, back, piece, Stream());
        gone := gone + piece;
        total := total + n;
        if total >= len {
          break;
        }
        var more := NextHead();
        if !more {
          break;
        }
      }
      CutEnds(all, gone, Stream());
      SetLength(canReadLength - total);
    }

    /** What lies in the room from the write block on. */
    ghost function Free(): seq<Byte>
      requires Shape()
      reads `list, `write, `parts, list, Memory(list)
    {
      TailOf(RoomList(list), write)
    }

    /** The full write block has no part in the room. */
    method NextRoom()
      requires Shape() && write < |list| && |parts[write]| == blockSize
      modifies `write
      ensures Shape() && Stream() == old(Stream()) && write == old(write) + 1
      ensures Free() == old(Free())
    {
      ghost var rooms := RoomList(list);
      assert rooms[write] == [];
      TailSkip(rooms, write);
      hide TailOf, BufferBlock.Room, BufferBlock.Content;
      NextWrite();
      assert RoomList(list) == rooms;
    }

    /** A full last block leaves no room. */
    lemma NoRoom()
      requires Shape()
      ensures write == |list| ==> Free() == []
      ensures write + 1 == |list| && |parts[write]| == blockSize ==> Free() == []
    {
      if write + 1 == |list| && |parts[write]| == blockSize {
        assert list[write].Room() == [];
        TailSkip(RoomList(list), write);
      }
    }

    /** Commit at most len bytes of the write block's room. */
    method MoveBlock(len: nat) returns (n: nat, ghost piece: seq<Byte>)
      requires Shape() && write < |list|
      modifies `parts, list[write]
      ensures Shape()
      ensures Cut(Stream(), old(Stream()), piece) && Cut(old(Free()), piece, Free())
      ensures |piece| == n <= len && (n < len ==> |parts[write]| == blockSize)
    {
      Bounds();
      AllSound();
      hide Shape, Sound, Holds, Flat, Cut, TailOf;
      ghost var rooms := RoomList(list);
      n, piece := MoveOnly(len);
      FlatAppend(old(parts), write, piece);
      TailDrop(rooms, write, n);
    }

    lemma AllSound()
      requires Shape()
      ensures Sound(list)
      ensures forall i :: write < i < |parts| ==> parts[i] == []
    {
    }

    method MoveOnly(len: nat) returns (n: nat, ghost piece: seq<Byte>)
      requires Shape() && write < |list|
      modifies `parts, list[write]
      ensures Shape()
      ensures |piece| == n <= len && (n < len ==> |parts[write]| == blockSize)
      ensures parts == old(parts)[write := old(parts[write]) + piece]
      ensures n <= |old(RoomList(list))[write]| && piece == old(RoomList(list))[write][..n]
      ensures RoomList(list) == old(RoomList(list))[write := old(RoomList(list))[write][n..]]
    {
      hide BufferBlock.Content, BufferBlock.Room, BufferBlock.Valid, Holds, Arranged;
      BlockHolds(list[write], blockSize, parts[write]);
      AllSound();
      ghost var rooms := RoomList(list);
      n := list[write].MoveWritePt(len);
      piece := rooms[write][..n];
      ArrangedAt(parts, write, blockSize, parts[write] + piece);
      parts := parts[write := parts[write] + piece];
      HoldsNow(list[write], blockSize, parts[write]);
      AllSound();
      assert RoomList(list) == rooms[write := rooms[write][n..]];
    }

    /** MoveWritePt for len >= 0. */
    method MoveWritePt(len: nat) returns (total: nat)
      requires Valid()
      modifies this, list
      ensures Valid() && list == old(list)
      ensures total == Min(len, |old(Free())|)
      ensures Stream() == old(Stream()) + old(Free())[..total] && Free() == old(Free())[total..]
    {
      hide Shape, Stream, Cut, Free;
      total := 0;
      ghost var before, room, taken := Stream(), Free(), [];
      CutFirst(room);
      CutLast(before);
      Bounds();
      while write < |list|
        invariant Shape() && write <= |list| && list == old(list)
        invariant (list != [] ==> write < |list|)
        invariant Cut(Stream(), before, taken) && Cut(room, taken, Free())
        invariant total == |taken| && (total < len || total == 0 == len)
        invariant canReadLength == |before|
        decreases |list| - write
      {
        ghost var mid, back := Stream(), Free();
        ghost var piece;
        var n;
        n, piece := MoveBlock(len - total);
        CutGrow(mid, Stream(), before, taken, piece);
        CutMore(room, taken, back, piece, Free());
        taken := taken + piece;
        total := total + n;
        if write + 1 == |list| || len <= total {
          break;
        }
        NextRoom();
      }
      NoRoom();
      CutEnds(Stream(), before, taken);
      CutEnds(room, taken, Free());
      assert room[total..] == Free();
      SetLength(canReadLength + total);
    }

    /** The spans are those of the room of the blocks from the write block to block k. */
    ghost predicate Offered(spans: seq<Iovec>, curLen: nat, k: nat)
      requires Shape()
      reads `list, `write, `parts, list, Memory(list)
    {
      AllSound();
      && write <= k <= |list|
      && spans == Flat(SpanList(list)[write..k])
      && curLen == Total(spans)
    }

    lemma OfferedStart()
      requires Shape()
      ensures write <= |list| == |parts| && Offered([], 0, write)
    {
    }

    /** What the spans hold is the start of the room. */
    lemma OfferedEnds(spans: seq<Iovec>, curLen: nat, k: nat)
      requires Shape() && Offered(spans, curLen, k)
      ensures InBounds(spans) && curLen == |Gather(spans)|
      ensures Cut(Free(), Gather(spans), TailOf(RoomList(list), k))
    {
      AllSound();
      hide Shape, Sound, Gather, Total, InBounds, Flat, TailOf, Cut, BufferBlock.Room, BufferBlock.FreeSpans;
      var rooms := RoomList(list);
      SpansHoldRooms(list);
      GatherFlat(SpanList(list)[write..k], rooms[write..k]);
      TailCut(rooms, write, k);
      GatherTotal(spans);
    }

    /** Add the spans of the room of block k. */
    method OfferBlock(k: nat, spans: seq<Iovec>, curLen: nat) returns (spans': seq<Iovec>, curLen': nat)
      requires Shape() && k < |list| && Offered(spans, curLen, k)
      ensures Shape() && Offered(spans', curLen', k + 1)
      ensures curLen <= curLen' == curLen + blockSize - |parts[k]| && (parts[k] == [] ==> curLen < curLen')
      ensures Free() == old(Free())
    {
      hide Gather, InBounds, Total, Flat, TailOf, BufferBlock.Room, BufferBlock.FreeSpans, BufferBlock.Content;
      AllSound();
      ghost var free, rooms := SpanList(list), RoomList(list);
      var more, len := BlockFree(k);
      FlatSnoc(free, write, k);
      TotalCat(spans, more);
      spans' := spans + more;
      curLen' := curLen + len;
      assert SpanList(list) == free && RoomList(list) == rooms;
    }

    method BlockFree(k: nat) returns (spans: seq<Iovec>, len: nat)
      requires Shape() && k < |list|
      ensures Shape() && Sound(list) && spans == SpanList(list)[k] && len == Total(spans)
      ensures 0 <= len == blockSize - |parts[k]| && 0 < blockSize
    {
      AllSound();
      BlockHolds(list[k], blockSize, parts[k]);
      var b := list[k];
      assert Holds(b, blockSize, parts[k]);
      hide BufferBlock.Room, BufferBlock.FreeSpans, BufferBlock.Content, BufferBlock.Spans, Total;
      var any, off1, len1, off2, len2 := b.GetFreeMemoryBlock();
      b.SpansInBounds(off1, len1, off2, len2);
      b.GatherFree();
      spans, len := b.Spans(off1, len1, off2, len2), len1 + len2;
      GatherTotal(spans);
    }

    /** Append a block for more room. */
    method OfferNew(ghost spans: seq<Iovec>, ghost curLen: nat)
      requires Shape() && Offered(spans, curLen, |list|)
      modifies this
      ensures Shape() && Stream() == old(Stream()) && old(Free()) <= Free()
      ensures write == old(write) && canReadLength == old(canReadLength)
      ensures |parts| == |list| == |old(list)| + 1 && list[..|old(list)|] == old(list)
      ensures fresh(list[|old(list)|]) && fresh(list[|old(list)|].data)
      ensures Offered(spans, curLen, |old(list)|) && parts[|old(list)|] == []
    {
      hide Flat, TailOf, Total, BufferBlock.Room, BufferBlock.FreeSpans, BufferBlock.Content;
      AllSound();
      ghost var free, rooms, was := SpanList(list), RoomList(list), |list|;
      var temp := Append();
      AllSound();
      SamePrefix(SpanList(list), free, write, was);
      TailMore(rooms, temp.Room(), write);
      assert RoomList(list) == rooms + [temp.Room()];
    }

    /** Spans of at least size bytes of room (of all the room there is if size is 0),
        appending blocks if there are not enough, and none that is not needed: without
        the last block there would be less than size, and if size is 0 one is appended
        only where there is no write block. */
    method GetFreeMemoryBlock(size: nat) returns (spans: seq<Iovec>, curLen: nat, ghost upto: nat)
      requires Valid()
      modifies this
      ensures Valid() && Stream() == old(Stream()) && old(Free()) <= Free()
      ensures |old(list)| <= |list| && list[..|old(list)|] == old(list)
      ensures forall k :: |old(list)| <= k < |list| ==> fresh(list[k]) && fresh(list[k].data)
      ensures Offered(spans, curLen, upto)
      ensures size <= curLen && write == old(write) && upto <= |list| == |parts|
      ensures size > 0 ==> 0 < upto && curLen < size + blockSize - |parts[upto - 1]|
      ensures |list| == |old(list)| ==> Free() == old(Free())
      ensures |list| > |old(list)| ==> upto == |list|
      ensures size == 0 && |list| > |old(list)| ==> old(write == |list|) && |list| == |old(list)| + 1 && curLen == blockSize
      ensures size == 0 ==> upto == |list| && list != []
    {
      hide Shape, Stream, Offered, Free;
      spans, curLen := [], 0;
      Bounds();
      OfferedStart();
      var temp := write;
      if size > 0 {
        while curLen < size
          invariant Shape()
          invariant 0 <= temp <= |list| == |parts| && write <= |list| && (list != [] ==> write < |list|)
          invariant Offered(spans, curLen, temp)
          invariant Stream() == old(Stream()) && old(Free()) <= Free()
          invariant |list| == |old(list)| ==> Free() == old(Free())
          invariant canReadLength == old(canReadLength) && write == old(write) <= temp && (temp == write ==> curLen == 0)
          invariant write < temp ==> curLen < size + blockSize - |parts[temp - 1]|
          invariant |old(list)| <= |list| && list[..|old(list)|] == old(list) && (|list| > |old(list)| ==> temp == |list|)
          invariant forall k :: |old(list)| <= k < |list| ==> fresh(list[k]) && fresh(list[k].data)
          decreases size - curLen, |list| - temp
        {
          if temp == |list| {
            ghost var before := Free();
            OfferNew(spans, curLen);
            PrefixOn(old(Free()), before, Free());
          }
          spans, curLen := OfferBlock(temp, spans, curLen);
          temp := temp + 1;
          Bounds();
        }
      } else {
        if temp == |list| {
          OfferNew(spans, curLen);
        }
        while temp < |list|
          invariant Shape()
          invariant 0 <= temp <= |list| == |parts| && write < |list|
          invariant Offered(spans, curLen, temp)
          invariant Stream() == old(Stream()) && old(Free()) <= Free()
          invariant canReadLength == old(canReadLength) && write == old(write)
          invariant |old(list)| <= |list| && list[..|old(list)|] == old(list)
          invariant |list| == |old(list)| ==> Free() == old(Free())
          invariant |list| > |old(list)| ==> old(write == |list|) && |list| == |old(list)| + 1
          invariant |list| > |old(list)| ==> if temp == |list| then curLen == blockSize
                                             else temp + 1 == |list| && curLen == 0 && parts[temp] == []
          invariant forall k :: |old(list)| <= k < |list| ==> fresh(list[k]) && fresh(list[k].data)
          decreases |list| - temp
        {
          spans, curLen := OfferBlock(temp, spans, curLen);
          temp := temp + 1;
          Bounds();
        }
      }
      upto := temp;
    }

    lemma Bounds()
      requires Shape()
      ensures list == [] ==> Stream() == []
      ensures write <= |list| == |parts|
    {
    }
  }
}
