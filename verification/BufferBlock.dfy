// common/buffer/buffer_block.cpp: one fixed-size block of the byte stream, used
// as a ring. The cursors are offsets from the start of the block.

module BufferBlocks {
  import opened Basics
  import opened Bytes
  import Ring

  class BufferBlock {
    const total: nat
    const data: array<Byte>
    var read: nat
    var write: nat
    var canRead: bool

    ghost predicate Valid()
      reads `read, `write, `canRead
    {
      data.Length == total && Ring.Cursors(total, read, write, canRead)
    }

    /** The bytes waiting to be read, oldest first. */
    ghost function Content(): (s: seq<Byte>)
      requires Valid()
      reads `read, `write, `canRead, data
      ensures |s| + |Room()| == total
    {
      Ring.Content(data[..], read, write, canRead)
    }

    /** The bytes now lying in the free space, in the order writes will fill it. */
    ghost function Room(): (s: seq<Byte>)
      requires Valid()
      reads `read, `write, `canRead, data
    {
      Ring.Room(data[..], read, write, canRead)
    }

    constructor (size: nat)
      requires 0 < size
      ensures Valid() && total == size
      ensures fresh(data)
      ensures Content() == []
    {
      total := size;
      data := new Byte[size];
      read, write, canRead := 0, 0, false;
    }

    function GetCanReadLength(): (n: nat)
      requires Valid()
      reads `read, `write, `canRead, data
      ensures n == |Content()|
    {
      if write > read then write - read
      else if write < read then (total - read) + write
      else if canRead then total
      else 0
    }

    function GetCanWriteLength(): (n: nat)
      requires Valid()
      reads `read, `write, `canRead, data
      ensures n == |Room()|
    {
      if write > read then (total - write) + read
      else if write < read then read - write
      else if canRead then 0
      else total
    }

    method Clear()
      requires Valid()
      modifies `read, `write, `canRead
      ensures Valid() && Content() == [] && Room() == data[..]
    {
      write, read := 0, 0;
      canRead := false;
    }

    /** The free space as at most two stretches of the block. */
    method GetFreeMemoryBlock() returns (any: bool, off1: nat, len1: nat, off2: nat, len2: nat)
      requires Valid()
      ensures off1 + len1 <= total && off2 + len2 <= total
      ensures any <==> Room() != []
      ensures Spans(off1, len1, off2, len2) == FreeSpans()
    {
      off1, off2 := 0, 0;
      len1, len2 := 0, 0;
      if write >= read {
        if canRead && write == read {
          return false, off1, len1, off2, len2;
        }
        off1 := write;
        len1 := total - write;
        len2 := read;
        return true, off1, len1, off2, len2;
      } else {
        off1 := write;
        len1 := read - write;
        return true, off1, len1, off2, len2;
      }
    }

    /** The content as at most two stretches of the block. */
    method GetUseMemoryBlock() returns (any: bool, off1: nat, len1: nat, off2: nat, len2: nat)
      requires Valid()
      ensures off1 + len1 <= total && off2 + len2 <= total
      ensures any <==> Content() != []
      ensures Gather(Spans(off1, len1, off2, len2)) == Content()
    {
      hide Ring.Wrap, Ring.Content, Ring.Room, Gather, Spans;
      off1, off2 := 0, 0;
      len1, len2 := 0, 0;
      Ring.ContentLies(data[..], read, write, canRead);
      if read >= write {
        if !canRead && write == read {
          NoSpans();
          return false, off1, len1, off2, len2;
        }
        off1 := read;
        len1 := total - read;
        len2 := write;
        GatherSpans(off1, len1, off2, len2);
        return true, off1, len1, off2, len2;
      } else {
        off1 := read;
        len1 := write - read;
        GatherSpans(off1, len1, off2, len2);
        return true, off1, len1, off2, len2;
      }
    }

    /** A stretch of the block, if it has any bytes. */
    function Span(off: nat, len: nat): seq<Iovec> {
      if len > 0 then [Iovec(data, off, len)] else []
    }

    function Spans(off1: nat, len1: nat, off2: nat, len2: nat): seq<Iovec> {
      Span(off1, len1) + Span(off2, len2)
    }

    lemma SpansInBounds(off1: nat, len1: nat, off2: nat, len2: nat)
      requires Valid() && off1 + len1 <= total && off2 + len2 <= total
      ensures var spans := Spans(off1, len1, off2, len2);
              && InBounds(spans)
              && (forall v :: v in spans ==> v.mem == data)
              && |Gather(spans)| == len1 + len2
    {
      GatherSpans(off1, len1, off2, len2);
    }

    lemma NoSpans()
      ensures InBounds([]) && Gather([]) == []
      ensures Gather(Spans(0, 0, 0, 0)) == []
    {
    }

    lemma GatherSpan(off: nat, len: nat)
      requires Valid() && off + len <= total
      ensures Gather(Span(off, len)) == data[..][off..off + len]
    {
    }

    lemma GatherSpans(off1: nat, len1: nat, off2: nat, len2: nat)
      requires Valid() && off1 + len1 <= total && off2 + len2 <= total
      ensures Gather(Spans(off1, len1, off2, len2)) == data[..][off1..off1 + len1] + data[..][off2..off2 + len2]
    {
      assert InBounds(Span(off1, len1)) && InBounds(Span(off2, len2));
      GatherSpan(off1, len1);
      GatherSpan(off2, len2);
      hide Gather, Span;
      GatherCat(Span(off1, len1), Span(off2, len2));
    }

    /** The room is what the spans of the free space hold. */
    lemma GatherFree()
      requires Valid()
      ensures InBounds(FreeSpans()) && (forall v :: v in FreeSpans() ==> v.mem == data)
      ensures Gather(FreeSpans()) == Room()
    {
      hide Ring.Wrap, Ring.Content, Ring.Room, Gather, Spans, InBounds;
      Ring.RoomLies(data[..], read, write, canRead);
      var w, r := if write < read then read else total, if write < read then 0 else read;
      if write < read || !(canRead && write == read) {
        GatherSpans(write, w - write, 0, r);
        SpansInBounds(write, w - write, 0, r);
      } else {
        NoSpans();
      }
    }

    /** The spans of the free space. */
    ghost function FreeSpans(): seq<Iovec>
      requires Valid()
      reads `read, `write, `canRead
    {
      if write < read then Spans(write, read - write, 0, 0)
      else if canRead && write == read then []
      else Spans(write, total - write, 0, read)
    }

    /** _Read: copy out at most len bytes, and consume them if move is set. The
        source moves its cursors in _Read exactly as MoveReadPt does. */
    method DoRead(len: nat, move: bool) returns (res: seq<Byte>)
      requires Valid()
      modifies `read, `write, `canRead
      ensures Valid()
      ensures res == old(Content())[..Min(len, |old(Content())|)]
      ensures Content() == if move then old(Content())[|res|..] else old(Content())
    {
      hide Ring.Wrap, Ring.Content, Ring.Room, Ring.ReadTo, Ring.UnreadTo, Ring.WriteTo, Ring.UnwriteTo, Ring.Used;
      ghost var cells := data[..];
      Ring.Reading(cells, read, write, canRead, len);
      res := CopyOut(len);
      if move {
        var n := ReadForward(len);
        assert data[..] == cells;
      }
    }

    /** The memcpy calls of _Read. */
    method CopyOut(len: nat) returns (res: seq<Byte>)
      requires Valid()
      ensures res == Content()[..Min(len, |Content()|)]
    {
      hide Ring.Wrap, Ring.Content, Ring.Room;
      Ring.Front(data[..], read, write, canRead, Min(len, GetCanReadLength()));
      if read < write {
        var size := write - read;
        if size <= len {
          return data[read..write];
        } else {
          return data[read..read + len];
        }
      } else {
        if !canRead && read == write {
          return [];
        }
        var sizeStart := write;
        var sizeEnd := total - read;
        var size := sizeStart + sizeEnd;
        if size <= len {
          return data[read..] + data[..sizeStart];
        } else if len <= sizeEnd {
          return data[read..read + len];
        } else {
          var left := len - sizeEnd;
          return data[read..] + data[..left];
        }
      }
    }

    /** _Write: append as much of src as fits. */
    method DoWrite(src: seq<Byte>) returns (n: nat)
      requires Valid()
      modifies `write, `canRead, data
      ensures Valid()
      ensures n == Min(|src|, |old(Room())|)
      ensures Content() == old(Content()) + src[..n]
      ensures Room() == old(Room())[n..]
    {
      hide Ring.Wrap, Ring.Content, Ring.Room;
      if write < read {
        n := WriteGap(src);
      } else {
        if canRead && read == write {
          return 0;
        }
        n := WriteEnds(src);
      }
    }

    /** One memcpy to the write cursor. */
    method CopyHere(src: seq<Byte>)
      requires Valid() && write + |src| <= total
      modifies data
      ensures Ring.Stored(old(data[..]), data[..], write, src)
    {
      hide Ring.Stored, Overwrite;
      MemCpy(data, write, src);
      Ring.StoredOnce(old(data[..]), data[..], write, src);
    }

    /** A memcpy that fills the block to its end and one that goes on at its start. */
    method CopyAround(src: seq<Byte>, sizeEnd: nat)
      requires Valid() && write + sizeEnd == total && sizeEnd <= |src| <= total
      modifies data
      ensures Ring.Stored(old(data[..]), data[..], write, src)
    {
      hide Ring.Stored, Overwrite;
      ghost var was := data[..];
      MemCpy(data, write, src[..sizeEnd]);
      ghost var mid := data[..];
      MemCpy(data, 0, src[sizeEnd..]);
      Ring.StoredTwice(was, mid, data[..], write, src[..sizeEnd], src[sizeEnd..]);
      assert src[..sizeEnd] + src[sizeEnd..] == src;
    }

    method WriteGap(src: seq<Byte>) returns (n: nat)
      requires Valid() && write < read
      modifies `write, `canRead, data
      ensures Valid()
      ensures n == Min(|src|, |old(Room())|)
      ensures Content() == old(Content()) + src[..n]
      ensures Room() == old(Room())[n..]
    {
      hide Ring.Wrap, Ring.Content, Ring.Room, Ring.Stored;
      var len := |src|;
      var size := read - write;
      ghost var now;
      if len <= size {
        assert src[..len] == src;
        CopyHere(src);
        now := data[..];
        write := write + len;
        if write == read { canRead := true; }
        n := len;
      } else {
        CopyHere(src[..size]);
        now := data[..];
        write := write + size;
        canRead := true;
        n := size;
      }
      assert data[..] == now;
      Ring.StoreCommit(old(data[..]), now, read, old(write), old(canRead), src[..n]);
    }

    method WriteEnds(src: seq<Byte>) returns (n: nat)
      requires Valid() && read <= write && !(read == write && canRead)
      modifies `write, `canRead, data
      ensures Valid()
      ensures n == Min(|src|, |old(Room())|)
      ensures Content() == old(Content()) + src[..n]
      ensures Room() == old(Room())[n..]
    {
      hide Ring.Wrap, Ring.Content, Ring.Room, Ring.Stored;
      var len := |src|;
      var sizeStart := read;
      var sizeEnd := total - write;
      var size := sizeStart + sizeEnd;
      ghost var now;
      assert src[..len] == src;
      if size <= len {
        CopyAround(src[..size], sizeEnd);
        now := data[..];
        write := read;
        canRead := true;
        n := size;
      } else if len <= sizeEnd {
        CopyHere(src);
        now := data[..];
        write := write + len;
        n := len;
      } else {
        var left := len - sizeEnd;
        CopyAround(src, sizeEnd);
        now := data[..];
        write := left;
        n := len;
      }
      assert data[..] == now;
      Ring.StoreCommit(old(data[..]), now, read, old(write), old(canRead), src[..n]);
    }

    /** Move the read cursor forward over len bytes of content, or back over -len
        bytes of room. Draining the block sends both cursors to its start. */
    method MoveReadPt(len: int) returns (n: nat)
      requires Valid()
      modifies `read, `write, `canRead
      ensures Valid()
      ensures len > 0 ==> n == Min(len, |old(Content())|) && Content() == old(Content())[n..]
      ensures 0 < len < |old(Content())| ==> Room() == old(Room()) + old(Content())[..n]
      ensures 0 < len && |old(Content())| <= len ==> Room() == data[..]
      ensures len <= 0 ==>
        var room := old(Room());
        && n == Min(-len, |room|)
        && Content() == room[|room| - n..] + old(Content())
        && Room() == room[..|room| - n]
    {
      hide Ring.Wrap, Ring.Content, Ring.Room, Ring.ReadTo, Ring.UnreadTo, Ring.WriteTo, Ring.UnwriteTo, Ring.Used;
      ghost var cells := data[..];
      if len > 0 {
        Ring.Reading(cells, read, write, canRead, len);
        n := ReadForward(len);
      } else {
        Ring.Unreading(cells, read, write, canRead, -len);
        n := ReadBack(-len);
      }
      assert data[..] == cells;
    }

    method ReadForward(len: nat) returns (n: nat)
      requires Valid()
      modifies `read, `write, `canRead
      ensures Valid() && n == Min(len, old(Ring.Used(total, read, write, canRead)))
      ensures Ring.Place(read, write, canRead) == old(Ring.ReadTo(total, read, write, canRead, len))
    {
      if read < write {
        var size := write - read;
        if size <= len {
          Clear();
          n := size;
        } else {
          read := read + len;
          n := len;
        }
      } else {
        if !canRead && read == write {
          return 0;
        }
        var sizeStart := write;
        var sizeEnd := total - read;
        var size := sizeStart + sizeEnd;
        if size <= len {
          Clear();
          n := size;
        } else if len <= sizeEnd {
          read := read + len;
          n := len;
        } else {
          var left := len - sizeEnd;
          read := left;
          n := len;
        }
      }
    }

    method ReadBack(len: nat) returns (n: nat)
      requires Valid()
      modifies `read, `canRead
      ensures Valid() && n == Min(len, old(total - Ring.Used(total, read, write, canRead)))
      ensures Ring.Place(read, write, canRead) == old(Ring.UnreadTo(total, read, write, canRead, len))
    {
      if write < read {
        var size := read - write;
        if size <= len {
          read := write;
          canRead := true;
          n := size;
        } else {
          read := read - len;
          n := len;
        }
      } else {
        if canRead && read == write {
          return 0;
        }
        var sizeStart := read;
        var sizeEnd := total - write;
        var size := sizeStart + sizeEnd;
        if size <= len {
          read := write;
          canRead := true;
          n := size;
        } else if len <= sizeStart {
          read := read - len;
          n := len;
        } else {
          var left := len - sizeStart;
          read := total - left;
          n := len;
        }
      }
    }

    /** Move the write cursor forward over len bytes of room, or back over -len
        bytes of content. */
    method MoveWritePt(len: int) returns (n: nat)
      requires Valid()
      modifies `read, `write, `canRead
      ensures Valid()
      ensures len > 0 ==>
        var room := old(Room());
        && n == Min(len, |room|)
        && Content() == old(Content()) + room[..n]
        && Room() == room[n..]
      ensures len <= 0 ==>
        var content := old(Content());
        && n == Min(-len, |content|)
        && Content() == content[..|content| - n]
        && Room() == (if n == 0 then old(Room()) else if n < |content| then content[|content| - n..] + old(Room()) else data[..])
    {
      hide Ring.Wrap, Ring.Content, Ring.Room, Ring.ReadTo, Ring.UnreadTo, Ring.WriteTo, Ring.UnwriteTo, Ring.Used;
      ghost var cells := data[..];
      if len > 0 {
        Ring.Writing(cells, read, write, canRead, len);
        n := WriteForward(len);
      } else {
        Ring.Unwriting(cells, read, write, canRead, -len);
        Ring.EmptyRoom(cells, read, write, canRead);
        n := WriteBack(-len);
      }
      assert data[..] == cells;
    }

    method WriteForward(len: nat) returns (n: nat)
      requires Valid() && 0 < len
      modifies `write, `canRead
      ensures Valid() && n == Min(len, old(total - Ring.Used(total, read, write, canRead)))
      ensures Ring.Place(read, write, canRead) == old(Ring.WriteTo(total, read, write, canRead, len))
    {
      if write < read {
        var size := read - write;
        if size <= len {
          write := read;
          canRead := true;
          n := size;
        } else {
          write := write + len;
          n := len;
        }
      } else {
        if canRead && read == write {
          return 0;
        }
        var sizeStart := read;
        var sizeEnd := total - write;
        var size := sizeStart + sizeEnd;
        if size <= len {
          write := read;
          canRead := true;
          n := size;
        } else if len <= sizeEnd {
          write := write + len;
          n := len;
        } else {
          var left := len - sizeEnd;
          write := left;
          n := len;
        }
      }
    }

    method WriteBack(len: nat) returns (n: nat)
      requires Valid()
      modifies `read, `write, `canRead
      ensures Valid() && n == Min(len, old(Ring.Used(total, read, write, canRead)))
      ensures Ring.Place(read, write, canRead) == old(Ring.UnwriteTo(total, read, write, canRead, len))
    {
      if read < write {
        var size := write - read;
        if size <= len {
          Clear();
          n := size;
        } else {
          write := write - len;
          n := len;
        }
      } else {
        if !canRead && read == write {
          return 0;
        }
        var sizeStart := write;
        var sizeEnd := total - read;
        var size := sizeStart + sizeEnd;
        if size <= len {
          Clear();
          n := size;
        } else if len <= sizeStart {
          write := write - len;
          n := len;
        } else {
          var left := len - sizeStart;
          write := total - left;
          n := len;
        }
      }
    }
  }
}
