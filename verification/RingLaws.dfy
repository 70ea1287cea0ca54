// What one cursor move of a block undoes of another.

module RingLaws {
  import opened Bytes
  import opened BufferBlocks
  import Ring

  /** MoveWritePt(-k) undoes MoveWritePt(k). */
  lemma UndoWrite(cells: seq<Byte>, r: nat, w: nat, canRead: bool, k: nat)
    requires Ring.Cursors(|cells|, r, w, canRead)
    requires k <= |Ring.Room(cells, r, w, canRead)|
    ensures var p := Ring.WriteTo(|cells|, r, w, canRead, k);
            && Ring.Cursors(|cells|, p.r, p.w, p.canRead)
            && var q := Ring.UnwriteTo(|cells|, p.r, p.w, p.canRead, k);
            && Ring.Cursors(|cells|, q.r, q.w, q.canRead)
            && Ring.Content(cells, q.r, q.w, q.canRead) == Ring.Content(cells, r, w, canRead)
            && Ring.Room(cells, q.r, q.w, q.canRead) == Ring.Room(cells, r, w, canRead)
  {
    hide Ring.Wrap, Ring.Content, Ring.Room, Ring.Used, Ring.WriteTo, Ring.UnwriteTo, Ring.Cursors;
    var p := Ring.WriteTo(|cells|, r, w, canRead, k);
    Ring.Writing(cells, r, w, canRead, k);
    Ring.Unwriting(cells, p.r, p.w, p.canRead, k);
    Ring.EmptyRoom(cells, r, w, canRead);
  }

  /** MoveReadPt(-k) undoes MoveReadPt(k) unless k drains the block. Then the cursors
      go back to the start, and what comes back is the last k cells of the block. */
  lemma UndoRead(cells: seq<Byte>, r: nat, w: nat, canRead: bool, k: nat)
    requires Ring.Cursors(|cells|, r, w, canRead)
    requires 0 < k <= |Ring.Content(cells, r, w, canRead)|
    ensures var p := Ring.ReadTo(|cells|, r, w, canRead, k);
            && Ring.Cursors(|cells|, p.r, p.w, p.canRead)
            && var q := Ring.UnreadTo(|cells|, p.r, p.w, p.canRead, k);
            var content := Ring.Content(cells, r, w, canRead);
            && Ring.Cursors(|cells|, q.r, q.w, q.canRead)
            && (Ring.Content(cells, q.r, q.w, q.canRead) == content
                <==> k < |content| || cells[|cells| - k..] == content)
            && (k < |content| ==> Ring.Room(cells, q.r, q.w, q.canRead) == Ring.Room(cells, r, w, canRead))
  {
    hide Ring.Wrap, Ring.Content, Ring.Room, Ring.Used, Ring.ReadTo, Ring.UnreadTo, Ring.Cursors;
    var p := Ring.ReadTo(|cells|, r, w, canRead, k);
    Ring.Reading(cells, r, w, canRead, k);
    Ring.Unreading(cells, p.r, p.w, p.canRead, k);
  }

  /** The same laws of the block itself. */
  method WriteThenUnwrite(b: BufferBlock, k: int)
    requires b.Valid() && 0 < k <= |b.Room()|
    modifies b
    ensures b.Valid() && b.Content() == old(b.Content()) && b.Room() == old(b.Room())
  {
    hide Ring.Wrap, Ring.Content, Ring.Room;
    Ring.AtStart(b.data[..]);
    ghost var cells := b.data[..];
    var n := b.MoveWritePt(k);
    n := b.MoveWritePt(-k);
    assert b.data[..] == cells;
  }

  method ReadThenUnread(b: BufferBlock, k: int)
    requires b.Valid() && 0 < k <= |b.Content()|
    modifies b
    ensures b.Valid()
    ensures b.Content() == old(b.Content()) <==> k < |old(b.Content())| || old(b.data[b.total - k..] == b.Content())
    ensures b.Room() == if k < |old(b.Content())| then old(b.Room()) else old(b.data[..b.total - k])
  {
    hide Ring.Wrap, Ring.Content, Ring.Room;
    ghost var cells := b.data[..];
    var n := b.MoveReadPt(k);
    assert b.data[..] == cells;
    n := b.MoveReadPt(-k);
  }

  /** Draining is not undone: a block of two cells that held 7 gives back 8. */
  lemma DrainIsNotUndone()
    ensures var cells: seq<Byte> := [7, 8];
            && Ring.Content(cells, 0, 1, false) == [7]
            && Ring.ReadTo(2, 0, 1, false, 1) == Ring.Place(0, 0, false)
            && Ring.UnreadTo(2, 0, 0, false, 1) == Ring.Place(1, 0, false)
            && Ring.Content(cells, 1, 0, false) == [8]
  {
  }
}
