// Cursor arithmetic of the byte ring in common/buffer/buffer_block.cpp, on values.
// A state of the ring is its cells, a read cursor, a write cursor and the
// canRead flag; cursors range over 0..|cells| inclusive.

module Ring {
  import opened Basics
  import opened Bytes

  /** Which cursor pairs the block can be in. Equal cursors mean "full" exactly when
      canRead is set, an empty block has both cursors at the start, and when the
      cursors differ canRead says nothing. */
  predicate Cursors(total: nat, r: nat, w: nat, canRead: bool) {
    && 0 < total
    && r <= total
    && w <= total
    && (r == w && !canRead ==> r == 0)
    && !(r == 0 && w == total)
    && !(r == total && w == 0)
  }

  function Used(total: nat, r: nat, w: nat, canRead: bool): (n: nat)
    requires Cursors(total, r, w, canRead)
    ensures n <= total
  {
    if w > r then w - r
    else if w < r then (total - r) + w
    else if canRead then total
    else 0
  }

  /** The n bytes that start at cursor `from` and wrap at the end of the cells. */
  function Wrap(cells: seq<Byte>, from: nat, n: nat): (s: seq<Byte>)
    requires from <= |cells| && n <= |cells|
    ensures |s| == n
  {
    seq(n, i requires 0 <= i < n => if from + i < |cells| then cells[from + i] else cells[from + i - |cells|])
  }

  lemma WrapSplit(cells: seq<Byte>, from: nat, m: nat, n: nat)
    requires from <= |cells| && m + n <= |cells|
    ensures Wrap(cells, from, m + n) == Wrap(cells, from, m) + Wrap(cells, Ahead(|cells|, from, m), n)
  {
  }

  lemma SameWrap(cells: seq<Byte>, p: nat, q: nat, n: nat)
    requires Same(|cells|, p, q) && n <= |cells|
    ensures Wrap(cells, p, n) == Wrap(cells, q, n)
  {
  }

  /** The bytes waiting to be read, oldest first. */
  function Content(cells: seq<Byte>, r: nat, w: nat, canRead: bool): (s: seq<Byte>)
    requires Cursors(|cells|, r, w, canRead)
    ensures |s| == Used(|cells|, r, w, canRead)
  {
    Wrap(cells, r, Used(|cells|, r, w, canRead))
  }

  /** The bytes lying in the free space, in the order in which writes will fill it. */
  function Room(cells: seq<Byte>, r: nat, w: nat, canRead: bool): (s: seq<Byte>)
    requires Cursors(|cells|, r, w, canRead)
    ensures |s| == |cells| - Used(|cells|, r, w, canRead)
  {
    Wrap(cells, w, |cells| - Used(|cells|, r, w, canRead))
  }

  /** The room of an empty block is the block. */
  lemma AtStart(cells: seq<Byte>)
    requires 0 < |cells|
    ensures Room(cells, 0, 0, false) == cells
  {
  }

  lemma EmptyRoom(cells: seq<Byte>, r: nat, w: nat, canRead: bool)
    requires Cursors(|cells|, r, w, canRead)
    ensures |Content(cells, r, w, canRead)| == 0 ==> Room(cells, r, w, canRead) == cells
  {
    AtStart(cells);
  }

  /** Cursor p moved forward by k cells. */
  function Ahead(total: nat, p: nat, k: nat): nat
    requires p <= total && k <= total
  {
    if k <= total - p then p + k else k - (total - p)
  }

  /** Cursor p moved back by k cells. */
  function Behind(total: nat, p: nat, k: nat): nat
    requires p <= total && k <= total
  {
    if k <= p then p - k else total - (k - p)
  }

  /** The content as at most two stretches of the cells. */
  lemma ContentLies(cells: seq<Byte>, r: nat, w: nat, canRead: bool)
    requires Cursors(|cells|, r, w, canRead)
    ensures r < w ==> Content(cells, r, w, canRead) == cells[r..w] + cells[0..0]
    ensures w < r || (w == r && canRead) ==>
              Content(cells, r, w, canRead) == cells[r..|cells|] + cells[0..w]
  {
  }

  /** The room as at most two stretches of the cells. */
  lemma RoomLies(cells: seq<Byte>, r: nat, w: nat, canRead: bool)
    requires Cursors(|cells|, r, w, canRead)
    ensures w < r ==> Room(cells, r, w, canRead) == cells[w..r] + cells[0..0]
    ensures r < w || (w == r && !canRead) ==>
              Room(cells, r, w, canRead) == cells[w..|cells|] + cells[0..r]
  {
  }

  /** Where the oldest k bytes of the content lie. */
  lemma Front(cells: seq<Byte>, r: nat, w: nat, canRead: bool, k: nat)
    requires Cursors(|cells|, r, w, canRead) && k <= Used(|cells|, r, w, canRead)
    ensures Content(cells, r, w, canRead)[..k]
         == if r + k <= |cells| then cells[r..r + k] else cells[r..] + cells[..r + k - |cells|]
  {
  }

  datatype Place = Place(r: nat, w: nat, canRead: bool)

  /** Where the cursors stand after k bytes are read. */
  function ReadTo(total: nat, r: nat, w: nat, canRead: bool, k: nat): Place
    requires Cursors(total, r, w, canRead)
  {
    if Used(total, r, w, canRead) <= k then Place(0, 0, false) else Place(Ahead(total, r, k), w, canRead)
  }

  /** Where they stand after k bytes are put back. */
  function UnreadTo(total: nat, r: nat, w: nat, canRead: bool, k: nat): Place
    requires Cursors(total, r, w, canRead)
  {
    if total - Used(total, r, w, canRead) <= k then Place(w, w, true) else Place(Behind(total, r, k), w, canRead)
  }

  /** Where they stand after k bytes of room are committed. */
  function WriteTo(total: nat, r: nat, w: nat, canRead: bool, k: nat): Place
    requires Cursors(total, r, w, canRead)
  {
    if total - Used(total, r, w, canRead) <= k then Place(r, r, true) else Place(r, Ahead(total, w, k), canRead)
  }

  /** Where they stand after k bytes are taken back. */
  function UnwriteTo(total: nat, r: nat, w: nat, canRead: bool, k: nat): Place
    requires Cursors(total, r, w, canRead)
  {
    if Used(total, r, w, canRead) <= k then Place(0, 0, false) else Place(r, Behind(total, w, k), canRead)
  }

  /** The end of the cells and their start are the same place. */
  predicate Same(total: nat, p: nat, q: nat) {
    p <= total && q <= total && (p == q || (p == 0 && q == total) || (p == total && q == 0))
  }

  // What the moves do to the cursors.

  lemma ReadCursor(total: nat, r: nat, w: nat, canRead: bool, k: nat)
    requires Cursors(total, r, w, canRead) && k < Used(total, r, w, canRead)
    ensures Cursors(total, Ahead(total, r, k), w, canRead)
    ensures Used(total, Ahead(total, r, k), w, canRead) == Used(total, r, w, canRead) - k
    ensures Same(total, Ahead(total, w, total - Used(total, r, w, canRead)), r)
  {
  }

  lemma UnreadCursor(total: nat, r: nat, w: nat, canRead: bool, k: nat)
    requires Cursors(total, r, w, canRead) && k + Used(total, r, w, canRead) < total
    ensures Cursors(total, Behind(total, r, k), w, canRead)
    ensures Used(total, Behind(total, r, k), w, canRead) == Used(total, r, w, canRead) + k
    ensures Same(total, Ahead(total, Behind(total, r, k), k), r)
    ensures Same(total, Ahead(total, w, total - Used(total, r, w, canRead) - k), Behind(total, r, k))
  {
  }

  lemma WriteCursor(total: nat, r: nat, w: nat, canRead: bool, k: nat)
    requires Cursors(total, r, w, canRead) && k + Used(total, r, w, canRead) < total
    ensures Cursors(total, r, Ahead(total, w, k), canRead)
    ensures Used(total, r, Ahead(total, w, k), canRead) == Used(total, r, w, canRead) + k
    ensures Same(total, Ahead(total, r, Used(total, r, w, canRead)), w)
  {
  }

  lemma UnwriteCursor(total: nat, r: nat, w: nat, canRead: bool, k: nat)
    requires Cursors(total, r, w, canRead) && k < Used(total, r, w, canRead)
    ensures Cursors(total, r, Behind(total, w, k), canRead)
    ensures Used(total, r, Behind(total, w, k), canRead) == Used(total, r, w, canRead) - k
    ensures Same(total, Ahead(total, Behind(total, w, k), k), w)
    ensures Same(total, Ahead(total, r, Used(total, r, w, canRead) - k), Behind(total, w, k))
  {
  }

  // And what that does to the content and the room.

  lemma DropFront(cells: seq<Byte>, r: nat, w: nat, canRead: bool, k: nat)
    requires Cursors(|cells|, r, w, canRead) && k < Used(|cells|, r, w, canRead)
    ensures var r' := Ahead(|cells|, r, k);
            && Cursors(|cells|, r', w, canRead)
            && Content(cells, r', w, canRead) == Content(cells, r, w, canRead)[k..]
            && Room(cells, r', w, canRead) == Room(cells, r, w, canRead) + Content(cells, r, w, canRead)[..k]
  {
    hide Wrap, Cursors, Used, Ahead, Behind, Same;
    ReadCursor(|cells|, r, w, canRead, k);
    var used := Used(|cells|, r, w, canRead);
    WrapSplit(cells, r, k, used - k);
    WrapSplit(cells, w, |cells| - used, k);
    SameWrap(cells, Ahead(|cells|, w, |cells| - used), r, k);
  }

  lemma UndropFront(cells: seq<Byte>, r: nat, w: nat, canRead: bool, k: nat)
    requires Cursors(|cells|, r, w, canRead) && k + Used(|cells|, r, w, canRead) < |cells|
    ensures var r' := Behind(|cells|, r, k);
            var room := Room(cells, r, w, canRead);
            && Cursors(|cells|, r', w, canRead)
            && Content(cells, r', w, canRead) == room[|room| - k..] + Content(cells, r, w, canRead)
            && Room(cells, r', w, canRead) == room[..|room| - k]
  {
    hide Wrap, Cursors, Used, Ahead, Behind, Same;
    UnreadCursor(|cells|, r, w, canRead, k);
    var used := Used(|cells|, r, w, canRead);
    var r' := Behind(|cells|, r, k);
    WrapSplit(cells, r', k, used);
    WrapSplit(cells, w, |cells| - used - k, k);
    SameWrap(cells, Ahead(|cells|, w, |cells| - used - k), r', k);
    SameWrap(cells, Ahead(|cells|, r', k), r, used);
  }

  /** Taking the read cursor back to the write cursor re-exposes the whole block. */
  lemma UndropAll(cells: seq<Byte>, r: nat, w: nat, canRead: bool)
    requires Cursors(|cells|, r, w, canRead) && Used(|cells|, r, w, canRead) < |cells|
    ensures Cursors(|cells|, w, w, true)
    ensures Content(cells, w, w, true) == Room(cells, r, w, canRead) + Content(cells, r, w, canRead)
    ensures Room(cells, w, w, true) == []
  {
  }

  lemma Commit(cells: seq<Byte>, r: nat, w: nat, canRead: bool, k: nat)
    requires Cursors(|cells|, r, w, canRead) && k + Used(|cells|, r, w, canRead) < |cells|
    ensures var w' := Ahead(|cells|, w, k);
            var room := Room(cells, r, w, canRead);
            && Cursors(|cells|, r, w', canRead)
            && Content(cells, r, w', canRead) == Content(cells, r, w, canRead) + room[..k]
            && Room(cells, r, w', canRead) == room[k..]
  {
    hide Wrap, Cursors, Used, Ahead, Behind, Same;
    WriteCursor(|cells|, r, w, canRead, k);
    var used := Used(|cells|, r, w, canRead);
    WrapSplit(cells, w, k, |cells| - used - k);
    WrapSplit(cells, r, used, k);
    SameWrap(cells, Ahead(|cells|, r, used), w, k);
  }

  /** Taking the write cursor up to the read cursor commits all the room. */
  lemma CommitAll(cells: seq<Byte>, r: nat, w: nat, canRead: bool)
    requires Cursors(|cells|, r, w, canRead) && Used(|cells|, r, w, canRead) < |cells|
    ensures Cursors(|cells|, r, r, true)
    ensures Content(cells, r, r, true) == Content(cells, r, w, canRead) + Room(cells, r, w, canRead)
    ensures Room(cells, r, r, true) == []
  {
  }

  lemma Uncommit(cells: seq<Byte>, r: nat, w: nat, canRead: bool, k: nat)
    requires Cursors(|cells|, r, w, canRead) && k < Used(|cells|, r, w, canRead)
    ensures var w' := Behind(|cells|, w, k);
            var content := Content(cells, r, w, canRead);
            && Cursors(|cells|, r, w', canRead)
            && Content(cells, r, w', canRead) == content[..|content| - k]
            && Room(cells, r, w', canRead) == content[|content| - k..] + Room(cells, r, w, canRead)
  {
    hide Wrap, Cursors, Used, Ahead, Behind, Same;
    UnwriteCursor(|cells|, r, w, canRead, k);
    var used := Used(|cells|, r, w, canRead);
    var w' := Behind(|cells|, w, k);
    WrapSplit(cells, r, used - k, k);
    WrapSplit(cells, w', k, |cells| - used);
    SameWrap(cells, Ahead(|cells|, r, used - k), w', k);
    SameWrap(cells, Ahead(|cells|, w', k), w, |cells| - used);
  }

  lemma Reading(cells: seq<Byte>, r: nat, w: nat, canRead: bool, k: nat)
    requires Cursors(|cells|, r, w, canRead)
    ensures var p := ReadTo(|cells|, r, w, canRead, k);
            var content := Content(cells, r, w, canRead);
            var n := Min(k, |content|);
            && Cursors(|cells|, p.r, p.w, p.canRead)
            && Content(cells, p.r, p.w, p.canRead) == content[n..]
            && (k < |content| ==> Room(cells, p.r, p.w, p.canRead) == Room(cells, r, w, canRead) + content[..n])
            && (|content| <= k ==> Room(cells, p.r, p.w, p.canRead) == cells)
  {
    if k < Used(|cells|, r, w, canRead) {
      DropFront(cells, r, w, canRead, k);
    } else {
      AtStart(cells);
    }
  }

  lemma Unreading(cells: seq<Byte>, r: nat, w: nat, canRead: bool, k: nat)
    requires Cursors(|cells|, r, w, canRead)
    ensures var p := UnreadTo(|cells|, r, w, canRead, k);
            var room := Room(cells, r, w, canRead);
            var n := Min(k, |room|);
            && Cursors(|cells|, p.r, p.w, p.canRead)
            && Content(cells, p.r, p.w, p.canRead) == room[|room| - n..] + Content(cells, r, w, canRead)
            && Room(cells, p.r, p.w, p.canRead) == room[..|room| - n]
  {
    if k + Used(|cells|, r, w, canRead) < |cells| {
      UndropFront(cells, r, w, canRead, k);
    } else if Used(|cells|, r, w, canRead) < |cells| {
      UndropAll(cells, r, w, canRead);
    }
  }

  lemma Writing(cells: seq<Byte>, r: nat, w: nat, canRead: bool, k: nat)
    requires Cursors(|cells|, r, w, canRead)
    ensures var p := WriteTo(|cells|, r, w, canRead, k);
            var room := Room(cells, r, w, canRead);
            var n := Min(k, |room|);
            && Cursors(|cells|, p.r, p.w, p.canRead)
            && Content(cells, p.r, p.w, p.canRead) == Content(cells, r, w, canRead) + room[..n]
            && Room(cells, p.r, p.w, p.canRead) == room[n..]
  {
    if k + Used(|cells|, r, w, canRead) < |cells| {
      Commit(cells, r, w, canRead, k);
    } else if Used(|cells|, r, w, canRead) < |cells| {
      CommitAll(cells, r, w, canRead);
    }
  }

  lemma Unwriting(cells: seq<Byte>, r: nat, w: nat, canRead: bool, k: nat)
    requires Cursors(|cells|, r, w, canRead)
    ensures var p := UnwriteTo(|cells|, r, w, canRead, k);
            var content := Content(cells, r, w, canRead);
            var n := Min(k, |content|);
            && Cursors(|cells|, p.r, p.w, p.canRead)
            && Content(cells, p.r, p.w, p.canRead) == content[..|content| - n]
            && (k < |content| ==> Room(cells, p.r, p.w, p.canRead) == content[|content| - n..] + Room(cells, r, w, canRead))
            && (|content| <= k ==> Room(cells, p.r, p.w, p.canRead) == cells)
  {
    if k < Used(|cells|, r, w, canRead) {
      Uncommit(cells, r, w, canRead, k);
    } else {
      AtStart(cells);
    }
  }

  /** cells' is cells with src copied to the cells from w on, wrapping at their end. */
  ghost predicate Stored(cells: seq<Byte>, cells': seq<Byte>, w: nat, src: seq<Byte>)
    requires w <= |cells| && |src| <= |cells|
  {
    && |cells'| == |cells|
    && forall i :: 0 <= i < |cells| ==>
         cells'[i] == if w <= i < w + |src| then src[i - w]
                      else if i + |cells| < w + |src| then src[i + |cells| - w]
                      else cells[i]
  }

  /** One memcpy does it when src fits before the end of the cells. */
  lemma StoredOnce(cells: seq<Byte>, cells': seq<Byte>, w: nat, src: seq<Byte>)
    requires w + |src| <= |cells|
    requires cells' == Overwrite(cells, w, src)
    ensures Stored(cells, cells', w, src)
  {
  }

  /** Otherwise two do it. */
  lemma StoredTwice(cells: seq<Byte>, mid: seq<Byte>, cells': seq<Byte>, w: nat, head: seq<Byte>, tail: seq<Byte>)
    requires w + |head| == |cells| && |tail| <= w
    requires mid == Overwrite(cells, w, head)
    requires cells' == Overwrite(mid, 0, tail)
    ensures Stored(cells, cells', w, head + tail)
  {
  }

  /** Storing src at the front of the room leaves the content alone. */
  lemma Store(cells: seq<Byte>, cells': seq<Byte>, r: nat, w: nat, canRead: bool, src: seq<Byte>)
    requires Cursors(|cells|, r, w, canRead) && |src| + Used(|cells|, r, w, canRead) <= |cells|
    requires Stored(cells, cells', w, src)
    ensures Content(cells', r, w, canRead) == Content(cells, r, w, canRead)
    ensures Room(cells', r, w, canRead) == src + Room(cells, r, w, canRead)[|src|..]
  {
  }

  /** Storing src and then moving the write cursor over it appends src. */
  lemma StoreCommit(cells: seq<Byte>, cells': seq<Byte>, r: nat, w: nat, canRead: bool, src: seq<Byte>)
    requires Cursors(|cells|, r, w, canRead) && |src| + Used(|cells|, r, w, canRead) <= |cells|
    requires Stored(cells, cells', w, src)
    ensures |cells'| == |cells|
    ensures var p := WriteTo(|cells|, r, w, canRead, |src|);
            && Cursors(|cells|, p.r, p.w, p.canRead)
            && Content(cells', p.r, p.w, p.canRead) == Content(cells, r, w, canRead) + src
            && Room(cells', p.r, p.w, p.canRead) == Room(cells, r, w, canRead)[|src|..]
  {
    hide Wrap, Content, Room, Stored;
    Store(cells, cells', r, w, canRead, src);
    Writing(cells', r, w, canRead, |src|);
  }

  /** Cell i lies in the free space. */
  predicate InRoom(total: nat, r: nat, w: nat, canRead: bool, i: int)
    requires Cursors(total, r, w, canRead)
  {
    if w < r then w <= i < r
    else !(r == w && canRead) && (w <= i < total || 0 <= i < r)
  }

}
