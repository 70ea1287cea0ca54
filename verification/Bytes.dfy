// Bytes, spans of memory, and the two libc calls the buffers are built on.

module Bytes {
  import opened Basics

  newtype Byte = x: int | 0 <= x < 256

  /** A run of memory handed out to scatter/gather I/O. */
  datatype Iovec = Iovec(mem: array<Byte>, off: nat, len: nat) {
    ghost predicate InBounds() {
      off + len <= mem.Length
    }

    ghost predicate Meets(v: Iovec) {
      mem == v.mem && off < v.off + v.len && v.off < off + len
    }

    ghost predicate Starts(src: seq<Byte>)
      requires InBounds()
      reads mem
    {
      |src| <= len && mem[off..off + |src|] == src
    }

    ghost predicate Covers(a: array<Byte>, i: int) {
      mem == a && off <= i < off + len
    }
  }

  ghost predicate InBounds(iov: seq<Iovec>) {
    forall i :: 0 <= i < |iov| ==> iov[i].InBounds()
  }

  ghost function Mems(iov: seq<Iovec>): set<array<Byte>> {
    set v | v in iov :: v.mem
  }

  /** The bytes the spans hold, in order: what writev sends. */
  ghost function Gather(iov: seq<Iovec>): seq<Byte>
    requires InBounds(iov)
    reads Mems(iov)
  {
    if iov == [] then []
    else iov[0].mem[iov[0].off..iov[0].off + iov[0].len] + (assert iov[0] in iov; Gather(iov[1..]))
  }

  lemma GatherNothing()
    ensures Gather([]) == []
  {
  }

  lemma GatherUncons(iov: seq<Iovec>)
    requires InBounds(iov) && iov != []
    ensures InBounds(iov[1..])
    ensures Gather(iov) == iov[0].mem[iov[0].off..iov[0].off + iov[0].len] + Gather(iov[1..])
  {
  }

  lemma {:induction false} GatherCat(a: seq<Iovec>, b: seq<Iovec>)
    requires InBounds(a) && InBounds(b)
    ensures InBounds(a + b) && Gather(a + b) == Gather(a) + Gather(b)
  {
    hide Gather;
    if a == [] {
      assert a + b == b;
      GatherNothing();
    } else {
      var first := a[0].mem[a[0].off..a[0].off + a[0].len];
      assert (a + b)[1..] == a[1..] + b && InBounds(a + b);
      GatherUncons(a + b);
      GatherUncons(a);
      GatherCat(a[1..], b);
      assert first + (Gather(a[1..]) + Gather(b)) == first + Gather(a[1..]) + Gather(b);
    }
  }

  lemma MemsCat(a: seq<Iovec>, b: seq<Iovec>)
    ensures Mems(a + b) == Mems(a) + Mems(b)
  {
  }

  function Overwrite(s: seq<Byte>, off: nat, src: seq<Byte>): seq<Byte>
    requires off + |src| <= |s|
  {
    s[..off] + src + s[off + |src|..]
  }

  /** memcpy(dst + off, src, |src|). */
  method MemCpy(dst: array<Byte>, off: nat, src: seq<Byte>)
    requires off + |src| <= dst.Length
    modifies dst
    ensures dst[..] == Overwrite(old(dst[..]), off, src)
  {
    forall i | 0 <= i < |src| {
      dst[off + i] := src[i];
    }
  }

  function Total(iov: seq<Iovec>): nat {
    if iov == [] then 0 else iov[0].len + Total(iov[1..])
  }

  lemma {:induction false} GatherTotal(iov: seq<Iovec>)
    requires InBounds(iov)
    ensures |Gather(iov)| == Total(iov)
  {
    if iov != [] { GatherTotal(iov[1..]); }
  }

  lemma {:induction false} TotalCat(a: seq<Iovec>, b: seq<Iovec>)
    ensures Total(a + b) == Total(a) + Total(b)
  {
    if a == [] {
      assert a + b == b;
    } else {
      assert (a + b)[1..] == a[1..] + b;
      TotalCat(a[1..], b);
    }
  }

  ghost predicate Covered(iov: seq<Iovec>, a: array<Byte>, i: int) {
    exists v :: v in iov && v.Covers(a, i)
  }

  /** No two spans share a byte of memory. */
  ghost predicate Apart(iov: seq<Iovec>) {
    forall j, k :: 0 <= j < k < |iov| ==> !iov[j].Meets(iov[k])
  }

  lemma Uncons(iov: seq<Iovec>)
    requires InBounds(iov) && Apart(iov) && iov != []
    ensures iov[0].InBounds() && InBounds(iov[1..]) && Apart(iov[1..])
    ensures Total(iov) == iov[0].len + Total(iov[1..])
    ensures Mems(iov) == {iov[0].mem} + Mems(iov[1..])
    ensures forall a, i :: Covered(iov, a, i) <==> iov[0].Covers(a, i) || Covered(iov[1..], a, i)
    ensures forall i :: iov[0].Covers(iov[0].mem, i) ==> !Covered(iov[1..], iov[0].mem, i)
  {
  }

  /** memcpy into the front of one span. */
  method Fill(v: Iovec, src: seq<Byte>)
    requires v.InBounds() && |src| <= v.len
    modifies v.mem
    ensures v.Starts(src)
    ensures forall i :: 0 <= i < v.mem.Length && !v.Covers(v.mem, i) ==> v.mem[i] == old(v.mem[i])
  {
    MemCpy(v.mem, v.off, src);
  }

  /** The spans hold src first. */
  ghost predicate HoldsFirst(iov: seq<Iovec>, src: seq<Byte>)
    requires InBounds(iov)
    reads Mems(iov)
  {
    |src| <= |Gather(iov)| && Gather(iov)[..|src|] == src
  }

  lemma Filled(iov: seq<Iovec>, src: seq<Byte>)
    requires InBounds(iov) && iov != [] && InBounds(iov[1..])
    requires var n := Min(iov[0].len, |src|);
             iov[0].InBounds() && iov[0].Starts(src[..n]) && HoldsFirst(iov[1..], src[n..])
    ensures HoldsFirst(iov, src)
  {
    var v, n := iov[0], Min(iov[0].len, |src|);
    GatherUncons(iov);
    Joined(v.mem[v.off..v.off + v.len], Gather(iov[1..]), src, n);
  }

  /** readv: store src into the spans, in order. */
  method Readv(iov: seq<Iovec>, src: seq<Byte>)
    requires InBounds(iov) && Apart(iov) && |src| <= Total(iov)
    modifies Mems(iov)
    ensures HoldsFirst(iov, src)
    ensures forall a, i :: a in Mems(iov) && 0 <= i < a.Length && !Covered(iov, a, i) ==> a[i] == old(a[i])
    decreases |iov|, 0
  {
    if iov == [] {
      GatherNothing();
      return;
    }
    Uncons(iov);
    hide InBounds, Apart, Gather, Total, Covered, HoldsFirst, Iovec.Starts;
    var v, n := iov[0], Min(iov[0].len, |src|);
    Fill(v, src[..n]);
    label Mid:
    ReadvRest(v, iov[1..], src[n..], src[..n]);
    Filled(iov, src);
    forall a, i | a in Mems(iov) && 0 <= i < a.Length && !Covered(iov, a, i)
      ensures a[i] == old(a[i])
    {
      assert a[i] == old@Mid(a[i]);
    }
  }

  /** The rest of readv, which leaves the first span alone. */
  method ReadvRest(v: Iovec, tail: seq<Iovec>, src: seq<Byte>, ghost done: seq<Byte>)
    requires v.InBounds() && InBounds(tail) && Apart(tail) && |src| <= Total(tail)
    requires forall i :: v.Covers(v.mem, i) ==> !Covered(tail, v.mem, i)
    requires v.Starts(done)
    modifies Mems(tail)
    ensures HoldsFirst(tail, src)
    ensures v.Starts(done)
    ensures forall a, i :: a in Mems(tail) && 0 <= i < a.Length && !Covered(tail, a, i) ==> a[i] == old(a[i])
    decreases |tail|, 1
  {
    hide InBounds, Apart, Gather, Total, Covered, HoldsFirst;
    Readv(tail, src);
    assert forall i :: v.off <= i < v.off + v.len ==> v.Covers(v.mem, i) && v.mem[i] == old(v.mem[i]);
  }

  lemma Joined(a: seq<Byte>, b: seq<Byte>, src: seq<Byte>, n: nat)
    requires n <= |src| && n <= |a| && |src| - n <= |b| && (n < |a| ==> n == |src|)
    requires a[..n] == src[..n] && b[..|src| - n] == src[n..]
    ensures (a + b)[..|src|] == src
  {
  }

  /** What spans hold, copied out. */
  method CopySpans(iov: seq<Iovec>) returns (bytes: seq<Byte>)
    requires InBounds(iov)
    ensures bytes == Gather(iov)
  {
    hide Gather;
    bytes := [];
    assert iov[0..] == iov;
    for i := 0 to |iov|
      invariant InBounds(iov[i..]) && bytes + Gather(iov[i..]) == Gather(iov)
    {
      GatherUncons(iov[i..]);
      assert iov[i..][1..] == iov[i + 1..];
      bytes := bytes + iov[i].mem[iov[i].off..iov[i].off + iov[i].len];
    }
    GatherNothing();
    assert iov[|iov|..] == [];
  }
}
