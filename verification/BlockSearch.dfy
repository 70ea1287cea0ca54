// BufferBlock::FindStr and _FindStrInMem of common/buffer/buffer_block.cpp.

module BlockSearch {
  import opened Bytes
  import opened BufferBlocks
  import Ring

  /** s occurs in t at p. */
  ghost predicate At(t: seq<Byte>, p: nat, s: seq<Byte>) {
    p + |s| <= |t| && t[p..p + |s|] == s
  }

  /** s occurs in t at p and nowhere earlier. */
  ghost predicate FirstAt(t: seq<Byte>, p: nat, s: seq<Byte>) {
    At(t, p, s) && forall q: nat :: q < p ==> !At(t, q, s)
  }

  ghost predicate Nowhere(t: seq<Byte>, s: seq<Byte>) {
    forall p: nat :: !At(t, p, s)
  }

  /** s occurs in content at p without straddling the seam at position seg. */
  ghost predicate Occurs(content: seq<Byte>, seg: nat, p: nat, s: seq<Byte>) {
    At(content, p, s) && (p + |s| <= seg || seg <= p)
  }

  lemma OccursInParts(t1: seq<Byte>, t2: seq<Byte>, s: seq<Byte>, p: nat)
    ensures Occurs(t1 + t2, |t1|, p, s) <==> At(t1, p, s) || (|t1| <= p && At(t2, p - |t1|, s))
  {
  }

  lemma NowhereInNothing(s: seq<Byte>)
    requires 0 < |s|
    ensures Nowhere([], s)
  {
  }

  lemma FirstByte(t: seq<Byte>, p: nat, s: seq<Byte>)
    requires 0 < |s|
    ensures At(t, p, s) ==> t[p] == s[0]
  {
  }

  /** The length of the first of the two stretches of memory the content lies in. */
  function FirstStretch(b: BufferBlock): nat
    requires b.Valid()
    reads b
  {
    if b.write > b.read then b.write - b.read else b.total - b.read
  }

  /** memchr(mem + from, c, n): the first c among n bytes. */
  method MemChr(mem: array<Byte>, from: nat, c: Byte, n: nat) returns (find: int)
    requires from + n <= mem.Length
    ensures find < 0 ==> forall i :: from <= i < from + n ==> mem[i] != c
    ensures find >= 0 ==> from <= find < from + n && mem[find] == c && forall i :: from <= i < find ==> mem[i] != c
  {
    find := from;
    while find < from + n
      invariant from <= find <= from + n
      invariant forall i :: from <= i < find ==> mem[i] != c
    {
      if mem[find] == c { return; }
      find := find + 1;
    }
    find := -1;
  }

  /** s does not occur in t before place n. */
  ghost predicate NotBefore(t: seq<Byte>, n: nat, s: seq<Byte>) {
    forall p: nat :: p < n ==> !At(t, p, s)
  }

  /** Skipping to the next place with the right first byte skips no occurrence. */
  lemma Skipped(t: seq<Byte>, m: nat, n: nat, s: seq<Byte>)
    requires 0 < |s| && m <= n <= |t| && NotBefore(t, m, s) && forall i :: m <= i < n ==> t[i] != s[0]
    ensures NotBefore(t, n, s)
  {
    forall p: nat | p < n
      ensures !At(t, p, s)
    {
      FirstByte(t, p, s);
    }
  }

  /** What is left is too short. */
  lemma TooShort(t: seq<Byte>, n: nat, s: seq<Byte>)
    requires NotBefore(t, n, s) && |t| < n + |s|
    ensures Nowhere(t, s)
  {
  }

  lemma OneNot(t: seq<Byte>, n: nat, s: seq<Byte>)
    requires NotBefore(t, n, s) && !At(t, n, s)
    ensures NotBefore(t, n + 1, s)
  {
  }

  lemma FoundAt(t: seq<Byte>, n: nat, s: seq<Byte>)
    requires NotBefore(t, n, s) && At(t, n, s)
    ensures FirstAt(t, n, s)
  {
  }

  lemma NotBeforeStart(t: seq<Byte>, s: seq<Byte>)
    ensures NotBefore(t, 0, s)
  {
  }

  /** The first place in mem[buffer..buffer + bufferLen] where ch starts, or -1. */
  method FindStrInMem(mem: array<Byte>, buffer: nat, ch: seq<Byte>, bufferLen: nat) returns (find: int)
    requires buffer + bufferLen <= mem.Length && 0 < |ch|
    ensures find < 0 ==> Nowhere(mem[buffer..buffer + bufferLen], ch)
    ensures find >= 0 ==> buffer <= find && FirstAt(mem[buffer..buffer + bufferLen], find - buffer, ch)
  {
    hide At, FirstAt, Nowhere, NotBefore;
    ghost var t := mem[buffer..buffer + bufferLen];
    var bufferEnd := buffer + bufferLen;
    var buff := buffer;
    var finded := 0;
    NotBeforeStart(t, ch);
    while true
      invariant buff == buffer + finded && finded <= bufferLen && NotBefore(t, finded, ch)
      decreases bufferLen - finded
    {
      find := MemChr(mem, buff, ch[0], bufferLen - finded);
      Skipped(t, finded, (if find < 0 then bufferEnd else find) - buffer, ch);
      if find < 0 || find > bufferEnd - |ch| {
        TooShort(t, (if find < 0 then bufferEnd else find) - buffer, ch);
        break;
      }
      AtOf(t, find - buffer, ch);
      assert t[find - buffer..find - buffer + |ch|] == mem[find..find + |ch|];
      if mem[find..find + |ch|] == ch {
        FoundAt(t, find - buffer, ch);
        return;
      }
      OneNot(t, find - buffer, ch);
      finded := finded + (find - buff + 1);
      if bufferLen - finded < |ch| {
        TooShort(t, finded, ch);
        break;
      }
      find := find + 1;
      buff := find;
    }
    find := -1;
  }

  lemma AtOf(t: seq<Byte>, p: nat, s: seq<Byte>)
    requires p + |s| <= |t|
    ensures At(t, p, s) <==> t[p..p + |s|] == s
  {
  }

  /** The content is one stretch of memory, or one up to the end of the block
      followed by one from its start. */
  lemma Stretches(b: BufferBlock)
    requires b.Valid() && (b.read != b.write || b.canRead)
    ensures b.read < b.write ==> b.Content() == b.data[b.read..b.write]
    ensures b.write <= b.read ==> b.Content() == b.data[b.read..] + b.data[..b.write]
  {
  }

  /** What n, the answer of FindStr, says of content whose first stretch has seg bytes. */
  ghost predicate Answer(content: seq<Byte>, seg: nat, s: seq<Byte>, n: nat) {
    && (n == 0 ==> forall p: nat :: !Occurs(content, seg, p, s))
    && (n > 0 ==>
          (&& |s| <= n
           && Occurs(content, seg, n - |s|, s)
           && forall p: nat :: p < n - |s| ==> !Occurs(content, seg, p, s)))
  }

  lemma FoundInFirst(t1: seq<Byte>, t2: seq<Byte>, s: seq<Byte>, p: nat)
    requires 0 < |s| && FirstAt(t1, p, s)
    ensures Answer(t1 + t2, |t1|, s, p + |s|)
  {
    forall q: nat { OccursInParts(t1, t2, s, q); }
  }

  lemma FoundInSecond(t1: seq<Byte>, t2: seq<Byte>, s: seq<Byte>, p: nat)
    requires 0 < |s| && Nowhere(t1, s) && FirstAt(t2, p, s)
    ensures Answer(t1 + t2, |t1|, s, |t1| + p + |s|)
  {
    forall q: nat { OccursInParts(t1, t2, s, q); }
  }

  lemma FoundInNeither(t1: seq<Byte>, t2: seq<Byte>, s: seq<Byte>)
    requires 0 < |s| && Nowhere(t1, s) && Nowhere(t2, s)
    ensures Answer(t1 + t2, |t1|, s, 0)
  {
    forall q: nat { OccursInParts(t1, t2, s, q); }
  }

  /** The branches of FindStr for content that wraps at the end of the block. */
  method FindInTwo(b: BufferBlock, s: seq<Byte>) returns (n: nat)
    requires b.Valid() && 0 < |s| && (b.write < b.read || (b.write == b.read && b.canRead))
    ensures Answer(b.Content(), FirstStretch(b), s, n)
  {
    hide Ring.Wrap, Ring.Content, FirstAt, Nowhere, Answer;
    var find := FindStrInMem(b.data, b.read, s, b.total - b.read);
    Stretches(b);
    ghost var t1, t2 := b.data[b.read..], b.data[..b.write];
    assert b.data[b.read..b.read + (b.total - b.read)] == t1;
    if find >= 0 {
      FoundInFirst(t1, t2, s, find - b.read);
      return find - b.read + |s|;
    }
    find := FindStrInMem(b.data, 0, s, b.write);
    assert b.data[0..0 + b.write] == t2;
    if find >= 0 {
      FoundInSecond(t1, t2, s, find);
      return find + |s| + b.total - b.read;
    }
    FoundInNeither(t1, t2, s);
    return 0;
  }

  lemma NoStretch(seg: nat, s: seq<Byte>)
    requires 0 < |s|
    ensures Answer([], seg, s, 0)
  {
  }

  /** FindStr: where the first occurrence of s that lies inside one stretch of
      memory ends, or 0 if there is none. */
  method FindStr(b: BufferBlock, s: seq<Byte>) returns (n: nat)
    requires b.Valid() && 0 < |s|
    ensures Answer(b.Content(), FirstStretch(b), s, n)
  {
    hide Ring.Wrap, Ring.Content, FirstAt, Nowhere, Answer, At;
    if b.write > b.read {
      var find := FindStrInMem(b.data, b.read, s, b.write - b.read);
      Stretches(b);
      ghost var t := b.data[b.read..b.write];
      assert t + [] == t == b.data[b.read..b.read + (b.write - b.read)];
      if find >= 0 {
        FoundInFirst(t, [], s, find - b.read);
        return find - b.read + |s|;
      }
      NowhereInNothing(s);
      FoundInNeither(t, [], s);
      return 0;
    } else if b.write < b.read || b.canRead {
      n := FindInTwo(b, s);
    } else {
      assert b.Content() == [];
      NoStretch(FirstStretch(b), s);
      return 0;
    }
  }
}
