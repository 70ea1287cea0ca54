// A stream of bytes cut into parts.

module Streams {
  import opened Bytes

  function Flat<T>(parts: seq<seq<T>>): seq<T> {
    if |parts| == 0 then [] else parts[0] + Flat(parts[1..])
  }

  /** all is front followed by back. */
  ghost predicate Cut(all: seq<Byte>, front: seq<Byte>, back: seq<Byte>) {
    all == front + back
  }

  lemma CutFirst(all: seq<Byte>)
    ensures Cut(all, [], all)
  {
  }

  /** Move a piece from the back to the front. */
  lemma CutMore(all: seq<Byte>, front: seq<Byte>, back: seq<Byte>, piece: seq<Byte>, rest: seq<Byte>)
    requires Cut(all, front, back) && Cut(back, piece, rest)
    ensures Cut(all, front + piece, rest)
  {
  }

  /** What is appended to the whole is appended to its back. */
  lemma CutGrow(all: seq<Byte>, all': seq<Byte>, front: seq<Byte>, back: seq<Byte>, piece: seq<Byte>)
    requires Cut(all, front, back) && Cut(all', all, piece)
    ensures Cut(all', front, back + piece)
  {
  }

  lemma CutLast(all: seq<Byte>)
    ensures Cut(all, all, [])
  {
  }

  lemma CutEnds(all: seq<Byte>, front: seq<Byte>, back: seq<Byte>)
    requires Cut(all, front, back)
    ensures all[..|front|] == front && all[|front|..] == back && |all| == |front| + |back|
  {
  }

  lemma FlatNothing<T>()
    ensures Flat<T>([]) == []
  {
  }

  lemma FlatUncons<T>(a: seq<seq<T>>)
    requires a != []
    ensures Flat(a) == a[0] + Flat(a[1..])
  {
  }

  lemma {:induction false} FlatCat<T>(a: seq<seq<T>>, b: seq<seq<T>>)
    ensures Flat(a + b) == Flat(a) + Flat(b)
  {
    hide Flat;
    if a == [] {
      assert a + b == b;
      FlatNothing<T>();
    } else {
      FlatCat(a[1..], b);
      assert (a + b)[1..] == a[1..] + b;
      FlatUncons(a);
      FlatUncons(a + b);
      assert a[0] + (Flat(a[1..]) + Flat(b)) == a[0] + Flat(a[1..]) + Flat(b);
    }
  }

  lemma {:induction false} FlatEmpty(parts: seq<seq<Byte>>)
    requires forall i :: 0 <= i < |parts| ==> parts[i] == []
    ensures Flat(parts) == []
  {
    if parts != [] {
      FlatEmpty(parts[1..]);
    }
  }

  lemma FlatOne<T>(p: seq<T>)
    ensures Flat([p]) == p
  {
  }

  /** The bytes from part i on. */
  function TailOf(parts: seq<seq<Byte>>, i: nat): seq<Byte> {
    if i <= |parts| then Flat(parts[i..]) else []
  }

  lemma {:induction false} PrefixOn(a: seq<Byte>, b: seq<Byte>, c: seq<Byte>)
    requires a <= b <= c
    ensures a <= c
  {
  }

  lemma {:induction false} TailMore(parts: seq<seq<Byte>>, p: seq<Byte>, i: nat)
    requires i <= |parts|
    ensures TailOf(parts + [p], i) == TailOf(parts, i) + p
  {
    hide Flat;
    FlatCat(parts[i..], [p]);
    FlatOne(p);
    assert (parts + [p])[i..] == parts[i..] + [p];
  }

  lemma FlatFront(parts: seq<seq<Byte>>, i: nat)
    requires i < |parts|
    ensures Cut(TailOf(parts, i), parts[i], TailOf(parts, i + 1))
  {
  }

  lemma TailCut(parts: seq<seq<Byte>>, i: nat, k: nat)
    requires i <= k <= |parts|
    ensures Cut(TailOf(parts, i), Flat(parts[i..k]), TailOf(parts, k))
  {
    FlatCat(parts[i..k], parts[k..]);
    hide Flat;
    assert parts[i..] == parts[i..k] + parts[k..];
  }

  lemma SamePrefix<T>(a: seq<T>, b: seq<T>, i: nat, k: nat)
    requires i <= k <= |a| && k <= |b|
    requires forall j :: 0 <= j < k ==> a[j] == b[j]
    ensures a[i..k] == b[i..k]
  {
  }

  /** An empty part at the end adds nothing. */
  lemma FlatPad(parts: seq<seq<Byte>>)
    ensures Flat(parts + [[]]) == Flat(parts)
  {
    FlatCat(parts, [[]]);
    FlatOne<Byte>([]);
    assert Flat(parts) + [] == Flat(parts);
  }

  lemma FlatSnoc<T>(parts: seq<seq<T>>, i: nat, k: nat)
    requires i <= k < |parts|
    ensures Flat(parts[i..k + 1]) == Flat(parts[i..k]) + parts[k]
  {
    FlatCat(parts[i..k], [parts[k]]);
    FlatOne(parts[k]);
    hide Flat;
    assert parts[i..k + 1] == parts[i..k] + [parts[k]];
  }

  /** What the spans of the parts hold is the parts. */
  lemma {:induction false} GatherFlat(spans: seq<seq<Iovec>>, parts: seq<seq<Byte>>)
    requires |spans| == |parts|
    requires forall i :: 0 <= i < |spans| ==> InBounds(spans[i]) && Gather(spans[i]) == parts[i]
    ensures InBounds(Flat(spans)) && Gather(Flat(spans)) == Flat(parts)
  {
    if |spans| > 0 {
      GatherFlat(spans[1..], parts[1..]);
      hide Gather;
      GatherCat(spans[0], Flat(spans[1..]));
    } else {
      GatherNothing();
    }
  }

  /** A stream whose parts after part i are empty ends with part i. */
  lemma FlatUpTo(parts: seq<seq<Byte>>, i: nat)
    requires i < |parts|
    requires forall k :: i < k < |parts| ==> parts[k] == []
    ensures Flat(parts) == Flat(parts[..i]) + parts[i]
  {
    hide Flat;
    FlatEmpty(parts[i + 1..]);
    FlatFront(parts, i);
    FlatCat(parts[..i], parts[i..]);
    assert parts == parts[..i] + parts[i..];
    assert parts[i] + [] == parts[i];
  }

  /** Appending to the last nonempty part appends to the stream. */
  lemma FlatAppend(parts: seq<seq<Byte>>, i: nat, more: seq<Byte>)
    requires i < |parts|
    requires forall k :: i < k < |parts| ==> parts[k] == []
    ensures Cut(Flat(parts[i := parts[i] + more]), Flat(parts), more)
  {
    hide Flat;
    var parts' := parts[i := parts[i] + more];
    FlatUpTo(parts, i);
    FlatUpTo(parts', i);
    assert parts'[..i] == parts[..i];
    assert Flat(parts[..i]) + (parts[i] + more) == Flat(parts[..i]) + parts[i] + more;
  }

  lemma FlatFrontOf(parts: seq<seq<Byte>>, i: nat, n: nat)
    requires i < |parts| && n <= |parts[i]|
    ensures Cut(TailOf(parts, i), parts[i][..n], parts[i][n..] + TailOf(parts, i + 1))
  {
  }

  lemma TailDrop(parts: seq<seq<Byte>>, i: nat, n: nat)
    requires i < |parts| && n <= |parts[i]|
    ensures Cut(TailOf(parts, i), parts[i][..n], TailOf(parts[i := parts[i][n..]], i))
  {
  }

  lemma TailSkip(parts: seq<seq<Byte>>, i: nat)
    requires i < |parts| && parts[i] == []
    ensures TailOf(parts, i) == TailOf(parts, i + 1)
  {
  }

  /** Dropping from the first part drops from the stream. */
  lemma FlatDrop(parts: seq<seq<Byte>>, n: nat)
    requires 0 < |parts| && n <= |parts[0]|
    ensures Cut(Flat(parts), parts[0][..n], Flat(parts[0 := parts[0][n..]]))
  {
  }

  lemma {:induction false} Regrouped(a: seq<Byte>, taken: seq<Byte>, left: seq<Byte>, q: seq<Byte>, more: seq<Byte>)
    requires taken + left == q + more
    ensures a + taken + left == a + q + more
  {
    assert a + taken + left == a + (taken + left);
    assert a + q + more == a + (q + more);
  }

  lemma TailEnds(parts: seq<seq<Byte>>)
    ensures TailOf(parts, |parts|) == []
  {
  }
}
