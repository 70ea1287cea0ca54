// timer.cpp: timers in a binary min-heap whose nodes know their own place in it,
// with a map from ids to nodes. Times are numbers, so nothing wraps.

module TimerHeaps {
  class TimerNode {
    const id: nat
    const expire: nat
    const cb: bool        // whether there is a callback
    var idx: nat

    constructor (id: nat, expire: nat, cb: bool, idx: nat)
      ensures this.id == id && this.expire == expire && this.cb == cb && this.idx == idx
    {
      this.id, this.expire, this.cb, this.idx := id, expire, cb, idx;
    }
  }

  function Parent(i: nat): (p: nat)
    requires 0 < i
    ensures p < i
  {
    (i - 1) / 2
  }

  // The order of the heap, on the expiry times of its nodes.

  /** The edge from i to its parent is in order. */
  predicate Edge(e: seq<nat>, i: nat)
    requires 0 < i < |e|
  {
    e[Parent(i)] <= e[i]
  }

  /** The first n times are a heap, but for the edge from `up` to its parent and the
      edges from `down` to its children. */
  ghost predicate HeapBut(e: seq<nat>, n: nat, up: nat, down: nat)
    requires n <= |e|
  {
    forall i :: 0 < i < n && i != up && Parent(i) != down ==> Edge(e, i)
  }

  /** The edge from child i of p over p to p's parent. */
  predicate Bridge(e: seq<nat>, p: nat, i: nat)
    requires p < |e| && i < |e|
  {
    0 < p ==> e[Parent(p)] <= e[i]
  }

  ghost predicate Bridged(e: seq<nat>, n: nat, p: nat)
    requires p < n <= |e|
  {
    forall i :: 0 < i < n && Parent(i) == p ==> Bridge(e, p, i)
  }

  ghost predicate Heap(e: seq<nat>, n: nat)
    requires n <= |e|
  {
    forall i :: 0 < i < n ==> Edge(e, i)
  }

  function Swap<T>(s: seq<T>, i: nat, j: nat): seq<T>
    requires i < |s| && j < |s|
  {
    s[i := s[j]][j := s[i]]
  }

  /** c is a child of p among the first n, and no other child is before it. */
  ghost predicate LeastChild(e: seq<nat>, n: nat, p: nat, c: nat)
    requires n <= |e|
  {
    0 < c < n && Parent(c) == p && forall i :: 0 < i < n && Parent(i) == p ==> e[c] <= e[i]
  }

  /** One step of _shiftDown from p to its least child c, which is not after it. */
  lemma {:induction false} StepDown(e: seq<nat>, n: nat, up: nat, p: nat, c: nat)
    requires n <= |e| && LeastChild(e, n, p, c) && e[c] <= e[p]
    requires up == p || up == 0
    requires HeapBut(e, n, up, p) && Bridged(e, n, p)
    ensures HeapBut(Swap(e, p, c), n, 0, c) && Bridged(Swap(e, p, c), n, c)
  {
  }

  /** One step of _shiftUp from c to its parent. */
  lemma {:induction false} StepUp(e: seq<nat>, n: nat, c: nat)
    requires n <= |e| && 0 < c < n && e[c] <= e[Parent(c)]
    requires HeapBut(e, n, c, n) && Bridged(e, n, c)
    ensures HeapBut(Swap(e, Parent(c), c), n, Parent(c), n) && Bridged(Swap(e, Parent(c), c), n, Parent(c))
  {
  }

  /** The root of a heap is its least time. */
  lemma {:induction false} RootFirst(e: seq<nat>, i: nat)
    requires Heap(e, |e|) && i < |e|
    ensures e[0] <= e[i]
  {
    if 0 < i {
      assert Edge(e, i);
      RootFirst(e, Parent(i));
    }
  }

  function Times(h: seq<TimerNode>): (e: seq<nat>)
    ensures |e| == |h| && forall i :: 0 <= i < |h| ==> e[i] == h[i].expire
  {
    seq(|h|, i requires 0 <= i < |h| => h[i].expire)
  }

  ghost function Nodes(h: seq<TimerNode>): set<TimerNode> {
    set x | x in h
  }

  ghost predicate Distinct(h: seq<TimerNode>) {
    forall i, j :: 0 <= i < j < |h| ==> h[i] != h[j]
  }

  /** The first n nodes know their places. */
  ghost predicate Placed(h: seq<TimerNode>, n: nat)
    requires n <= |h|
    reads h
  {
    forall i :: 0 <= i < n ==> h[i].idx == i
  }

  /** h is h0 with its first n nodes in another order. */
  ghost predicate Shuffled(h: seq<TimerNode>, h0: seq<TimerNode>, n: nat) {
    && n <= |h| == |h0| && Distinct(h)
    && multiset(h) == multiset(h0)
    && (forall i :: 0 <= i < |h| ==> h[i] in h0)
    && h[n..] == h0[n..]
  }

  lemma {:induction false} SwapPlaces<T>(h: seq<T>, i: nat, j: nat)
    requires i < |h| && j < |h|
    ensures |Swap(h, i, j)| == |h| && Swap(h, i, j)[i] == h[j] && Swap(h, i, j)[j] == h[i]
    ensures forall k :: 0 <= k < |h| && k != i && k != j ==> Swap(h, i, j)[k] == h[k]
  {
  }

  lemma {:induction false} SwapKeeps(h: seq<TimerNode>, h0: seq<TimerNode>, n: nat, i: nat, j: nat)
    requires Shuffled(h, h0, n) && i < n && j < n
    ensures Times(Swap(h, i, j)) == Swap(Times(h), i, j)
    ensures Shuffled(Swap(h, i, j), h0, n)
  {
    hide Swap, Distinct;
    SwapPlaces(h, i, j);
    SwapPlaces(Times(h), i, j);
    SwapMultiset(h, i, j);
    SwapDistinct(h, i, j);
    assert Swap(h, i, j)[n..] == h[n..];
  }

  lemma {:induction false} SwapDistinct(h: seq<TimerNode>, i: nat, j: nat)
    requires i < |h| && j < |h| && Distinct(h)
    ensures Distinct(Swap(h, i, j))
  {
  }

  lemma {:induction false} SwapMultiset(h: seq<TimerNode>, i: nat, j: nat)
    requires i < |h| && j < |h|
    ensures multiset(Swap(h, i, j)) == multiset(h)
  {
  }

  lemma {:induction false} AllEdges(e: seq<nat>, n: nat, up: nat)
    requires n <= |e| && HeapBut(e, n, up, n) && (0 < up < n ==> Edge(e, up))
    ensures Heap(e, n)
  {
  }

  lemma {:induction false} PlacedDistinct(h: seq<TimerNode>)
    requires Placed(h, |h|)
    ensures Shuffled(h, h, |h|)
  {
  }

  /** The map takes the ids of the heap's nodes, and no others, to those nodes. */
  ghost predicate Mapped(h: seq<TimerNode>, nodes: map<nat, TimerNode>, count: nat) {
    && (forall x :: x in h ==> x.id in nodes && nodes[x.id] == x)
    && (forall id :: id in nodes ==> nodes[id] in h && nodes[id].id == id <= count)
  }

  lemma {:induction false} MappedShuffled(h: seq<TimerNode>, h0: seq<TimerNode>, n: nat, nodes: map<nat, TimerNode>, count: nat)
    requires Shuffled(h, h0, n) && Mapped(h0, nodes, count)
    ensures Mapped(h, nodes, count)
  {
    forall x
      ensures x in h <==> x in h0
    {
      assert x in h <==> x in multiset(h);
      assert x in h0 <==> x in multiset(h0);
    }
  }

  /** Putting the last of n + 1 nodes in the place of node idx leaves a heap of n, but
      for the edges at idx, and those can be bridged. */
  lemma {:induction false} LastInto(e: seq<nat>, idx: nat)
    requires |e| > 0 && Heap(e, |e|) && idx < |e| - 1
    ensures HeapBut(Swap(e, idx, |e| - 1), |e| - 1, idx, idx) && Bridged(Swap(e, idx, |e| - 1), |e| - 1, idx)
  {
    var n, e' := |e| - 1, Swap(e, idx, |e| - 1);
    forall i | 0 < i < n && i != idx && Parent(i) != idx
      ensures Edge(e', i)
    {
      assert Edge(e, i);
    }
    forall i | 0 < i < n && Parent(i) == idx
      ensures Bridge(e', idx, i)
    {
      assert Edge(e, i);
      if 0 < idx { assert Edge(e, idx); }
    }
  }

  /** A new last node is a heap but for its edge up. */
  lemma {:induction false} OneMore(e: seq<nat>, t: nat)
    requires Heap(e, |e|)
    ensures HeapBut(e + [t], |e| + 1, |e|, |e| + 1) && Bridged(e + [t], |e| + 1, |e|)
  {
    forall i | 0 < i < |e| + 1 && i != |e|
      ensures Edge(e + [t], i)
    {
      assert Edge(e, i);
    }
  }

  /** The heap with a new node at the end, before it is sifted up. */
  lemma {:induction false} Pushed(h: seq<TimerNode>, node: TimerNode)
    requires Placed(h, |h|) && Heap(Times(h), |h|) && node !in h && node.idx == |h|
    ensures Shuffled(h + [node], h + [node], |h| + 1) && Placed(h + [node], |h| + 1)
    ensures HeapBut(Times(h + [node]), |h| + 1, |h|, |h| + 1) && Bridged(Times(h + [node]), |h| + 1, |h|)
  {
    hide Heap, HeapBut, Bridged;
    OneMore(Times(h), node.expire);
    assert Times(h + [node]) == Times(h) + [node.expire];
    PlacedDistinct(h + [node]);
  }

  lemma {:induction false} MapMore(h: seq<TimerNode>, node: TimerNode, nodes: map<nat, TimerNode>, id: nat)
    requires id > 0 && Mapped(h, nodes, id - 1) && node.id == id
    ensures id !in nodes && Mapped(h + [node], nodes[id := node], id)
  {
  }

  lemma {:induction false} FromOld(h: seq<TimerNode>, h0: seq<TimerNode>, n: nat)
    requires Shuffled(h, h0, n)
    ensures forall k :: 0 <= k < |h| ==> h[k] in h0
  {
  }

  /** The heap with the node to delete and the last one swapped, before it is sifted. */
  lemma {:induction false} Removed(h: seq<TimerNode>, node: TimerNode)
    requires Placed(h, |h|) && Heap(Times(h), |h|) && node in h
    ensures node.idx < |h| && h[node.idx] == node && Distinct(h)
    ensures Shuffled(Swap(h, node.idx, |h| - 1), Swap(h, node.idx, |h| - 1), |h| - 1)
    ensures node.idx == |h| - 1 ==> Heap(Times(h), |h| - 1) && Swap(h, node.idx, |h| - 1) == h
    ensures node.idx != |h| - 1 ==>
      && HeapBut(Times(Swap(h, node.idx, |h| - 1)), |h| - 1, node.idx, node.idx)
      && Bridged(Times(Swap(h, node.idx, |h| - 1)), |h| - 1, node.idx)
  {
    hide HeapBut, Bridged;
    var idx, last := node.idx, |h| - 1;
    PlacedDistinct(h);
    SwapKeeps(h, h, |h|, idx, last);
    if idx < last {
      LastInto(Times(h), idx);
    }
  }

  lemma {:induction false} Popped(h: seq<TimerNode>, last: nat)
    requires last == |h| - 1 && Placed(h, last) && Heap(Times(h), last)
    ensures Placed(h[..last], last) && Heap(Times(h[..last]), last)
  {
    forall i | 0 < i < last
      ensures Edge(Times(h[..last]), i)
    {
      assert Edge(Times(h), i);
    }
  }

  /** With its last node, the one swapped there, both the heap and the map lose its id. */
  lemma {:induction false} MapLess(h: seq<TimerNode>, h0: seq<TimerNode>, node: TimerNode, idx: nat, nodes: map<nat, TimerNode>, count: nat)
    requires Distinct(h0) && idx < |h0| && h0[idx] == node && Mapped(h0, nodes, count)
    requires Shuffled(h, Swap(h0, idx, |h0| - 1), |h0| - 1)
    ensures Mapped(h[..|h0| - 1], nodes - {node.id}, count)
    ensures forall k :: 0 <= k < |h0| - 1 ==> h[k] in h0
  {
    hide Distinct, Shuffled, Mapped, Swap;
    var last, h1 := |h0| - 1, Swap(h0, idx, |h0| - 1);
    ShuffledSelf(h0);
    SwapPlaces(h0, idx, last);
    SwapKeeps(h0, h0, |h0|, idx, last);
    MappedShuffled(h1, h0, |h0|, nodes, count);
    MappedShuffled(h, h1, last, nodes, count);
    LastKept(h, h1, last);
    MapPop(h, last, nodes, count);
    FromOld(h, h1, last);
    FromOld(h1, h0, |h0|);
  }

  lemma {:induction false} ShuffledSelf(h: seq<TimerNode>)
    requires Distinct(h)
    ensures Shuffled(h, h, |h|)
  {
  }

  lemma {:induction false} LastKept(h: seq<TimerNode>, h0: seq<TimerNode>, last: nat)
    requires Shuffled(h, h0, last) && last < |h0|
    ensures |h| == |h0| && h[last] == h0[last] && Distinct(h)
  {
    assert h[last] == h[last..][0] && h0[last] == h0[last..][0];
  }

  lemma {:induction false} MapPop(h: seq<TimerNode>, last: nat, nodes: map<nat, TimerNode>, count: nat)
    requires Distinct(h) && last == |h| - 1 && Mapped(h, nodes, count)
    ensures Mapped(h[..last], nodes - {h[last].id}, count)
  {
  }

  /** The root of the heap is one of the timers to expire next. */
  lemma {:induction false} RootIsNext(h: seq<TimerNode>, nodes: map<nat, TimerNode>, count: nat)
    requires h != [] && Heap(Times(h), |h|) && Mapped(h, nodes, count)
    ensures h[0].id in nodes && nodes[h[0].id] == h[0]
    ensures forall id :: id in nodes ==> h[0].expire <= nodes[id].expire
  {
    forall id | id in nodes
      ensures h[0].expire <= nodes[id].expire
    {
      var i :| 0 <= i < |h| && h[i] == nodes[id];
      RootFirst(Times(h), i);
    }
  }

  /** A timer that is set, as its owner sees it. */
  datatype Timer = Timer(expire: nat, cb: bool)

  ghost function TimersOf(nodes: map<nat, TimerNode>): map<nat, Timer> {
    map id | id in nodes :: Timer(nodes[id].expire, nodes[id].cb)
  }

  lemma {:induction false} TimersMore(nodes: map<nat, TimerNode>, node: TimerNode)
    ensures TimersOf(nodes[node.id := node]) == TimersOf(nodes)[node.id := Timer(node.expire, node.cb)]
  {
  }

  lemma {:induction false} TimersLess(nodes: map<nat, TimerNode>, id: nat)
    ensures TimersOf(nodes - {id}) == TimersOf(nodes) - {id}
    ensures id in TimersOf(nodes) <==> id in nodes
    ensures id in nodes ==> TimersOf(nodes)[id] == Timer(nodes[id].expire, nodes[id].cb)
  {
  }

  /** Of the timers `all`, exactly those in `left` are still set: the others had expired
      by now, those of them with a callback fired once each, in order of expiry, and none
      fired before one that is still set. */
  ghost predicate Fired(all: map<nat, Timer>, left: map<nat, Timer>, fired: seq<nat>, now: nat) {
    && (forall id :: id in left ==> id in all && left[id] == all[id])
    && (forall id :: id in all && id !in left ==> all[id].expire <= now)
    && (forall id :: id in fired <==> id in all && id !in left && all[id].cb)
    && (forall i, j :: 0 <= i < j < |fired| ==> fired[i] != fired[j] && all[fired[i]].expire <= all[fired[j]].expire)
    && (forall i, id :: 0 <= i < |fired| && id in left ==> all[fired[i]].expire <= all[id].expire)
  }

  lemma {:induction false} NoneFired(all: map<nat, Timer>, now: nat)
    ensures Fired(all, all, [], now)
  {
  }

  lemma {:induction false} NothingLeft(h: seq<TimerNode>, nodes: map<nat, TimerNode>, count: nat)
    requires Mapped(h, nodes, count) && h == []
    ensures forall id :: id !in nodes
  {
  }

  lemma {:induction false} FireNext(all: map<nat, Timer>, left: map<nat, Timer>, fired: seq<nat>, now: nat, next: nat)
    requires Fired(all, left, fired, now) && next in left && left[next].expire <= now
    requires forall id :: id in left ==> left[next].expire <= left[id].expire
    ensures Fired(all, left - {next}, if left[next].cb then fired + [next] else fired, now)
  {
  }

  /** The timers that have not expired by now. */
  ghost function Later(all: map<nat, Timer>, now: nat): (left: map<nat, Timer>)
    ensures forall id :: id in left <==> id in all && now < all[id].expire
    ensures forall id :: id in left ==> left[id] == all[id]
  {
    map id | id in all && now < all[id].expire :: all[id]
  }

  lemma {:induction false} AllFired(all: map<nat, Timer>, left: map<nat, Timer>, fired: seq<nat>, now: nat)
    requires Fired(all, left, fired, now) && forall id :: id in left ==> now < left[id].expire
    ensures left == Later(all, now)
  {
  }

  class MinHeapTimer {
    var heap: seq<TimerNode>
    var nodes: map<nat, TimerNode>
    var count: nat

    ghost predicate Valid()
      reads this, heap
    {
      && Placed(heap, |heap|)
      && Heap(Times(heap), |heap|)
      && Mapped(heap, nodes, count)
    }

    /** The timers that are set, by id. */
    ghost function Timers(): map<nat, Timer>
      reads `nodes
    {
      TimersOf(nodes)
    }

    constructor ()
      ensures Valid() && heap == [] && Timers() == map[] && count == 0
    {
      heap, nodes, count := [], map[], 0;
    }

    method SwapNodes(i: nat, j: nat, ghost h0: seq<TimerNode>, ghost n: nat)
      requires i < n <= |heap| && j < n && i != j && Shuffled(heap, h0, n) && Placed(heap, n)
      modifies `heap, Nodes(h0)
      ensures heap == Swap(old(heap), i, j) && Times(heap) == Swap(Times(old(heap)), i, j)
      ensures |heap| == |old(heap)| && Shuffled(heap, h0, n) && Placed(heap, n)
    {
      SwapKeeps(heap, h0, n, i, j);
      heap := Swap(heap, i, j);
      heap[i].idx := i;
      heap[j].idx := j;
    }

    predicate Compare(lhs: nat, rhs: nat)
      requires lhs < |heap| && rhs < |heap|
      reads `heap
    {
      heap[lhs].expire < heap[rhs].expire
    }

    /** The child of parent to compare it with: the second one unless the first is before it. */
    method PickChild(parent: nat, first: nat) returns (child: nat)
      requires first == 2 * parent + 1 < |heap| - 1
      ensures child < |heap| - 1 && LeastChild(Times(heap), |heap| - 1, parent, child) && parent < child
    {
      child := first;
      if child + 1 < |heap| - 1 && !Compare(child, child + 1) {
        child := child + 1;
      }
      TwoChildren(Times(heap), |heap| - 1, parent, child);
    }

    /** Swap parent with its least child unless it is before it. */
    method Descend(parent: nat, child: nat, ghost up: nat, ghost pos: nat, ghost h0: seq<TimerNode>) returns (moved: bool)
      requires parent < child < |heap| - 1 && LeastChild(Times(heap), |heap| - 1, parent, child)
      requires up == parent == pos || (up == 0 && pos < parent)
      requires Shuffled(heap, h0, |heap| - 1) && Placed(heap, |heap| - 1)
      requires HeapBut(Times(heap), |heap| - 1, up, parent) && Bridged(Times(heap), |heap| - 1, parent)
      modifies `heap, Nodes(h0)
      ensures |heap| == |old(heap)| && Shuffled(heap, h0, |heap| - 1) && Placed(heap, |heap| - 1)
      ensures moved ==> HeapBut(Times(heap), |heap| - 1, 0, child) && Bridged(Times(heap), |heap| - 1, child)
      ensures !moved ==> HeapBut(Times(heap), |heap| - 1, pos, |heap| - 1) && Bridged(Times(heap), |heap| - 1, pos)
    {
      hide Nodes, HeapBut, Bridged, Shuffled, Placed, LeastChild, Swap, Times;
      if !Compare(parent, child) {
        StepDown(Times(heap), |heap| - 1, up, parent, child);
        SwapNodes(parent, child, h0, |heap| - 1);
        moved := true;
      } else {
        Settled(Times(heap), |heap| - 1, up, pos, parent, child);
        moved := false;
      }
    }

    /** Sift the node at pos down, leaving the last slot of the heap out. */
    method ShiftDown(pos: nat, ghost h0: seq<TimerNode>)
      requires pos + 1 < |heap| && Shuffled(heap, h0, |heap| - 1) && Placed(heap, |heap| - 1)
      requires HeapBut(Times(heap), |heap| - 1, pos, pos) && Bridged(Times(heap), |heap| - 1, pos)
      modifies `heap, Nodes(h0)
      ensures |heap| == |old(heap)| && Shuffled(heap, h0, |heap| - 1) && Placed(heap, |heap| - 1)
      ensures HeapBut(Times(heap), |heap| - 1, pos, |heap| - 1) && Bridged(Times(heap), |heap| - 1, pos)
    {
      hide Nodes, HeapBut, Bridged, Shuffled, Placed, LeastChild, Times;
      ghost var up := pos;
      var parent, child := pos, pos * 2 + 1;
      while child < |heap| - 1
        invariant |heap| == |old(heap)| && parent < |heap| - 1 && child == parent * 2 + 1
        invariant up == parent == pos || (up == 0 && pos < parent)
        invariant Shuffled(heap, h0, |heap| - 1) && Placed(heap, |heap| - 1)
        invariant HeapBut(Times(heap), |heap| - 1, up, parent) && Bridged(Times(heap), |heap| - 1, parent)
        decreases |heap| - parent
      {
        child := PickChild(parent, child);
        var moved := Descend(parent, child, up, pos, h0);
        if !moved {
          return;
        }
        up := 0;
        parent := child;
        child := parent * 2 + 1;
      }
      Settled(Times(heap), |heap| - 1, up, pos, parent, child);
    }

    /** Sift the node at child up, among the first n nodes. */
    method ShiftUp(start: nat, ghost h0: seq<TimerNode>, ghost n: nat)
      requires start < n <= |heap| && Shuffled(heap, h0, n) && Placed(heap, n)
      requires HeapBut(Times(heap), n, start, n) && Bridged(Times(heap), n, start)
      modifies `heap, Nodes(h0)
      ensures |heap| == |old(heap)| && Shuffled(heap, h0, n) && Placed(heap, n)
      ensures Heap(Times(heap), n)
    {
      hide Nodes, HeapBut, Bridged, Shuffled, Placed, Times, Swap;
      var child: nat := start;
      var parent := if child == 0 then 0 else (child - 1) / 2;
      while child > 0
        invariant |heap| == |old(heap)| && child < n && (0 < child ==> parent == Parent(child))
        invariant Shuffled(heap, h0, n) && Placed(heap, n)
        invariant HeapBut(Times(heap), n, child, n) && Bridged(Times(heap), n, child)
        decreases child
      {
        if !Compare(parent, child) {
          StepUp(Times(heap), n, child);
          SwapNodes(parent, child, h0, n);
          child := parent;
          parent := if child == 0 then 0 else (child - 1) / 2;
        } else {
          break;
        }
      }
      AllEdges(Times(heap), n, child);
    }

    /** Only one of the two moves the node at pos. */
    method Resign(pos: nat, ghost h0: seq<TimerNode>)
      requires pos + 1 < |heap| && Shuffled(heap, h0, |heap| - 1) && Placed(heap, |heap| - 1)
      requires HeapBut(Times(heap), |heap| - 1, pos, pos) && Bridged(Times(heap), |heap| - 1, pos)
      modifies `heap, Nodes(h0)
      ensures |heap| == |old(heap)| && Shuffled(heap, h0, |heap| - 1) && Placed(heap, |heap| - 1)
      ensures Heap(Times(heap), |heap| - 1)
    {
      hide Nodes, HeapBut, Bridged, Heap, Shuffled, Placed, Times;
      ShiftDown(pos, h0);
      ShiftUp(pos, h0, |heap| - 1);
    }

    method AddTimer(now: nat, expire: nat, cb: bool) returns (id: nat)
      requires Valid()
      modifies this, Nodes(heap)
      ensures Valid() && count == id == old(count) + 1 && id !in old(Timers())
      ensures Timers() == old(Timers())[id := Timer(now + expire, cb)]
      ensures forall k :: 0 <= k < |heap| ==> heap[k] in old(heap) || fresh(heap[k])
    {
      hide HeapBut, Bridged, Heap, Shuffled, Mapped, Times, Placed, TimersOf;
      TimersLess(nodes, count + 1);
      count := count + 1;
      id := count;
      var node := new TimerNode(id, now + expire, cb, |heap|);
      ghost var h1 := heap + [node];
      Pushed(heap, node);
      MapMore(heap, node, nodes, id);
      heap := heap + [node];
      ShiftUp(|heap| - 1, h1, |h1|);
      TimersMore(nodes, node);
      nodes := nodes[id := node];
      MappedShuffled(heap, h1, |h1|, nodes, count);
      FromOld(heap, h1, |h1|);
    }

    /** Remove one node, by putting the last one in its place. */
    method DelNode(node: TimerNode)
      requires Valid() && node in heap
      modifies this, Nodes(heap)
      ensures Valid() && count == old(count)
      ensures |heap| == |old(heap)| - 1 && forall k :: 0 <= k < |heap| ==> heap[k] in old(heap)
      ensures nodes == old(nodes) - {node.id}
    {
      hide HeapBut, Bridged, Heap, Shuffled, Mapped, Times, Swap;
      Removed(heap, node);
      var last, idx := |heap| - 1, node.idx;
      ghost var h0, h1 := heap, Swap(heap, idx, last);
      if idx != last {
        heap := Swap(heap, idx, last);
        SwapPlaces(h0, idx, last);
        heap[idx].idx := idx;
        Resign(idx, h1);
      }
      Popped(heap, last);
      MapLess(heap, h0, node, idx, nodes, count);
      heap := heap[..last];
      nodes := nodes - {node.id};
    }

    /** Whether there was such a timer; now there is not. */
    method DelTimer(id: nat) returns (found: bool)
      requires Valid()
      modifies this, Nodes(heap)
      ensures Valid() && count == old(count) && found == (id in old(Timers()))
      ensures Timers() == old(Timers()) - {id}
      ensures forall k :: 0 <= k < |heap| ==> heap[k] in old(heap)
    {
      if id !in nodes {
        return false;
      }
      DelNode(nodes[id]);
      return true;
    }

    /** Fire and remove the timers that have expired by now; `fired` lists the callbacks. */
    method ExpireTimer(now: nat) returns (fired: seq<nat>)
      requires Valid()
      modifies this, Nodes(heap)
      ensures Valid() && count == old(count)
      ensures Fired(old(Timers()), Timers(), fired, now) && Timers() == Later(old(Timers()), now)
      ensures forall id :: id in Timers() ==> now < Timers()[id].expire
      ensures forall k :: 0 <= k < |heap| ==> heap[k] in old(heap)
    {
      hide HeapBut, Bridged, Heap, Shuffled, Mapped, Times, Placed, Fired;
      ghost var all := Timers();
      NoneFired(all, now);
      fired := [];
      while heap != []
        invariant Valid() && count == old(count)
        invariant forall k :: 0 <= k < |heap| ==> heap[k] in old(heap)
        invariant Fired(all, Timers(), fired, now)
        decreases |heap|
      {
        var node := heap[0];
        RootIsNext(heap, nodes, count);
        if now < node.expire {
          break;
        }
        FireNext(all, Timers(), fired, now, node.id);
        if node.cb {
          fired := fired + [node.id];
        }
        ghost var left := Timers();
        DelNode(node);
        assert Timers() == left - {node.id};
      }
      if heap == [] {
        NothingLeft(heap, nodes, count);
      }
      AllFired(all, Timers(), fired, now);
    }
  }

  lemma {:induction false} TwoChildren(e: seq<nat>, n: nat, p: nat, c: nat)
    requires n <= |e| && (c == 2 * p + 1 || c == 2 * p + 2) && c < n
    requires c == 2 * p + 1 && 2 * p + 2 < n ==> e[c] < e[2 * p + 2]
    requires c == 2 * p + 2 ==> e[c] <= e[2 * p + 1]
    ensures LeastChild(e, n, p, c) && p < c
  {
  }

  /** Sifting down is over when no child is before its parent. */
  lemma {:induction false} Settled(e: seq<nat>, n: nat, up: nat, pos: nat, p: nat, c: nat)
    requires p < n <= |e| && HeapBut(e, n, up, p) && Bridged(e, n, p)
    requires up == p == pos || (up == 0 && pos < p)
    requires n <= 2 * p + 1 || (c < n && LeastChild(e, n, p, c) && e[p] <= e[c])
    ensures HeapBut(e, n, pos, n) && Bridged(e, n, pos)
  {
  }
}
