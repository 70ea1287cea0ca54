// common/alloter/pool_alloter.cpp: small blocks carved out of chunks and recycled
// through one free list per size class. Addresses are numbers, 0 is the null pointer,
// and `mem` is the next link stored in the first word of a free node.

module PoolAlloters {
  import opened Basics

  const ALIGN: nat := 8
  const MAX_BYTES: nat := 256
  const FREE_LISTS: nat := 32
  const ADD_NODES: nat := 20

  function Align(size: nat): (r: nat)
    ensures size <= r < size + 8 && r % 8 == 0
  {
    Aligned(size + ALIGN - 1);
    (size + ALIGN - 1) / ALIGN * ALIGN
  }

  lemma {:induction false} Aligned(n: nat)
    ensures n - ALIGN < n / ALIGN * ALIGN <= n && n / ALIGN * ALIGN % ALIGN == 0
  {
    assert n / ALIGN * ALIGN == n - n % ALIGN;
  }

  function FreeListIndex(size: nat): (c: nat)
    requires 0 < size
    ensures 8 * c < size <= 8 * (c + 1)
  {
    (size + ALIGN - 1) / ALIGN - 1
  }

  datatype Kind = Live | Node(cls: nat) | Lost

  /** A piece of a chunk that was handed out, recycled, or left behind. */
  datatype Region = Region(addr: nat, size: nat, kind: Kind, chunk: nat)

  datatype Chunk = Chunk(addr: nat, size: nat)

  predicate Apart(a: nat, n: nat, b: nat, m: nat) {
    a + n <= b || b + m <= a
  }

  predicate Within(addr: nat, size: nat, chunks: seq<Chunk>, k: nat) {
    && k < |chunks|
    && chunks[k].addr <= addr
    && addr + size <= chunks[k].addr + chunks[k].size
  }

  ghost predicate ChunksOk(chunks: seq<Chunk>) {
    && (forall i :: 0 <= i < |chunks| ==> 0 < chunks[i].addr)
    && (forall i, j :: 0 <= i < j < |chunks| ==> Apart(chunks[i].addr, chunks[i].size, chunks[j].addr, chunks[j].size))
  }

  /** Regions are nonempty, inside their chunks, and do not overlap. */
  ghost predicate RegionsOk(regions: seq<Region>, chunks: seq<Chunk>) {
    && (forall i :: 0 <= i < |regions| ==>
          0 < regions[i].size && regions[i].size % ALIGN == 0 && Within(regions[i].addr, regions[i].size, chunks, regions[i].chunk))
    && (forall i, j :: 0 <= i < j < |regions| ==> Apart(regions[i].addr, regions[i].size, regions[j].addr, regions[j].size))
  }

  /** The bytes [start, start + n) are the end of the last chunk and in no region. */
  ghost predicate Unused(start: nat, n: nat, regions: seq<Region>, chunks: seq<Chunk>) {
    && (chunks == [] ==> n == 0)
    && (chunks != [] ==> Within(start, n, chunks, |chunks| - 1))
    && (forall i :: 0 <= i < |regions| ==> Apart(regions[i].addr, regions[i].size, start, n))
  }

  /** The address of the k-th node of a list of regions, or `end` past its last. */
  function NodeAt(regions: seq<Region>, list: seq<nat>, k: nat, end: nat): nat
    requires forall i :: 0 <= i < |list| ==> list[i] < |regions|
  {
    if k < |list| then regions[list[k]].addr else end
  }

  /** The list holds distinct free regions of class c, each of 8(c + 1) bytes. */
  ghost predicate NodesOk(regions: seq<Region>, list: seq<nat>, c: nat) {
    && (forall k :: 0 <= k < |list| ==>
          list[k] < |regions| && regions[list[k]].kind == Node(c) && regions[list[k]].size == ALIGN * (c + 1))
    && (forall k, l :: 0 <= k < l < |list| ==> list[k] != list[l])
  }

  /** head and the links in mem run through the list's nodes and arrive at `end`. */
  ghost predicate Chained(mem: map<nat, nat>, head: nat, regions: seq<Region>, list: seq<nat>, end: nat)
    requires forall i :: 0 <= i < |list| ==> list[i] < |regions|
  {
    && head == NodeAt(regions, list, 0, end)
    && forall k :: 0 <= k < |list| ==>
         regions[list[k]].addr in mem && mem[regions[list[k]].addr] == NodeAt(regions, list, k + 1, end)
  }

  /** The free regions of class c are linked from head on, up to `end`. */
  ghost predicate Building(mem: map<nat, nat>, regions: seq<Region>, list: seq<nat>, head: nat, c: nat, end: nat) {
    && NodesOk(regions, list, c)
    && Chained(mem, head, regions, list, end)
    && forall j :: 0 <= j < |regions| && regions[j].kind == Node(c) ==> j in list
  }

  /** Free list c is right: all the free regions of its class, linked up to null. */
  ghost predicate ListOk(mem: map<nat, nat>, head: nat, regions: seq<Region>, list: seq<nat>, c: nat) {
    Building(mem, regions, list, head, c, 0)
  }

  /** A list survives changes to regions and links that are not its own. */
  lemma {:induction false} ListKept(mem: map<nat, nat>, mem': map<nat, nat>, head: nat, regions: seq<Region>, regions': seq<Region>, list: seq<nat>, c: nat)
    requires ListOk(mem, head, regions, list, c)
    requires forall j :: 0 <= j < |regions| && regions[j].kind == Node(c) ==> j < |regions'| && regions'[j] == regions[j]
    requires forall j :: 0 <= j < |regions'| && regions'[j].kind == Node(c) ==> j < |regions| && regions[j].kind == Node(c)
    requires forall j :: 0 <= j < |regions| && regions[j].kind == Node(c) && regions[j].addr in mem ==>
               regions[j].addr in mem' && mem'[regions[j].addr] == mem[regions[j].addr]
    ensures ListOk(mem', head, regions', list, c)
  {
  }

  function Bytes(regions: seq<Region>): nat {
    if regions == [] then 0 else Bytes(regions[..|regions| - 1]) + regions[|regions| - 1].size
  }

  function ChunkBytes(chunks: seq<Chunk>): nat {
    if chunks == [] then 0 else ChunkBytes(chunks[..|chunks| - 1]) + chunks[|chunks| - 1].size
  }

  datatype Use = InUse | Recycled | Abandoned

  function UseOf(r: Region): Use {
    match r.kind
    case Live => InUse
    case Node(_) => Recycled
    case Lost => Abandoned
  }

  /** The bytes of the regions in the given use. */
  function BytesIn(regions: seq<Region>, u: Use): nat {
    if regions == [] then 0
    else
      var last := regions[|regions| - 1];
      BytesIn(regions[..|regions| - 1], u) + (if UseOf(last) == u then last.size else 0)
  }

  lemma {:induction false} UsesAddUp(regions: seq<Region>)
    ensures Bytes(regions) == BytesIn(regions, InUse) + BytesIn(regions, Recycled) + BytesIn(regions, Abandoned)
  {
    if regions != [] { UsesAddUp(regions[..|regions| - 1]); }
  }

  lemma {:induction false} BytesInLast(regions: seq<Region>, u: Use)
    requires regions != []
    ensures var last := regions[|regions| - 1];
            BytesIn(regions, u) == BytesIn(regions[..|regions| - 1], u) + (if UseOf(last) == u then last.size else 0)
  {
  }

  lemma {:induction false} BytesInAfter(regions: seq<Region>, j: nat, kind: Kind, u: Use)
    requires j < |regions|
    ensures var r := regions[j];
            BytesIn(regions[j := r.(kind := kind)], u) + (if UseOf(r) == u then r.size else 0)
              == BytesIn(regions, u) + (if UseOf(r.(kind := kind)) == u then r.size else 0)
  {
    hide BytesIn, UseOf;
    var n := |regions| - 1;
    var r := regions[j];
    var regions' := regions[j := r.(kind := kind)];
    BytesInLast(regions, u);
    BytesInLast(regions', u);
    if j < n {
      BytesInAfter(regions[..n], j, kind, u);
      assert regions'[..n] == regions[..n][j := r.(kind := kind)];
    } else {
      assert regions'[..n] == regions[..n];
    }
  }

  lemma {:induction false} BytesAppend(regions: seq<Region>, r: Region)
    ensures Bytes(regions + [r]) == Bytes(regions) + r.size
    ensures forall u :: BytesIn(regions + [r], u) == BytesIn(regions, u) + (if UseOf(r) == u then r.size else 0)
  {
  }

  /** A region changes its kind and nothing else. */
  lemma {:induction false} BytesSame(regions: seq<Region>, j: nat, kind: Kind)
    requires j < |regions|
    ensures Bytes(regions[j := regions[j].(kind := kind)]) == Bytes(regions)
  {
    var n := |regions| - 1;
    var regions' := regions[j := regions[j].(kind := kind)];
    if j < n {
      BytesSame(regions[..n], j, kind);
      assert regions'[..n] == regions[..n][j := regions[j].(kind := kind)];
    } else {
      assert regions'[..n] == regions[..n];
    }
  }

  /** Cut the last region in two. */
  function Split(regions: seq<Region>, size: nat, kind: Kind): seq<Region>
    requires regions != [] && size <= regions[|regions| - 1].size
  {
    var last := regions[|regions| - 1];
    regions[..|regions| - 1]
      + [Region(last.addr, size, kind, last.chunk), Region(last.addr + size, last.size - size, last.kind, last.chunk)]
  }

  lemma {:induction false} SplitOk(regions: seq<Region>, chunks: seq<Chunk>, start: nat, n: nat, size: nat, kind: Kind)
    requires RegionsOk(regions, chunks) && Unused(start, n, regions, chunks)
    requires regions != [] && 0 < size < regions[|regions| - 1].size && size % ALIGN == 0
    ensures RegionsOk(Split(regions, size, kind), chunks) && Unused(start, n, Split(regions, size, kind), chunks)
  {
    var k := |regions| - 1;
    var regions' := Split(regions, size, kind);
    assert forall i :: 0 <= i < k ==> regions'[i] == regions[i];
    forall i, j | 0 <= i < j < |regions'|
      ensures Apart(regions'[i].addr, regions'[i].size, regions'[j].addr, regions'[j].size)
    {
      if i < k { assert Apart(regions[i].addr, regions[i].size, regions[Min(j, k)].addr, regions[Min(j, k)].size); }
    }
  }

  /** The last region has been cut up into free ones of class c and one that is left. */
  ghost predicate CutUp(was: seq<Region>, regions: seq<Region>, c: nat) {
    && 0 < |was| <= |regions| && was[..|was| - 1] <= regions
    && forall i :: |was| - 1 <= i < |regions| - 1 ==> regions[i].kind == Node(c)
  }

  lemma {:induction false} NotCut(regions: seq<Region>, c: nat)
    requires regions != []
    ensures CutUp(regions, regions, c)
  {
  }

  lemma {:induction false} CutMore(was: seq<Region>, regions: seq<Region>, size: nat, c: nat)
    requires CutUp(was, regions, c) && regions != [] && size <= regions[|regions| - 1].size
    ensures CutUp(was, Split(regions, size, Node(c)), c) && |Split(regions, size, Node(c))| == |regions| + 1
  {
  }

  lemma {:induction false} CutLast(was: seq<Region>, regions: seq<Region>, c: nat)
    requires CutUp(was, regions, c)
    ensures regions != []
    ensures var all := regions[|regions| - 1 := regions[|regions| - 1].(kind := Node(c))];
            0 < |was| <= |all| && was[..|was| - 1] <= all && forall i :: |was| - 1 <= i < |all| ==> all[i].kind == Node(c)
  {
  }

  lemma {:induction false} SplitBytes(regions: seq<Region>, size: nat, kind: Kind)
    requires regions != [] && size <= regions[|regions| - 1].size
    requires kind != Lost && regions[|regions| - 1].kind != Lost
    ensures Bytes(Split(regions, size, kind)) == Bytes(regions)
    ensures BytesIn(Split(regions, size, kind), Abandoned) == BytesIn(regions, Abandoned)
  {
    var last, init := regions[|regions| - 1], regions[..|regions| - 1];
    var a, b := Region(last.addr, size, kind, last.chunk), Region(last.addr + size, last.size - size, last.kind, last.chunk);
    assert regions == init + [last];
    BytesAppend(init, last);
    BytesAppend(init, a);
    BytesAppend(init + [a], b);
    assert init + [a] + [b] == Split(regions, size, kind);
  }

  lemma {:induction false} AppendOk(regions: seq<Region>, chunks: seq<Chunk>, start: nat, n: nat, size: nat, kind: Kind)
    requires RegionsOk(regions, chunks) && Unused(start, n, regions, chunks)
    requires 0 < size <= n && size % ALIGN == 0
    ensures var r := Region(start, size, kind, |chunks| - 1);
            && RegionsOk(regions + [r], chunks)
            && Unused(start + size, n - size, regions + [r], chunks)
  {
  }

  lemma {:induction false} NewChunkOk(regions: seq<Region>, chunks: seq<Chunk>, p: nat, n: nat)
    requires ChunksOk(chunks) && RegionsOk(regions, chunks) && 0 < p
    requires forall i :: 0 <= i < |chunks| ==> Apart(chunks[i].addr, chunks[i].size, p, n)
    ensures ChunksOk(chunks + [Chunk(p, n)]) && RegionsOk(regions, chunks + [Chunk(p, n)])
    ensures Unused(p, n, regions, chunks + [Chunk(p, n)])
    ensures ChunkBytes(chunks + [Chunk(p, n)]) == ChunkBytes(chunks) + n
  {
  }

  /** Every free list but the one with index hole is right. */
  ghost predicate AllListsOk(mem: map<nat, nat>, freeList: seq<nat>, regions: seq<Region>, lists: seq<seq<nat>>, hole: nat) {
    && |freeList| == |lists| == FREE_LISTS
    && (forall c :: 0 <= c < FREE_LISTS && c != hole ==> ListOk(mem, freeList[c], regions, lists[c], c))
    && (forall j :: 0 <= j < |regions| && regions[j].kind.Node? ==> regions[j].kind.cls < FREE_LISTS)
  }

  /** A region of the given class, one of the distinct addresses of its chunk. */
  lemma {:induction false} DistinctAddr(regions: seq<Region>, chunks: seq<Chunk>, i: nat, j: nat)
    requires RegionsOk(regions, chunks) && i < |regions| && j < |regions| && i != j
    ensures regions[i].addr != regions[j].addr
  {
  }

  /** Region j is a node of a list other than the one with index hole. */
  predicate OnOther(regions: seq<Region>, j: nat, hole: nat)
    requires j < |regions|
  {
    regions[j].kind.Node? && regions[j].kind.cls != hole
  }

  /** The other lists keep their regions and links, and get no new ones. */
  lemma {:induction false} ListsKept(mem: map<nat, nat>, mem': map<nat, nat>, freeList: seq<nat>, freeList': seq<nat>,
                                     regions: seq<Region>, regions': seq<Region>, lists: seq<seq<nat>>, lists': seq<seq<nat>>, hole: nat)
    requires AllListsOk(mem, freeList, regions, lists, hole)
    requires |freeList| == |freeList'| && forall c :: 0 <= c < |freeList| && c != hole ==> freeList'[c] == freeList[c]
    requires |lists| == |lists'| && forall c :: 0 <= c < |lists| && c != hole ==> lists'[c] == lists[c]
    requires forall j :: 0 <= j < |regions| && OnOther(regions, j, hole) ==> j < |regions'| && regions'[j] == regions[j]
    requires forall j :: 0 <= j < |regions'| && OnOther(regions', j, hole) ==> j < |regions| && regions[j].kind == regions'[j].kind
    requires forall j :: 0 <= j < |regions'| && regions'[j].kind == Node(hole) ==>
               hole < FREE_LISTS || (j < |regions| && regions[j].kind == Node(hole))
    requires forall j :: 0 <= j < |regions| && OnOther(regions, j, hole) && regions[j].addr in mem ==>
               regions[j].addr in mem' && mem'[regions[j].addr] == mem[regions[j].addr]
    ensures AllListsOk(mem', freeList', regions', lists', hole)
  {
    hide ListOk;
    forall c | 0 <= c < FREE_LISTS && c != hole
      ensures ListOk(mem', freeList'[c], regions', lists'[c], c)
    {
      assert forall j :: 0 <= j < |regions| && regions[j].kind == Node(c) ==> OnOther(regions, j, hole);
      assert forall j :: 0 <= j < |regions'| && regions'[j].kind == Node(c) ==> OnOther(regions', j, hole);
      ListKept(mem, mem', freeList[c], regions, regions', lists[c], c);
    }
    forall j | 0 <= j < |regions'| && regions'[j].kind.Node?
      ensures regions'[j].kind.cls < FREE_LISTS
    {
      if regions'[j].kind.cls != hole { assert OnOther(regions', j, hole); }
    }
  }

  lemma {:induction false} NodesOn(regions: seq<Region>, regions': seq<Region>, list: seq<nat>, c: nat, j: nat)
    requires NodesOk(regions, list, c) && j < |regions'| && regions'[j].kind == Node(c) && regions'[j].size == ALIGN * (c + 1)
    requires forall k :: 0 <= k < |list| ==> list[k] != j && list[k] < |regions'| && regions'[list[k]] == regions[list[k]]
    ensures NodesOk(regions', list + [j], c)
  {
  }

  lemma {:induction false} ChainOn(mem: map<nat, nat>, regions: seq<Region>, regions': seq<Region>, list: seq<nat>,
                                   head: nat, j: nat, next: nat)
    requires j < |regions'| && forall k :: 0 <= k < |list| ==> list[k] < |regions|
    requires Chained(mem, head, regions, list, regions'[j].addr)
    requires forall k :: 0 <= k < |list| ==> list[k] < |regions'| && regions'[list[k]] == regions[list[k]]
    requires forall k :: 0 <= k < |list| ==> regions'[list[k]].addr != regions'[j].addr
    ensures Chained(mem[regions'[j].addr := next], head, regions', list + [j], next)
  {
  }

  /** Region j, now a free one of class c, is linked behind the others. */
  lemma {:induction false} BuildOn(mem: map<nat, nat>, regions: seq<Region>, regions': seq<Region>, list: seq<nat>,
                                   head: nat, c: nat, j: nat, next: nat)
    requires j < |regions'| && regions'[j].kind == Node(c) && regions'[j].size == ALIGN * (c + 1)
    requires Building(mem, regions, list, head, c, regions'[j].addr)
    requires j < |regions| ==> regions[j].kind != Node(c)
    requires forall i :: 0 <= i < |regions| && regions[i].kind == Node(c) ==> i < |regions'| && regions'[i] == regions[i]
    requires forall i :: 0 <= i < |regions'| && regions'[i].kind == Node(c) && i != j ==> i < |regions| && regions[i].kind == Node(c)
    requires forall i :: 0 <= i < |regions'| && i != j ==> regions'[i].addr != regions'[j].addr
    ensures Building(mem[regions'[j].addr := next], regions', list + [j], head, c, next)
  {
    hide Chained;
    var list' := list + [j];
    forall k | 0 <= k < |list|
      ensures list[k] != j && list[k] < |regions'| && regions'[list[k]] == regions[list[k]]
    {
    }
    NodesOn(regions, regions', list, c, j);
    ChainOn(mem, regions, regions', list, head, j, next);
    assert forall k :: 0 <= k < |list| ==> list'[k] == list[k];
    assert j in list';
  }

  /** A null head means an empty list, since nothing lies at address 0. */
  lemma {:induction false} NullHead(mem: map<nat, nat>, head: nat, regions: seq<Region>, chunks: seq<Chunk>, list: seq<nat>, c: nat)
    requires ChunksOk(chunks) && RegionsOk(regions, chunks) && ListOk(mem, head, regions, list, c)
    ensures head == 0 <==> list == []
    ensures head == 0 ==> forall j :: 0 <= j < |regions| ==> regions[j].kind != Node(c)
  {
  }

  /** list' is list from its node at `from` on, over regions that did not change there. */
  lemma {:induction false} SubChain(mem: map<nat, nat>, mem': map<nat, nat>, regions: seq<Region>, regions': seq<Region>,
                                    list: seq<nat>, list': seq<nat>, from: nat, c: nat)
    requires NodesOk(regions, list, c) && (list != [] ==> Chained(mem, regions[list[0]].addr, regions, list, 0))
    requires from <= |list| && list' == list[from..]
    requires forall k :: 0 <= k < |list'| ==> list'[k] < |regions'| && regions'[list'[k]] == regions[list'[k]]
    requires forall k :: 0 <= k < |list'| ==> regions[list'[k]].addr in mem' && mem'[regions[list'[k]].addr] == mem[regions[list'[k]].addr]
    ensures NodesOk(regions', list', c)
    ensures Chained(mem', NodeAt(regions, list, from, 0), regions', list', 0)
  {
  }

  lemma {:induction false} PopNode(mem: map<nat, nat>, head: nat, regions: seq<Region>, list: seq<nat>, c: nat)
    requires ListOk(mem, head, regions, list, c) && list != []
    ensures list[0] < |regions| && regions[list[0]].kind == Node(c) && regions[list[0]].size == ALIGN * (c + 1)
    ensures head == regions[list[0]].addr && head in mem
    ensures var j := list[0]; ListOk(mem, mem[head], regions[j := regions[j].(kind := Live)], list[1..], c)
  {
    var j := list[0];
    var regions' := regions[j := regions[j].(kind := Live)];
    assert forall k :: 0 <= k < |list[1..]| ==> list[1..][k] == list[k + 1];
    SubChain(mem, mem, regions, regions', list, list[1..], 1, c);
    hide NodesOk, Chained;
    forall i | 0 <= i < |regions'| && regions'[i].kind == Node(c)
      ensures i in list[1..]
    {
      assert i in list && i != j;
    }
  }

  lemma {:induction false} PushNode(mem: map<nat, nat>, head: nat, regions: seq<Region>, list: seq<nat>, c: nat, j: nat)
    requires ListOk(mem, head, regions, list, c)
    requires j < |regions| && regions[j].kind == Live && regions[j].size == ALIGN * (c + 1)
    requires forall i :: 0 <= i < |regions| && i != j ==> regions[i].addr != regions[j].addr
    ensures ListOk(mem[regions[j].addr := head], regions[j].addr, regions[j := regions[j].(kind := Node(c))], [j] + list, c)
  {
    var mem' := mem[regions[j].addr := head];
    var regions' := regions[j := regions[j].(kind := Node(c))];
    SubChain(mem, mem', regions, regions', list, list, 0, c);
    PrependNode(mem', head, regions', list, c, j);
    hide NodesOk, Chained;
    forall i | 0 <= i < |regions'| && regions'[i].kind == Node(c)
      ensures i in [j] + list
    {
      assert i == j || i in list;
    }
  }

  lemma {:induction false} PrependNode(mem: map<nat, nat>, head: nat, regions: seq<Region>, list: seq<nat>, c: nat, j: nat)
    requires NodesOk(regions, list, c) && Chained(mem, head, regions, list, 0) && j !in list
    requires j < |regions| && regions[j].kind == Node(c) && regions[j].size == ALIGN * (c + 1)
    requires regions[j].addr in mem && mem[regions[j].addr] == head
    ensures NodesOk(regions, [j] + list, c) && Chained(mem, regions[j].addr, regions, [j] + list, 0)
  {
  }

  lemma NoneBuilt(mem: map<nat, nat>, regions: seq<Region>, c: nat, next: nat)
    requires forall j :: 0 <= j < |regions| ==> regions[j].kind != Node(c)
    ensures Building(mem, regions, [], next, c, next)
  {
  }

  lemma {:induction false} CloseHole(mem: map<nat, nat>, freeList: seq<nat>, regions: seq<Region>, lists: seq<seq<nat>>, c: nat)
    requires c < FREE_LISTS
    ensures AllListsOk(mem, freeList, regions, lists, FREE_LISTS)
       <==> AllListsOk(mem, freeList, regions, lists, c) && ListOk(mem, freeList[c], regions, lists[c], c)
  {
  }

  /** Whatever is written from lo up to hi, the other words stay. */
  ghost predicate SameBut(mem: map<nat, nat>, mem': map<nat, nat>, lo: nat, hi: nat) {
    forall a :: a in mem && !(lo <= a < hi) ==> a in mem' && mem'[a] == mem[a]
  }

  /** The words in live regions stay. */
  ghost predicate Untouched(mem: map<nat, nat>, mem': map<nat, nat>, regions: seq<Region>) {
    forall j, a :: 0 <= j < |regions| && regions[j].kind == Live && a in mem ==>
      regions[j].addr <= a < regions[j].addr + regions[j].size ==> a in mem' && mem'[a] == mem[a]
  }

  lemma {:induction false} WrittenApart(mem: map<nat, nat>, mem': map<nat, nat>, regions: seq<Region>, lo: nat, hi: nat)
    requires SameBut(mem, mem', lo, hi) && lo <= hi
    requires forall j :: 0 <= j < |regions| && regions[j].kind == Live ==> Apart(regions[j].addr, regions[j].size, lo, hi - lo)
    ensures Untouched(mem, mem', regions)
  {
  }

  lemma NoneWritten(mem: map<nat, nat>, lo: nat, hi: nat)
    ensures SameBut(mem, mem, lo, hi)
  {
  }

  lemma {:induction false} WordWritten(mem: map<nat, nat>, mem': map<nat, nat>, lo: nat, hi: nat, p: nat, v: nat, hi': nat)
    requires SameBut(mem, mem', lo, hi) && lo <= p < hi' && hi <= hi'
    ensures SameBut(mem, mem'[p := v], lo, hi')
  {
  }

  lemma {:induction false} SameWider(mem: map<nat, nat>, mem': map<nat, nat>, from: nat, lo: nat, hi: nat)
    requires SameBut(mem, mem', from, hi) && lo <= from
    ensures SameBut(mem, mem', lo, hi)
  {
  }

  lemma {:induction false} AllStay(mem: map<nat, nat>, regions: seq<Region>)
    ensures Untouched(mem, mem, regions)
  {
  }

  lemma {:induction false} UntouchedOn(m0: map<nat, nat>, m1: map<nat, nat>, m2: map<nat, nat>, regions: seq<Region>)
    requires Untouched(m0, m1, regions) && Untouched(m1, m2, regions)
    ensures Untouched(m0, m2, regions)
  {
  }

  /** The addresses of the nodes of a list. */
  ghost function Addrs(regions: seq<Region>, list: seq<nat>): (addrs: seq<nat>)
    ensures |addrs| == |list|
    ensures forall k :: 0 <= k < |list| && list[k] < |regions| ==> addrs[k] == regions[list[k]].addr
  {
    seq(|list|, k requires 0 <= k < |list| => if list[k] < |regions| then regions[list[k]].addr else 0)
  }

  /** Every node of the list is where it was. */
  ghost predicate Unmoved(regions: seq<Region>, regions': seq<Region>, list: seq<nat>) {
    forall k :: 0 <= k < |list| ==>
      list[k] < |regions| && list[k] < |regions'| && regions'[list[k]].addr == regions[list[k]].addr
  }

  lemma {:induction false} AddrsKept(regions: seq<Region>, regions': seq<Region>, list: seq<nat>)
    requires Unmoved(regions, regions', list)
    ensures Addrs(regions', list) == Addrs(regions, list)
  {
  }

  /** The regions of the list stay where they are, and region j is put behind them. */
  lemma {:induction false} AddrsMore(mem: map<nat, nat>, regions: seq<Region>, regions': seq<Region>, list: seq<nat>,
                                     head: nat, c: nat, j: nat, end: nat)
    requires Building(mem, regions, list, head, c, end) && j < |regions'|
    requires forall k :: 0 <= k < |regions| && regions[k].kind == Node(c) ==> k < |regions'| && regions'[k].addr == regions[k].addr
    ensures Addrs(regions', list + [j]) == Addrs(regions, list) + [regions'[j].addr]
  {
    hide Chained;
  }

  /** n blocks of the given size, one behind the other. */
  function Row(first: nat, size: nat, n: nat): (r: seq<nat>)
    ensures |r| == n && forall k :: 0 <= k < n ==> r[k] == first + size * k
  {
    seq(n, k requires 0 <= k < n => first + size * k)
  }

  lemma NothingYet(regions: seq<Region>, first: nat, size: nat)
    ensures Addrs(regions, []) == Row(first, size, 0)
  {
  }

  lemma {:induction false} RowOn(first: nat, size: nat, n: nat)
    ensures Row(first, size, n + 1) == Row(first, size, n) + [first + size * n]
  {
  }

  /** How many blocks a pool with so many bytes left gives: all, as many as fit, or, from a
      new chunk, all. */
  function BlocksFor(left: nat, size: nat, nums: nat): (n: nat)
    requires 0 < size
    ensures 0 < nums ==> 1 <= n <= nums
  {
    if size <= left < size * nums then
      Quotient(left, size, nums);
      left / size
    else nums
  }

  /** Where each free list has its nodes, first to last. */
  ghost function AllAddrs(regions: seq<Region>, lists: seq<seq<nat>>): (free: seq<seq<nat>>)
    ensures |free| == |lists| && forall c :: 0 <= c < |lists| ==> free[c] == Addrs(regions, lists[c])
  {
    seq(|lists|, c requires 0 <= c < |lists| => Addrs(regions, lists[c]))
  }

  /** j heads list c. */
  ghost predicate FirstOf(lists: seq<seq<nat>>, c: nat, j: nat) {
    c < |lists| && lists[c] != [] && j == lists[c][0]
  }

  ghost predicate HasNode(regions: seq<Region>, c: nat) {
    exists j :: 0 <= j < |regions| && regions[j].kind == Node(c)
  }

  /** No region moves; list c is a new one and the others are as they were. */
  lemma {:induction false} AddrsAfter(mem: map<nat, nat>, freeList: seq<nat>, regions: seq<Region>, regions': seq<Region>,
                                      lists: seq<seq<nat>>, list: seq<nat>, c: nat)
    requires AllListsOk(mem, freeList, regions, lists, c) && c < FREE_LISTS
    requires |regions| <= |regions'| && forall j :: 0 <= j < |regions| ==> regions'[j].addr == regions[j].addr
    ensures |lists| == FREE_LISTS
    ensures AllAddrs(regions', lists[c := list]) == AllAddrs(regions, lists)[c := Addrs(regions', list)]
  {
    hide Chained, Addrs;
    forall d | 0 <= d < FREE_LISTS && d != c
      ensures Addrs(regions', lists[d]) == Addrs(regions, lists[d])
    {
      assert ListOk(mem, freeList[d], regions, lists[d], d);
      AddrsKept(regions, regions', lists[d]);
    }
  }

  /** The pool as its program could draw it: the free blocks of each class, first to last,
      the unused end of the last chunk, and the chunks. */
  datatype Heap = Heap(free: seq<seq<nat>>, start: nat, end: nat, chunks: seq<Chunk>)

  /** Take a block of a multiple of 8 bytes. The system has memory at sys. */
  function Taken(h: Heap, size: nat, sys: nat): (Heap, nat)
    requires 0 < size <= MAX_BYTES && |h.free| == FREE_LISTS
  {
    var c := FreeListIndex(size);
    var left := if h.start <= h.end then h.end - h.start else 0;
    var nums := BlocksFor(left, size, ADD_NODES);
    if h.free[c] != [] then
      (h.(free := h.free[c := h.free[c][1..]]), h.free[c][0])
    else if size <= left then
      (h.(free := h.free[c := Row(h.start + size, size, nums - 1)], start := h.start + size * nums), h.start)
    else
      (Heap(h.free[c := Row(sys + size, size, nums - 1)], sys + size * nums, sys + size * nums,
            h.chunks + [Chunk(sys, size * nums)]), sys)
  }

  /** Malloc is Taken for a small block, and leaves the pool alone for a large one. */
  ghost predicate Gave(h: Heap, size: nat, sys: nat, t: Heap, p: nat) {
    if 0 < size <= 256 then |h.free| == FREE_LISTS && (t, p) == Taken(h, Align(size), sys) else t == h && p == sys
  }

  /** What ReFill comes to. */
  lemma {:induction false} Refilled(h: Heap, size: nat, sys: nat, t: Heap, p: nat, more: nat)
    requires 0 < size <= MAX_BYTES && |h.free| == FREE_LISTS && h.free[FreeListIndex(size)] == [] && h.start <= h.end
    requires more + 1 == BlocksFor(h.end - h.start, size, ADD_NODES)
    requires t.free == h.free[FreeListIndex(size) := Row(p + size, size, more)] && t.start == p + size * (more + 1)
    requires if h.end - h.start >= size then p == h.start && t.end == h.end && t.chunks == h.chunks
             else p == sys && t.end == t.start && t.chunks == h.chunks + [Chunk(sys, size * ADD_NODES)]
    ensures t == Taken(h, size, sys).0 && p == Taken(h, size, sys).1
  {
  }

  /** Without a free block of the class, twenty come from the pool, or as many as fit, or
      twenty from a new chunk that is used up by them: one for the program and the others,
      side by side behind it, for the free list. */
  lemma {:induction false} TakenNew(h: Heap, size: nat, sys: nat)
    requires 0 < size <= MAX_BYTES && size % 8 == 0 && |h.free| == FREE_LISTS && h.start <= h.end
    requires h.free[FreeListIndex(size)] == []
    ensures var (t, p) := Taken(h, size, sys);
            var c, left := FreeListIndex(size), h.end - h.start;
            && |t.free| == FREE_LISTS && (forall d :: 0 <= d < FREE_LISTS && d != c ==> t.free[d] == h.free[d])
            && (forall k :: 0 <= k < |t.free[c]| ==> t.free[c][k] == p + size * (k + 1))
            && t.start == p + size * (|t.free[c]| + 1)
            && (if left >= size
                then p == h.start && t.end == h.end && t.chunks == h.chunks
                else p == sys && t.end == t.start && t.chunks == h.chunks + [Chunk(sys, 20 * size)])
            && (left < size || left >= 20 * size ==> |t.free[c]| == 19)
            && (size <= left < 20 * size ==> |t.free[c]| < 19 && t.start <= t.end < t.start + size)
  {
    var c, left := FreeListIndex(size), h.end - h.start;
    if size <= left < size * ADD_NODES {
      Quotient(left, size, ADD_NODES);
      OneMoreRow(h.start, size, left / size);
    }
    var (t, p) := Taken(h, size, sys);
    forall k | 0 <= k < |t.free[c]|
      ensures t.free[c][k] == p + size * (k + 1)
    {
      OneMoreRow(p, size, k);
    }
  }

  /** The block at p is put in front of the others of its class. */
  function Given(h: Heap, p: nat, len: nat): Heap
    requires 0 < len <= MAX_BYTES && |h.free| == FREE_LISTS
  {
    var c := FreeListIndex(len);
    h.(free := h.free[c := [p] + h.free[c]])
  }

  lemma {:induction false} SameClass(size: nat)
    requires 0 < size
    ensures FreeListIndex(Align(size)) == FreeListIndex(size) && Align(size) == ALIGN * (FreeListIndex(size) + 1)
  {
  }

  class PoolAlloter {
    var poolStart: nat
    var poolEnd: nat
    var freeList: seq<nat>
    var mallocVec: seq<nat>
    var mem: map<nat, nat>
    ghost var chunks: seq<Chunk>
    ghost var regions: seq<Region>
    ghost var lists: seq<seq<nat>>   // the regions on each free list, by their place in `regions`

    /** The chunks, what was carved out of them, and the unused end of the last one. */
    ghost predicate PoolOk()
      reads `poolStart, `poolEnd, `mallocVec, `chunks, `regions
    {
      && ChunksOk(chunks) && RegionsOk(regions, chunks)
      && |mallocVec| == |chunks| && (forall i :: 0 <= i < |chunks| ==> mallocVec[i] == chunks[i].addr)
      && poolStart <= poolEnd && (poolEnd - poolStart) % ALIGN == 0
      && Unused(poolStart, poolEnd - poolStart, regions, chunks)
      && ChunkBytes(chunks) == Bytes(regions) + (poolEnd - poolStart)
      && BytesIn(regions, Abandoned) <= (if chunks == [] then 0 else (MAX_BYTES - ALIGN) * (|chunks| - 1))
    }

    /** The free lists, but for the one with index hole. */
    ghost predicate ListsOk(hole: nat)
      reads `freeList, `mem, `regions, `lists
    {
      AllListsOk(mem, freeList, regions, lists, hole)
    }

    ghost predicate Valid()
      reads this
    {
      PoolOk() && ListsOk(FREE_LISTS)
    }

    ghost function View(): (h: Heap)
      requires Valid()
      reads this
      ensures |h.free| == FREE_LISTS
    {
      Heap(AllAddrs(regions, lists), poolStart, poolEnd, chunks)
    }

    constructor ()
      ensures Valid() && chunks == [] && regions == []
      ensures View() == Heap(seq(FREE_LISTS, _ => []), 0, 0, [])
    {
      poolStart, poolEnd := 0, 0;
      freeList := seq(FREE_LISTS, _ => 0);
      mallocVec, mem := [], map[];
      chunks, regions := [], [];
      lists := seq(FREE_LISTS, _ => []);
    }

    /** What the system allocator promises of n new bytes at p. */
    ghost predicate FreshChunk(p: nat, n: nat)
      reads `chunks
    {
      0 < p && forall i :: 0 <= i < |chunks| ==> Apart(chunks[i].addr, chunks[i].size, p, n)
    }

    /** The live block at p, by its place in `regions`. */
    ghost predicate LiveAt(j: nat, p: nat)
      reads `regions
    {
      j < |regions| && regions[j].kind == Live && regions[j].addr == p
    }

    lemma NoChunks()
      requires PoolOk()
      ensures chunks == [] ==> poolStart == poolEnd
    {
    }

    /** Carve a region of n bytes off the front of the pool. */
    method Carve(n: nat, ghost hole: nat)
      requires PoolOk() && ListsOk(hole) && 0 < n <= poolEnd - poolStart && n % ALIGN == 0
      modifies `poolStart, `regions
      ensures PoolOk() && ListsOk(hole) && poolStart == old(poolStart) + n
      ensures regions == old(regions) + [Region(old(poolStart), n, Live, |chunks| - 1)]
    {
      hide RegionsOk, ChunksOk, Unused, Bytes, BytesIn, ChunkBytes, AllListsOk;
      NoChunks();
      ListsKept(mem, mem, freeList, freeList, regions, regions + [Region(poolStart, n, Live, |chunks| - 1)], lists, lists, hole);
      AppendOk(regions, chunks, poolStart, poolEnd - poolStart, n, Live);
      BytesAppend(regions, Region(poolStart, n, Live, |chunks| - 1));
      regions := regions + [Region(poolStart, n, Live, |chunks| - 1)];
      poolStart := poolStart + n;
    }

    /** Give up what is left of the pool and go on with a new chunk of n bytes at p. */
    method NewChunk(p: nat, n: nat, ghost hole: nat)
      requires PoolOk() && ListsOk(hole) && FreshChunk(p, n) && poolEnd - poolStart < MAX_BYTES && n % ALIGN == 0
      modifies `poolStart, `poolEnd, `mallocVec, `chunks, `regions
      ensures PoolOk() && ListsOk(hole) && poolStart == p && poolEnd == p + n
      ensures chunks == old(chunks) + [Chunk(p, n)]
      ensures regions == old(regions)
        + if old(poolEnd - poolStart) == 0 then [] else [Region(old(poolStart), old(poolEnd - poolStart), Lost, |old(chunks)| - 1)]
    {
      hide RegionsOk, ChunksOk, Unused, Bytes, BytesIn, ChunkBytes, AllListsOk;
      ghost var left := poolEnd - poolStart;
      NoChunks();
      if left > 0 {
        AppendOk(regions, chunks, poolStart, left, left, Lost);
        BytesAppend(regions, Region(poolStart, left, Lost, |chunks| - 1));
        ListsKept(mem, mem, freeList, freeList, regions, regions + [Region(poolStart, left, Lost, |chunks| - 1)], lists, lists, hole);
        regions := regions + [Region(poolStart, left, Lost, |chunks| - 1)];
      }
      NewChunkOk(regions, chunks, p, n);
      poolStart := p;
      mallocVec := mallocVec + [p];
      poolEnd := p + n;
      chunks := chunks + [Chunk(p, n)];
    }

    /** A new live region of size * nums' bytes for nums' blocks, at least one and at
        most nums. While it looks for memory, the free list of this size class may be
        given a node that is too small, and then nums' is nums. */
    method ChunkAlloc(size: nat, nums: nat, sys: nat) returns (res: nat, nums': nat)
      requires 0 < size <= MAX_BYTES && size % ALIGN == 0 && 1 < nums
      requires PoolOk() && ListsOk(FreeListIndex(size))
      requires poolEnd - poolStart < size ==> FreshChunk(sys, size * nums)
      modifies this
      ensures PoolOk() && ListsOk(FreeListIndex(size))
      ensures 1 <= nums' <= nums && lists == old(lists)
      ensures old(regions) < regions && regions[|regions| - 1] == Region(res, size * nums', Live, |chunks| - 1)
      ensures forall j :: |old(regions)| <= j < |regions| - 1 ==> regions[j].kind == Lost
      ensures nums' == BlocksFor(old(poolEnd - poolStart), size, nums)
      ensures size <= old(poolEnd - poolStart) < size * nums ==>
                size * nums' <= old(poolEnd - poolStart) < size * (nums' + 1)
      ensures nums' == 1 ==> freeList == old(freeList)
      ensures SameBut(old(mem), mem, old(poolStart), old(poolEnd))
      ensures old(poolEnd - poolStart) >= size ==> mem == old(mem)
      ensures poolStart == res + size * nums'
      ensures if old(poolEnd - poolStart) >= size
              then res == old(poolStart) && poolEnd == old(poolEnd) && chunks == old(chunks)
              else res == sys && poolEnd == poolStart && chunks == old(chunks) + [Chunk(sys, size * nums)]
      decreases if poolEnd - poolStart < size then 1 else 0
    {
      hide RegionsOk, ChunksOk, Unused, Bytes, BytesIn, ChunkBytes, AllListsOk, SameBut;
      NoneWritten(mem, poolStart, poolEnd);
      var needBytes := size * nums;
      var leftBytes := poolEnd - poolStart;
      AtLeastOne(size, nums);
      Multiple(size, nums);
      if leftBytes >= needBytes {
        res := poolStart;
        nums' := nums;
        Carve(needBytes, FreeListIndex(size));
        return;
      } else if leftBytes >= size {
        nums' := leftBytes / size;
        Quotient(leftBytes, size, nums);
        Multiple(size, nums');
        needBytes := size * nums';
        res := poolStart;
        Carve(needBytes, FreeListIndex(size));
        return;
      }
      var bytesToGet := size * nums;
      if leftBytes > 0 {
        FileLeftover(size);
      }
      NewChunk(sys, bytesToGet, FreeListIndex(size));
      res, nums' := ChunkAlloc(size, nums, sys);
    }

    /** Put what is left of the pool on the free list of the requested size, in front of
        the nodes of the smaller size it would suit. */
    method FileLeftover(size: nat)
      requires 0 < poolEnd - poolStart < size <= MAX_BYTES && size % ALIGN == 0
      requires PoolOk() && ListsOk(FreeListIndex(size))
      modifies `mem, `freeList
      ensures PoolOk() && ListsOk(FreeListIndex(size)) && SameBut(old(mem), mem, poolStart, poolEnd)
    {
      hide ChunksOk, Bytes, BytesIn, ChunkBytes;
      var myFree := freeList[FreeListIndex(poolEnd - poolStart)];
      mem := mem[poolStart := myFree];
      freeList := freeList[FreeListIndex(size) := poolStart];
      assert forall j :: 0 <= j < |regions| ==> Apart(regions[j].addr, regions[j].size, poolStart, poolEnd - poolStart);
      assert forall j :: 0 <= j < |regions| ==> regions[j].addr != poolStart;
      hide AllListsOk;
      ListsKept(old(mem), mem, old(freeList), freeList, regions, regions, lists, lists, FreeListIndex(size));
    }

    ghost predicate LastIs(addr: nat, size: nat)
      reads `regions
    {
      && regions != [] && regions[|regions| - 1].kind == Live
      && regions[|regions| - 1].addr == addr && regions[|regions| - 1].size == size
    }

    /** Cut a first block of the given kind off the last region. */
    ghost method Cut(size: nat, kind: Kind, c: nat)
      requires PoolOk() && ListsOk(c) && c < FREE_LISTS && (kind == Live || kind == Node(c))
      requires regions != [] && regions[|regions| - 1].kind == Live
      requires 0 < size < regions[|regions| - 1].size && size % ALIGN == 0
      modifies `regions
      ensures PoolOk() && ListsOk(c) && regions == Split(old(regions), size, kind)
    {
      hide RegionsOk, ChunksOk, Unused, Bytes, BytesIn, ChunkBytes, AllListsOk;
      SplitOk(regions, chunks, poolStart, poolEnd - poolStart, size, kind);
      SplitBytes(regions, size, kind);
      ListsKept(mem, mem, freeList, freeList, regions, Split(regions, size, kind), lists, lists, c);
      regions := Split(regions, size, kind);
    }

    /** Region j becomes a live block, or a free one of class c. */
    ghost method Retag(j: nat, kind: Kind, c: nat)
      requires PoolOk() && ListsOk(c) && c < FREE_LISTS && j < |regions|
      requires (kind == Live && regions[j].kind == Node(c)) || (kind == Node(c) && regions[j].kind == Live)
      modifies `regions
      ensures PoolOk() && ListsOk(c) && regions == old(regions)[j := old(regions[j]).(kind := kind)]
    {
      hide Bytes, BytesIn, ChunkBytes, ChunksOk, AllListsOk;
      BytesSame(regions, j, kind);
      BytesInAfter(regions, j, kind, Abandoned);
      ghost var regions' := regions[j := regions[j].(kind := kind)];
      ListsKept(mem, mem, freeList, freeList, regions, regions', lists, lists, c);
      regions := regions';
    }

    /** A link written into a live region of size class c's list under construction. */
    method SetLink(current: nat, next: nat, ghost j: nat, ghost c: nat)
      requires PoolOk() && ListsOk(c) && j < |regions| && regions[j].addr == current && !OnOther(regions, j, c)
      modifies `mem
      ensures PoolOk() && ListsOk(c) && mem == old(mem)[current := next]
    {
      hide ChunksOk, Bytes, BytesIn, ChunkBytes, AllListsOk, Unused;
      forall i | 0 <= i < |regions| && i != j
        ensures regions[i].addr != current
      {
        DistinctAddr(regions, chunks, i, j);
      }
      hide RegionsOk;
      ListsKept(mem, mem[current := next], freeList, freeList, regions, regions, lists, lists, c);
      mem := mem[current := next];
    }

    /** Cut the block at current off the last region and link it before the next one. */
    method Link(current: nat, size: nat, ghost left: nat, ghost c: nat, ghost list: seq<nat>, ghost head: nat)
      requires c < FREE_LISTS && size == ALIGN * (c + 1) && size < left
      requires PoolOk() && ListsOk(c) && Building(mem, regions, list, head, c, current) && LastIs(current, left)
      modifies `mem, `regions
      ensures PoolOk() && ListsOk(c) && Split(old(regions), size, Node(c)) == regions
      ensures Building(mem, regions, list + [|regions| - 2], head, c, current + size) && LastIs(current + size, left - size)
      ensures Addrs(regions, list + [|regions| - 2]) == Addrs(old(regions), list) + [current]
      ensures mem == old(mem)[current := current + size]
    {
      hide PoolOk, AllListsOk, Building;
      ghost var j := |regions| - 1;
      Cut(size, Node(c), c);
      DistinctAddrs(j);
      BuildOn(mem, old(regions), regions, list, head, c, j, current + size);
      AddrsMore(mem, old(regions), regions, list, head, c, j, current);
      SetLink(current, current + size, j, c);
    }

    lemma DistinctAddrs(j: nat)
      requires PoolOk() && j < |regions|
      ensures forall i :: 0 <= i < |regions| && i != j ==> regions[i].addr != regions[j].addr
    {
    }

    /** The last region is the last block: end the list with it. */
    method LinkLast(current: nat, size: nat, ghost c: nat, ghost list: seq<nat>, ghost head: nat)
      requires c < FREE_LISTS && size == ALIGN * (c + 1)
      requires PoolOk() && ListsOk(c) && Building(mem, regions, list, head, c, current) && LastIs(current, size)
      modifies `mem, `regions
      ensures PoolOk() && ListsOk(c) && Building(mem, regions, list + [|regions| - 1], head, c, 0)
      ensures Addrs(regions, list + [|regions| - 1]) == Addrs(old(regions), list) + [current]
      ensures mem == old(mem)[current := 0]
      ensures regions == old(regions)[|old(regions)| - 1 := old(regions[|regions| - 1]).(kind := Node(c))]
    {
      hide PoolOk, AllListsOk, Building;
      ghost var j := |regions| - 1;
      Retag(j, Node(c), c);
      DistinctAddrs(j);
      BuildOn(mem, old(regions), regions, list, head, c, j, 0);
      AddrsMore(mem, old(regions), regions, list, head, c, j, current);
      SetLink(current, 0, j, c);
    }

    /** Working on list c: the others stay right meanwhile. */
    lemma Opened(c: nat)
      requires Valid() && c < FREE_LISTS
      ensures |freeList| == |lists| == FREE_LISTS && ListsOk(c)
      ensures freeList[c] == 0 ==> lists[c] == [] && forall j :: 0 <= j < |regions| ==> regions[j].kind != Node(c)
      ensures ListOk(mem, freeList[c], regions, lists[c], c)
    {
    }

    lemma Lengths(c: nat)
      requires ListsOk(c)
      ensures |freeList| == |lists| == FREE_LISTS
    {
    }

    /** Point free list c to its first node; in `lists`, say which nodes it has. */
    method SetHead(c: nat, head: nat, ghost list: seq<nat>)
      requires PoolOk() && ListsOk(c) && c < |freeList|
      modifies `freeList, `lists
      ensures PoolOk() && ListsOk(c) && |freeList| == |lists| == FREE_LISTS
      ensures freeList == old(freeList)[c := head] && lists == old(lists)[c := list]
      ensures ListOk(mem, head, regions, list, c) ==> Valid()
    {
      hide PoolOk, ListOk;
      freeList := freeList[c := head];
      lists := lists[c := list];
      if ListOk(mem, head, regions, list, c) {
        CloseHole(mem, freeList, regions, lists, c);
      }
    }

    ghost method Record(c: nat, list: seq<nat>)
      requires PoolOk() && ListsOk(c) && c < |freeList| == |lists| == FREE_LISTS
      requires ListOk(mem, freeList[c], regions, list, c)
      modifies `lists
      ensures Valid() && lists == old(lists)[c := list]
    {
      hide PoolOk, ListOk;
      lists := lists[c := list];
      CloseHole(mem, freeList, regions, lists, c);
    }

    /** A block of the given size, and, unless memory was short, a new free list of its class. */
    method ReFill(size: nat, sys: nat) returns (res: nat, ghost j: nat)
      requires 0 < size <= MAX_BYTES && size % ALIGN == 0
      requires Valid() && freeList[FreeListIndex(size)] == 0
      requires poolEnd - poolStart < size ==> FreshChunk(sys, size * ADD_NODES)
      modifies this
      ensures Valid() && LiveAt(j, res) && regions[j].size == size
      ensures |old(regions)| <= j && old(regions) <= regions
      ensures forall i :: |old(regions)| <= i < |regions| && i != j ==> regions[i].kind == Lost || regions[i].kind == Node(FreeListIndex(size))
      ensures View() == Taken(old(View()), size, sys).0 && res == Taken(old(View()), size, sys).1
      ensures Untouched(old(mem), mem, old(regions))
    {
      hide PoolOk, AllListsOk, ListOk, Building, SameBut, Untouched, Addrs, AllAddrs, Row, Taken, BlocksFor;
      ghost var c, base := FreeListIndex(size), |regions|;
      Opened(c);
      PoolApart();
      var chunk, nums := ChunkAlloc(size, ADD_NODES, sys);
      WrittenApart(old(mem), mem, old(regions), old(poolStart), old(poolEnd));
      j := |regions| - 1;
      Lengths(c);
      assert forall k :: 0 <= k < |regions| ==> regions[k].kind != Node(c);
      if nums == 1 {
        EndEmpty(c);
        AddrsAfter(old(mem), old(freeList), old(regions), regions, old(lists), [], c);
        NothingYet(regions, chunk + size, size);
        Refilled(old(View()), size, sys, View(), chunk, 0);
        return chunk, j;
      }
      res := chunk;
      ghost var before := mem;
      FirstOfRun(chunk, size, nums, c, old(regions));
      UntouchedOn(old(mem), before, mem, old(regions));
      AddrsAfter(old(mem), old(freeList), old(regions), regions, old(lists), lists[c], c);
      Refilled(old(View()), size, sys, View(), chunk, nums - 1);
    }

    lemma LastApart(was: seq<Region>)
      requires PoolOk() && was < regions
      ensures var last := regions[|regions| - 1];
              forall j :: 0 <= j < |was| ==> Apart(was[j].addr, was[j].size, last.addr, last.size)
    {
    }

    lemma PoolApart()
      requires PoolOk()
      ensures poolStart <= poolEnd
      ensures forall j :: 0 <= j < |regions| ==> Apart(regions[j].addr, regions[j].size, poolStart, poolEnd - poolStart)
    {
    }

    /** The first block of a run is taken, and the others become free list c. */
    method FirstOfRun(chunk: nat, size: nat, nums: nat, ghost c: nat, ghost was: seq<Region>)
      requires 0 < size <= MAX_BYTES && size % ALIGN == 0 && c == FreeListIndex(size) && 1 < nums
      requires PoolOk() && ListsOk(c) && LastIs(chunk, size * nums) && was < regions
      requires forall k :: 0 <= k < |regions| ==> regions[k].kind != Node(c)
      modifies `mem, `regions, `freeList, `lists
      ensures Valid() && |old(lists)| == |lists| == FREE_LISTS && lists == old(lists)[c := lists[c]]
      ensures Addrs(regions, lists[c]) == Row(chunk + size, size, nums - 1)
      ensures Untouched(old(mem), mem, was)
      ensures |old(regions)| <= |regions| && old(regions[..|regions| - 1]) <= regions
      ensures LiveAt(|old(regions)| - 1, chunk) && regions[|old(regions)| - 1].size == size
      ensures forall i :: |old(regions)| <= i < |regions| ==> regions[i].kind == Node(c)
    {
      hide PoolOk, AllListsOk, ListOk, Building, Addrs, Row, SameBut, Untouched;
      LastApart(was);
      Lengths(c);
      AtLeastOne(size, nums);
      OneLess(size, nums);
      Cut(size, Live, c);
      SetHead(FreeListIndex(size), chunk + size, []);
      ghost var list := LinkNodes(chunk + size, size, nums, size * nums - size, c);
      Record(c, list);
      SameWider(old(mem), mem, chunk + size, chunk, chunk + size * nums);
      WrittenApart(old(mem), mem, was, chunk, chunk + size * nums);
    }

    /** n blocks of a run that began as the last region are linked, up to next. */
    ghost predicate Linked(was: seq<Region>, wasMem: map<nat, nat>, list: seq<nat>, first: nat, size: nat, n: nat, next: nat, c: nat)
      reads `mem, `regions
    {
      && CutUp(was, regions, c) && Building(mem, regions, list, first, c, next)
      && next == first + size * n && Addrs(regions, list) == Row(first, size, n)
      && SameBut(wasMem, mem, first, next)
    }

    lemma NoneLinked(first: nat, size: nat, c: nat)
      requires regions != [] && forall k :: 0 <= k < |regions| ==> regions[k].kind != Node(c)
      ensures Linked(regions, mem, [], first, size, 0, first, c)
    {
      NotCut(regions, c);
      NoneBuilt(mem, regions, c, first);
    }

    /** Link, with what it keeps of the run. */
    method LinkNext(current: nat, size: nat, ghost left: nat, ghost c: nat, ghost list: seq<nat>, ghost first: nat,
                    ghost n: nat, ghost was: seq<Region>, ghost wasMem: map<nat, nat>)
      requires c < FREE_LISTS && size == ALIGN * (c + 1) && size < left
      requires PoolOk() && ListsOk(c) && LastIs(current, left) && Linked(was, wasMem, list, first, size, n, current, c)
      modifies `mem, `regions
      ensures PoolOk() && ListsOk(c) && LastIs(current + size, left - size) && |regions| > 1
      ensures Linked(was, wasMem, list + [|regions| - 2], first, size, n + 1, current + size, c)
    {
      hide PoolOk, AllListsOk, Building, CutUp, Split, SameBut, Addrs, Row;
      RowOn(first, size, n);
      OneMoreRow(first, size, n);
      CutMore(was, regions, size, c);
      WordWritten(wasMem, mem, first, current, current, current + size, current + size);
      Link(current, size, left, c, list, first);
    }

    /** LinkLast, with what it keeps of the run. */
    method LinkEnd(current: nat, size: nat, ghost c: nat, ghost list: seq<nat>, ghost first: nat,
                   ghost n: nat, ghost was: seq<Region>, ghost wasMem: map<nat, nat>)
      requires c < FREE_LISTS && size == ALIGN * (c + 1)
      requires PoolOk() && ListsOk(c) && LastIs(current, size) && Linked(was, wasMem, list, first, size, n, current, c)
      modifies `mem, `regions
      ensures PoolOk() && ListsOk(c) && regions != [] && ListOk(mem, first, regions, list + [|regions| - 1], c)
      ensures Addrs(regions, list + [|regions| - 1]) == Row(first, size, n + 1)
      ensures SameBut(wasMem, mem, first, current + size)
      ensures 0 < |was| <= |regions| && was[..|was| - 1] <= regions
      ensures forall i :: |was| - 1 <= i < |regions| ==> regions[i].kind == Node(c)
    {
      hide PoolOk, AllListsOk, Building, ListOk, CutUp, SameBut, Addrs, Row;
      RowOn(first, size, n);
      CutLast(was, regions, c);
      WordWritten(wasMem, mem, first, current, current, 0, current + size);
      LinkLast(current, size, c, list, first);
      BuiltList(mem, first, regions, list + [|regions| - 1], c);
    }

    /** The loop of ReFill: cut nums - 1 blocks off the last region and link them. */
    method LinkNodes(first: nat, size: nat, nums: nat, ghost total: nat, ghost c: nat) returns (ghost list: seq<nat>)
      requires c < FREE_LISTS && size == ALIGN * (c + 1) && 1 < nums && total == size * (nums - 1)
      requires PoolOk() && ListsOk(c) && LastIs(first, total)
      requires forall k :: 0 <= k < |regions| ==> regions[k].kind != Node(c)
      modifies `mem, `regions
      ensures PoolOk() && ListsOk(c) && ListOk(mem, first, regions, list, c)
      ensures |old(regions)| <= |regions| && old(regions[..|regions| - 1]) <= regions
      ensures Addrs(regions, list) == Row(first, size, nums - 1) && SameBut(old(mem), mem, first, first + total)
      ensures forall i :: |old(regions)| - 1 <= i < |regions| ==> regions[i].kind == Node(c)
    {
      hide PoolOk, AllListsOk, ListOk, Linked, SameBut, Addrs, Row;
      var next: nat := first;
      list := [];
      ghost var left := total;
      NoneLinked(first, size, c);
      var i := 1;
      while true
        invariant 1 <= i < nums && next + left == first + total
        invariant PoolOk() && ListsOk(c) && Linked(old(regions), old(mem), list, first, size, i - 1, next, c)
        invariant left == size * (nums - i) && LastIs(next, left)
        decreases nums - i
      {
        var current := next;
        next := next + size;
        if nums - 1 == i {
          LinkEnd(current, size, c, list, first, i - 1, old(regions), old(mem));
          list := list + [|regions| - 1];
          break;
        } else {
          OneLess(size, nums - i);
          LinkNext(current, size, left, c, list, first, i - 1, old(regions), old(mem));
          list := list + [|regions| - 2];
          left := left - size;
        }
        i := i + 1;
      }
    }

    /** A block of at least size bytes. A large one comes straight from the system, as sys. */
    method Malloc(size: nat, sys: nat) returns (p: nat, ghost j: nat)
      requires Valid() && 0 < size
      requires poolEnd - poolStart < Align(size) <= MAX_BYTES ==> FreshChunk(sys, Align(size) * ADD_NODES)
      modifies this
      ensures Valid()
      ensures size > 256 ==> p == sys && regions == old(regions) && chunks == old(chunks)
      ensures size <= 256 ==>
        && LiveAt(j, p) && regions[j].size == Align(size)
        && (j < |old(regions)| ==> old(regions[j].kind) == Node(FreeListIndex(size)))
      ensures |old(regions)| <= |regions|
      ensures forall i :: 0 <= i < |old(regions)| && i != j ==> regions[i] == old(regions[i])
      ensures forall i :: |old(regions)| <= i < |regions| && i != j ==> regions[i].kind != Live
      ensures size <= 256 && HasNode(old(regions), FreeListIndex(size)) ==>
                && FirstOf(old(lists), FreeListIndex(size), j) && j < |old(regions)| == |regions|
                && poolStart == old(poolStart) && poolEnd == old(poolEnd) && chunks == old(chunks)
      ensures Untouched(old(mem), mem, old(regions))
      ensures Gave(old(View()), size, sys, View(), p)
    {
      hide PoolOk, AllListsOk, ListOk, Addrs, AllAddrs, Untouched;
      AllStay(mem, regions);
      if size > MAX_BYTES {
        return sys, |regions|;
      }
      var c := FreeListIndex(size);
      Opened(c);
      SameClass(size);
      if freeList[c] == 0 {
        p, j := ReFill(Align(size), sys);
      } else {
        p, j := Pop(c);
        AddrsAfter(old(mem), old(freeList), old(regions), regions, old(lists), lists[c], c);
      }
    }

    /** Take the first node off free list c. */
    method Pop(c: nat) returns (p: nat, ghost j: nat)
      requires Valid() && c < |freeList| == FREE_LISTS && freeList[c] != 0
      modifies this
      ensures Valid() && j < |old(regions)|
      ensures poolStart == old(poolStart) && poolEnd == old(poolEnd) && chunks == old(chunks) && mem == old(mem)
      ensures old(regions[j]).kind == Node(c) && old(regions[j]).size == ALIGN * (c + 1) && old(regions[j]).addr == p
      ensures regions == old(regions)[j := old(regions[j]).(kind := Live)]
      ensures old(lists[c]) != [] && j == old(lists[c])[0] && lists == old(lists)[c := old(lists[c])[1..]]
      ensures Addrs(regions, lists[c]) == Addrs(old(regions), old(lists[c]))[1..]
    {
      hide PoolOk, AllListsOk, ListOk;
      Opened(c);
      HeadNode(c);
      var result := freeList[c];
      j := lists[c][0];
      PopNode(mem, freeList[c], regions, lists[c], c);
      Retag(j, Live, c);
      SetHead(c, mem[result], lists[c][1..]);
      p := result;
    }

    /** A null free list is one without nodes. */
    lemma HeadNode(c: nat)
      requires Valid() && c < |freeList| == |lists| == FREE_LISTS && freeList[c] != 0
      ensures lists[c] != []
    {
      CloseHole(mem, freeList, regions, lists, c);
      NullHead(mem, freeList[c], regions, chunks, lists[c], c);
    }

    /** Give back the live block at p, with a length of its size class. */
    method Free(p: nat, len: nat, ghost j: nat)
      requires Valid()
      requires p != 0 && len <= 256 ==> 0 < len && LiveAt(j, p) && regions[j].size == Align(len)
      modifies this
      ensures Valid() && poolStart == old(poolStart) && poolEnd == old(poolEnd) && chunks == old(chunks)
      ensures regions == if p == 0 || len > 256 then old(regions)
                         else old(regions)[j := old(regions[j]).(kind := Node(FreeListIndex(len)))]
      ensures if p == 0 || len > 256 then lists == old(lists)
              else FirstOf(lists, FreeListIndex(len), j)
      ensures View() == if p == 0 || len > 256 then old(View()) else Given(old(View()), p, len)
      ensures Untouched(old(mem), mem, regions)
    {
      hide PoolOk, AllListsOk, ListOk, Untouched, Addrs, AllAddrs;
      AllStay(mem, regions);
      if p == 0 {
        return;
      }
      if len > MAX_BYTES {
        return;
      }
      var c := FreeListIndex(len);
      Opened(c);
      Push(p, c, j);
      AddrsAfter(old(mem), old(freeList), old(regions), regions, old(lists), lists[c], c);
    }

    /** Put block p in front of free list c. */
    method Push(p: nat, c: nat, ghost j: nat)
      requires Valid() && c < FREE_LISTS && LiveAt(j, p) && regions[j].size == ALIGN * (c + 1)
      modifies this
      ensures Valid() && poolStart == old(poolStart) && poolEnd == old(poolEnd) && chunks == old(chunks)
      ensures regions == old(regions)[j := old(regions[j]).(kind := Node(c))]
      ensures c < |old(lists)| && lists == old(lists)[c := [j] + old(lists)[c]]
      ensures Untouched(old(mem), mem, regions)
      ensures Addrs(regions, lists[c]) == [p] + Addrs(old(regions), old(lists)[c])
    {
      hide PoolOk, AllListsOk, ListOk;
      Opened(c);
      DistinctAddrs(j);
      OthersApart(j);
      PushNode(mem, freeList[c], regions, lists[c], c, j);
      SetLink(p, freeList[c], j, c);
      Retag(j, Node(c), c);
      SetHead(c, p, [j] + lists[c]);
      WrittenApart(old(mem), mem, regions, p, p + 1);
    }

    lemma NotNull(j: nat)
      requires PoolOk() && j < |regions|
      ensures 0 < regions[j].addr
    {
    }

    lemma OthersApart(j: nat)
      requires PoolOk() && j < |regions|
      ensures forall i :: 0 <= i < |regions| && i != j ==> Apart(regions[i].addr, regions[i].size, regions[j].addr, 1)
    {
      forall i | 0 <= i < |regions| && i != j
        ensures Apart(regions[i].addr, regions[i].size, regions[j].addr, 1)
      {
        assert Apart(regions[Min(i, j)].addr, regions[Min(i, j)].size,
                     regions[if i < j then j else i].addr, regions[if i < j then j else i].size);
      }
    }

    /** The program stores a word inside one of its live blocks. */
    method Store(p: nat, v: nat, ghost j: nat)
      requires Valid() && j < |regions| && regions[j].kind == Live
      requires regions[j].addr <= p && p + ALIGN <= regions[j].addr + regions[j].size
      modifies `mem
      ensures Valid() && mem == old(mem)[p := v]
    {
      forall i | 0 <= i < |regions| && i != j
        ensures regions[i].addr != p
      {
        assert Apart(regions[Min(i, j)].addr, regions[Min(i, j)].size,
                     regions[if i < j then j else i].addr, regions[if i < j then j else i].size);
      }
      hide PoolOk, AllListsOk;
      ListsKept(mem, mem[p := v], freeList, freeList, regions, regions, lists, lists, FREE_LISTS);
      mem := mem[p := v];
    }

    /** Blocks in use, free nodes and leftovers never overlap each other or the unused
        end of the pool, and together they are the memory the pool has. */
    lemma Safe()
      requires Valid()
      ensures forall i, j :: 0 <= i < j < |regions| ==> Apart(regions[i].addr, regions[i].size, regions[j].addr, regions[j].size)
      ensures forall i :: 0 <= i < |regions| ==>
                && Within(regions[i].addr, regions[i].size, chunks, regions[i].chunk)
                && Apart(regions[i].addr, regions[i].size, poolStart, poolEnd - poolStart)
      ensures ChunkBytes(chunks)
           == BytesIn(regions, InUse) + BytesIn(regions, Recycled) + BytesIn(regions, Abandoned) + (poolEnd - poolStart)
      ensures chunks != [] ==> BytesIn(regions, Abandoned) <= (MAX_BYTES - ALIGN) * (|chunks| - 1)
    {
      UsesAddUp(regions);
    }

    lemma EndEmpty(c: nat)
      requires PoolOk() && ListsOk(c) && c < |freeList| == |lists| && freeList[c] == 0 && lists[c] == [] && c < FREE_LISTS
      requires forall j :: 0 <= j < |regions| ==> regions[j].kind != Node(c)
      ensures Valid()
    {
    }
  }

  lemma BuiltList(mem: map<nat, nat>, head: nat, regions: seq<Region>, list: seq<nat>, c: nat)
    requires Building(mem, regions, list, head, c, 0)
    ensures ListOk(mem, head, regions, list, c)
  {
  }

  lemma {:induction false} OneLess(size: nat, n: nat)
    requires 1 < n && 0 < size
    ensures size * n == size + size * (n - 1) && size < size * n
  {
  }

  lemma {:induction false} OneMoreRow(first: nat, size: nat, n: nat)
    ensures first + size * (n + 1) == first + size * n + size
  {
  }

  lemma {:induction false} Multiple(size: nat, n: nat)
    requires size % ALIGN == 0
    ensures size * n % ALIGN == 0
  {
    var k := size / ALIGN;
    assert size * n == ALIGN * (k * n);
  }

  lemma {:induction false} AtLeastOne(size: nat, nums: nat)
    requires 0 < size && 1 < nums
    ensures size < size * nums
  {
  }

  lemma {:induction false} Quotient(left: nat, size: nat, nums: nat)
    requires 0 < size <= left < size * nums
    ensures var q := left / size; 1 <= q < nums && 0 < size * q <= left < size * (q + 1)
  {
  }
}
