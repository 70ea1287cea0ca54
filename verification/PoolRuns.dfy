// Whole runs of the pool: what a program is given for its requests, what it may rely on,
// and how much memory that takes.

module PoolRuns {
  import opened Basics
  import opened PoolAlloters

  datatype Request =
    | Take(size: nat, hint: nat)       // Malloc; if the pool needs a chunk the system has one at hint, or above all others
    | Return(k: nat)                   // Free of the k-th block held
    | Put(k: nat, w: nat, v: nat)      // a value stored in word w of the k-th block held

  /** A block the program holds, of the size it asked for, with the words it stored there. */
  datatype Block = Block(addr: nat, size: nat, words: map<nat, nat>)

  datatype Program = Program(heap: Heap, held: seq<Block>)

  /** The system does not hand out memory the pool still has. */
  predicate Spare(chunks: seq<Chunk>, p: nat, n: nat) {
    0 < p && forall i :: 0 <= i < |chunks| ==> Apart(chunks[i].addr, chunks[i].size, p, n)
  }

  /** The first address past all chunks. */
  function Above(chunks: seq<Chunk>): (p: nat)
    ensures 0 < p && forall i :: 0 <= i < |chunks| ==> chunks[i].addr + chunks[i].size <= p
  {
    if chunks == [] then 1
    else
      var last := chunks[|chunks| - 1];
      Max(Above(chunks[..|chunks| - 1]), last.addr + last.size)
  }

  function SystemAt(chunks: seq<Chunk>, hint: nat, n: nat): (p: nat)
    ensures Spare(chunks, p, n)
  {
    if Spare(chunks, hint, n) then hint else Above(chunks)
  }

  predicate Sound(s: Program) {
    && |s.heap.free| == FREE_LISTS
    && forall i :: 0 <= i < |s.held| ==> 0 < s.held[i].size <= MAX_BYTES
  }

  function Next(s: Program, r: Request): (t: Program)
    requires Sound(s)
    ensures Sound(t)
  {
    match r
    case Take(size, hint) =>
      if 0 < size <= MAX_BYTES then
        var (h, p) := Taken(s.heap, Align(size), SystemAt(s.heap.chunks, hint, Align(size) * ADD_NODES));
        Program(h, s.held + [Block(p, size, map[])])
      else s
    case Return(k) =>
      if k < |s.held| then Program(Given(s.heap, s.held[k].addr, s.held[k].size), Without(s.held, k)) else s
    case Put(k, w, v) =>
      if k < |s.held| && ALIGN * (w + 1) <= Align(s.held[k].size) then
        s.(held := s.held[k := s.held[k].(words := s.held[k].words[w := v])])
      else s
  }

  /** What the program has after its requests. */
  function After(requests: seq<Request>): (s: Program)
    ensures Sound(s)
  {
    if requests == [] then Program(Heap(seq(FREE_LISTS, _ => []), 0, 0, []), [])
    else Next(After(requests[..|requests| - 1]), requests[|requests| - 1])
  }

  lemma {:induction false} AfterOne(requests: seq<Request>, r: Request)
    ensures After(requests + [r]) == Next(After(requests), r)
  {
    assert (requests + [r])[..|requests|] == requests;
  }

  // Blocks are reused.

  /** How many blocks of class c are held. */
  function Count(held: seq<Block>, c: nat): nat {
    if held == [] then 0
    else Count(held[..|held| - 1], c) + if IsOf(held[|held| - 1], c) then 1 else 0
  }

  predicate IsOf(b: Block, c: nat) {
    0 < b.size && FreeListIndex(b.size) == c
  }

  lemma {:induction false} CountMore(held: seq<Block>, b: Block, c: nat)
    ensures Count(held + [b], c) == Count(held, c) + if IsOf(b, c) then 1 else 0
  {
    assert (held + [b])[..|held|] == held;
  }

  lemma {:induction false} CountLess(held: seq<Block>, k: nat, c: nat)
    requires k < |held|
    ensures Count(held, c) == Count(Without(held, k), c) + if IsOf(held[k], c) then 1 else 0
  {
    var n := |held| - 1;
    if k == n {
      assert Without(held, k) == held[..n];
    } else {
      CountLess(held[..n], k, c);
      assert Without(held, k) == Without(held[..n], k) + [held[n]];
      CountMore(Without(held[..n], k), held[n], c);
    }
  }

  lemma {:induction false} CountSame(held: seq<Block>, k: nat, words: map<nat, nat>, c: nat)
    requires k < |held|
    ensures Count(held[k := held[k].(words := words)], c) == Count(held, c)
  {
    var held' := held[k := held[k].(words := words)];
    CountLess(held, k, c);
    CountLess(held', k, c);
    assert Without(held', k) == Without(held, k);
  }

  /** One request, as class c sees it: its blocks are held or free, and there are more of
      them afterwards only if one was asked for when none was free. */
  lemma {:induction false} ClassStep(s: Program, r: Request, c: nat)
    requires Sound(s) && c < FREE_LISTS
    ensures var t := Next(s, r);
            var was, now := Count(s.held, c), Count(t.held, c);
            || (s.heap.free[c] == [] && now == was + 1 && |t.heap.free[c]| <= 19)
            || (s.heap.free[c] != [] && now == was + 1 && t.heap.free[c] == s.heap.free[c][1..])
            || (now == was && t.heap.free[c] == s.heap.free[c])
            || (now + 1 == was && t.heap.free[c] != [] && t.heap.free[c][1..] == s.heap.free[c])
  {
    hide Count, Taken;
    match r
    case Take(size, hint) =>
      if 0 < size <= MAX_BYTES {
        var sys := SystemAt(s.heap.chunks, hint, Align(size) * ADD_NODES);
        var p := Taken(s.heap, Align(size), sys).1;
        SameClass(size);
        CountMore(s.held, Block(p, size, map[]), c);
        TakenList(s.heap, Align(size), sys);
      }
    case Return(k) =>
      if k < |s.held| {
        CountLess(s.held, k, c);
      }
    case Put(k, w, v) =>
      if k < |s.held| {
        CountSame(s.held, k, s.held[k].words[w := v], c);
      }
  }

  /** A block comes off the free list of its class; one that is empty gets at most 19 new ones. */
  lemma {:induction false} TakenList(h: Heap, size: nat, sys: nat)
    requires 0 < size <= MAX_BYTES && |h.free| == FREE_LISTS
    ensures var t, c := Taken(h, size, sys).0, FreeListIndex(size);
            && |t.free| == FREE_LISTS && (forall d :: 0 <= d < FREE_LISTS && d != c ==> t.free[d] == h.free[d])
            && (h.free[c] != [] ==> t.free[c] == h.free[c][1..])
            && (h.free[c] == [] ==> |t.free[c]| <= 19)
  {
    var left := if h.start <= h.end then h.end - h.start else 0;
    if size <= left < size * ADD_NODES {
      Quotient(left, size, ADD_NODES);
    }
  }

  /** As long as no more blocks of class c are held than at first, its free list only grows
      in front. */
  lemma {:induction false} StackKept(base: seq<Request>, mid: seq<Request>, c: nat)
    requires c < FREE_LISTS
    requires forall n :: 0 <= n <= |mid| ==> Count(After(base + mid[..n]).held, c) <= Count(After(base).held, c)
    ensures var s, t := After(base), After(base + mid);
            var more := Count(s.held, c) - Count(t.held, c);
            0 <= more <= |t.heap.free[c]| && t.heap.free[c][more..] == s.heap.free[c]
  {
    hide Next, Count;
    if mid == [] {
      assert base + mid == base && base + mid[..0] == base;
    } else {
      var n := |mid| - 1;
      var init := mid[..n];
      forall k | 0 <= k <= n
        ensures Count(After(base + init[..k]).held, c) <= Count(After(base).held, c)
      {
        assert init[..k] == mid[..k];
      }
      StackKept(base, init, c);
      assert mid[..|mid|] == mid && base + mid == base + init + [mid[n]];
      AfterOne(base + init, mid[n]);
      ClassStep(After(base + init), mid[n], c);
    }
  }

  /** The block of a class that was returned last is given out first: if the program takes
      one of that class when it has returned all it took in between, it gets back the
      block it returned, and the pool takes no memory for it. */
  lemma {:induction false} LastReturnedFirst(before: seq<Request>, k: nat, mid: seq<Request>, size: nat, hint: nat)
    requires k < |After(before).held| && 0 < size <= 256
    requires FreeListIndex(size) == FreeListIndex(After(before).held[k].size)
    requires var base, c := before + [Return(k)], FreeListIndex(size);
             && (forall n :: 0 <= n <= |mid| ==> Count(After(base + mid[..n]).held, c) <= Count(After(base).held, c))
             && Count(After(base + mid).held, c) == Count(After(base).held, c)
    ensures var was := After(before + [Return(k)] + mid);
            var now := After(before + [Return(k)] + mid + [Take(size, hint)]);
            && now.held == was.held + [Block(After(before).held[k].addr, size, map[])]
            && now.heap.chunks == was.heap.chunks && now.heap.start == was.heap.start && now.heap.end == was.heap.end
  {
    var c := FreeListIndex(size);
    AfterOne(before, Return(k));
    StackKept(before + [Return(k)], mid, c);
    AfterOne(before + [Return(k)] + mid, Take(size, hint));
    SameClass(size);
  }

  lemma NoneAtFirst(c: nat)
    requires c < FREE_LISTS
    ensures After([]).heap.free[c] == [] && Count(After([]).held, c) == 0
  {
  }

  /** The most blocks of class c that were held at a time. */
  function Peak(requests: seq<Request>, c: nat): nat {
    if requests == [] then 0
    else Max(Peak(requests[..|requests| - 1], c), Count(After(requests).held, c))
  }

  /** The pool never has more than 19 blocks of a class beyond what was held at one time. */
  lemma {:induction false} NeverFarBeyondPeak(requests: seq<Request>, c: nat)
    requires c < FREE_LISTS
    ensures var s := After(requests);
            |s.heap.free[c]| + Count(s.held, c) <= Peak(requests, c) + 19 && Count(s.held, c) <= Peak(requests, c)
    ensures Peak(requests, c) == 0 ==> After(requests).heap.free[c] == []
  {
    hide Next, Count;
    if requests == [] {
      NoneAtFirst(c);
    } else {
      var n := |requests| - 1;
      NeverFarBeyondPeak(requests[..n], c);
      ClassStep(After(requests[..n]), requests[n], c);
    }
  }

  /** The request has nothing to do with the block at that address. */
  predicate Spares(s: Program, r: Request, addr: nat) {
    match r
    case Take(_, _) => true
    case Return(k) => k < |s.held| ==> s.held[k].addr != addr
    case Put(k, _, _) => k < |s.held| ==> s.held[k].addr != addr
  }

  lemma {:induction false} BlockStays(s: Program, r: Request, b: Block)
    requires Sound(s) && b in s.held && Spares(s, r, b.addr)
    ensures b in Next(s, r).held
  {
    hide Taken;
    var i :| 0 <= i < |s.held| && s.held[i] == b;
    if r.Return? && r.k < |s.held| {
      assert Without(s.held, r.k)[if i < r.k then i else i - 1] == b;
    } else {
      assert Next(s, r).held[i] == b;
    }
  }

  /** A block that is held stays as it is until the program stores in it or returns it. */
  lemma {:induction false} BlocksStay(base: seq<Request>, mid: seq<Request>, b: Block)
    requires b in After(base).held
    requires forall n :: 0 <= n < |mid| ==> Spares(After(base + mid[..n]), mid[n], b.addr)
    ensures b in After(base + mid).held
  {
    hide Next, Spares, After;
    if mid == [] {
      assert base + mid == base;
    } else {
      var n := |mid| - 1;
      forall i | 0 <= i < n
        ensures Spares(After(base + mid[..n][..i]), mid[..n][i], b.addr)
      {
        assert mid[..n][..i] == mid[..i];
      }
      BlocksStay(base, mid[..n], b);
      assert base + mid == base + mid[..n] + [mid[n]];
      AfterOne(base + mid[..n], mid[n]);
      BlockStays(After(base + mid[..n]), mid[n], b);
    }
  }

  /** A word that is stored in a block is in it from then on, until the program stores in
      the block again or returns it. */
  lemma {:induction false} StoredStays(before: seq<Request>, k: nat, w: nat, v: nat, mid: seq<Request>)
    requires k < |After(before).held| && 8 * (w + 1) <= Align(After(before).held[k].size)
    requires forall n :: 0 <= n < |mid| ==>
               Spares(After(before + [Put(k, w, v)] + mid[..n]), mid[n], After(before).held[k].addr)
    ensures var b := After(before).held[k]; b.(words := b.words[w := v]) in After(before + [Put(k, w, v)] + mid).held
  {
    AfterOne(before, Put(k, w, v));
    var b := After(before).held[k];
    assert After(before + [Put(k, w, v)]).held[k] == b.(words := b.words[w := v]);
    BlocksStay(before + [Put(k, w, v)], mid, b.(words := b.words[w := v]));
  }

  // What the program holds is its own.

  /** The live regions are just the blocks held by the program: block i is region js[i]. */
  ghost predicate Held(regions: seq<Region>, held: seq<Block>, js: seq<nat>) {
    && |js| == |held|
    && (forall i :: 0 <= i < |held| ==>
          && js[i] < |regions| && regions[js[i]].kind == Live
          && regions[js[i]].addr == held[i].addr && regions[js[i]].size == Align(held[i].size)
          && 0 < held[i].size <= MAX_BYTES)
    && (forall i, k :: 0 <= i < k < |held| ==> js[i] != js[k])
    && (forall j :: 0 <= j < |regions| && regions[j].kind == Live ==> j in js)
  }

  lemma {:induction false} HeldApart(regions: seq<Region>, chunks: seq<Chunk>, held: seq<Block>, js: seq<nat>)
    requires RegionsOk(regions, chunks) && Held(regions, held, js)
    ensures forall i, k :: 0 <= i < k < |held| ==> Apart(held[i].addr, Align(held[i].size), held[k].addr, Align(held[k].size))
    ensures forall i :: 0 <= i < |held| ==> InAChunk(held[i], chunks)
  {
    forall i | 0 <= i < |held|
      ensures InAChunk(held[i], chunks)
    {
      assert Within(held[i].addr, held[i].size, chunks, regions[js[i]].chunk);
    }
  }

  ghost predicate InAChunk(b: Block, chunks: seq<Chunk>) {
    exists c :: Within(b.addr, b.size, chunks, c)
  }

  /** The bytes of the blocks held. */
  function HeldBytes(held: seq<Block>): nat {
    if held == [] then 0 else HeldBytes(held[..|held| - 1]) + Align(held[|held| - 1].size)
  }

  /** A live region fewer is so many bytes in use fewer. */
  lemma {:induction false} HeldIsInUse(regions: seq<Region>, held: seq<Block>, js: seq<nat>)
    requires Held(regions, held, js)
    ensures HeldBytes(held) == BytesIn(regions, InUse)
    decreases |held|
  {
    hide BytesIn;
    if held == [] {
      NoneInUse(regions);
    } else {
      var n := |held| - 1;
      HoldLess(regions, held, js, n, Lost);
      assert Without(held, n) == held[..n] && Without(js, n) == js[..n];
      HeldIsInUse(regions[js[n] := regions[js[n]].(kind := Lost)], held[..n], js[..n]);
      BytesInAfter(regions, js[n], Lost, InUse);
    }
  }

  lemma {:induction false} NoneInUse(regions: seq<Region>)
    requires forall j :: 0 <= j < |regions| ==> regions[j].kind != Live
    ensures BytesIn(regions, InUse) == 0
  {
    if regions != [] {
      NoneInUse(regions[..|regions| - 1]);
    }
  }

  /** The memory of a pool whose blocks the program holds: every byte of its chunks is in a
      block that is held, on a free list, behind in an old chunk, or at the end of the last
      one; less than a block is left behind in each chunk but the last. No byte is lost. */
  lemma Accounts(pool: PoolAlloter, held: seq<Block>, js: seq<nat>)
    requires pool.Valid() && Held(pool.regions, held, js)
    ensures pool.poolStart <= pool.poolEnd
    ensures ChunkBytes(pool.chunks) == HeldBytes(held) + BytesIn(pool.regions, Recycled)
                                     + BytesIn(pool.regions, Abandoned) + (pool.poolEnd - pool.poolStart)
    ensures pool.chunks != [] ==> BytesIn(pool.regions, Abandoned) <= 248 * (|pool.chunks| - 1)
    ensures forall i, k :: 0 <= i < k < |held| ==> Apart(held[i].addr, Align(held[i].size), held[k].addr, Align(held[k].size))
    ensures ChunksOk(pool.chunks) && forall i :: 0 <= i < |held| ==> InAChunk(held[i], pool.chunks)
  {
    hide InAChunk, BytesIn, ChunkBytes, HeldBytes, AllListsOk, Unused;
    pool.Safe();
    HeldApart(pool.regions, pool.chunks, held, js);
    HeldIsInUse(pool.regions, held, js);
  }

  /** What the program stored in its blocks is there. */
  ghost predicate Written(mem: map<nat, nat>, held: seq<Block>) {
    forall i, w :: 0 <= i < |held| && w in held[i].words ==> WordIs(mem, held[i], w)
  }

  ghost predicate WordIs(mem: map<nat, nat>, b: Block, w: nat)
    requires w in b.words
  {
    && ALIGN * (w + 1) <= Align(b.size)
    && b.addr + ALIGN * w in mem && mem[b.addr + ALIGN * w] == b.words[w]
  }

  lemma {:induction false} WrittenStays(mem: map<nat, nat>, mem': map<nat, nat>, regions: seq<Region>,
                                        held: seq<Block>, js: seq<nat>)
    requires Held(regions, held, js) && Written(mem, held) && Untouched(mem, mem', regions)
    ensures Written(mem', held)
  {
    forall i, w | 0 <= i < |held| && w in held[i].words
      ensures WordIs(mem', held[i], w)
    {
      assert WordIs(mem, held[i], w);
      var r := regions[js[i]];
      assert r.addr <= held[i].addr + ALIGN * w < r.addr + r.size;
    }
  }

  lemma {:induction false} WrittenLess(mem: map<nat, nat>, held: seq<Block>, k: nat)
    requires Written(mem, held) && k < |held|
    ensures Written(mem, Without(held, k))
  {
  }

  lemma {:induction false} WrittenMore(mem: map<nat, nat>, held: seq<Block>, b: Block)
    requires Written(mem, held) && b.words == map[]
    ensures Written(mem, held + [b])
  {
  }

  lemma {:induction false} WordPut(mem: map<nat, nat>, held: seq<Block>, k: nat, w: nat, v: nat)
    requires Written(mem, held) && k < |held| && ALIGN * (w + 1) <= Align(held[k].size)
    requires forall i, j :: 0 <= i < j < |held| ==>
               Apart(held[i].addr, Align(held[i].size), held[j].addr, Align(held[j].size))
    ensures Written(mem[held[k].addr + ALIGN * w := v], held[k := held[k].(words := held[k].words[w := v])])
  {
    var mem', held' := mem[held[k].addr + ALIGN * w := v], held[k := held[k].(words := held[k].words[w := v])];
    forall i, u | 0 <= i < |held'| && u in held'[i].words
      ensures WordIs(mem', held'[i], u)
    {
      if i == k && u == w {
      } else {
        assert WordIs(mem, held[i], u);
        assert i < k ==> Apart(held[i].addr, Align(held[i].size), held[k].addr, Align(held[k].size));
        assert k < i ==> Apart(held[k].addr, Align(held[k].size), held[i].addr, Align(held[i].size));
      }
    }
  }

  /** The sizes of the blocks the program holds after the requests. */
  function Sizes(requests: seq<Request>): seq<nat> {
    if requests == [] then []
    else
      var before := Sizes(requests[..|requests| - 1]);
      match requests[|requests| - 1]
      case Take(size, _) => if 0 < size <= MAX_BYTES then before + [size] else before
      case Return(k) => if k < |before| then Without(before, k) else before
      case Put(_, _, _) => before
  }

  function SizesOf(held: seq<Block>): (sizes: seq<nat>)
    ensures |sizes| == |held| && forall i :: 0 <= i < |held| ==> sizes[i] == held[i].size
  {
    seq(|held|, i requires 0 <= i < |held| => held[i].size)
  }

  /** The pool is as the plain heap of the program says, and what was stored is there. */
  ghost predicate Shown(pool: PoolAlloter, s: Program, js: seq<nat>)
    reads pool
  {
    && pool.Valid() && pool.View() == s.heap
    && Held(pool.regions, s.held, js) && Written(pool.mem, s.held)
  }

  lemma {:induction false} SizesOn(s: Program, r: Request, sizes: seq<nat>)
    requires Sound(s) && SizesOf(s.held) == sizes
    ensures SizesOf(Next(s, r).held) ==
      match r
      case Take(size, _) => if 0 < size <= MAX_BYTES then sizes + [size] else sizes
      case Return(k) => if k < |sizes| then Without(sizes, k) else sizes
      case Put(_, _, _) => sizes
  {
    hide Taken;
  }

  lemma {:induction false} HeldSizes(requests: seq<Request>)
    ensures SizesOf(After(requests).held) == Sizes(requests)
  {
    if requests != [] {
      var init := requests[..|requests| - 1];
      HeldSizes(init);
      var s, r := After(init), requests[|requests| - 1];
      SizesOn(s, r, Sizes(init));
    }
  }

  /** The program takes a block, and stores nothing in it yet. */
  method TakeOne(pool: PoolAlloter, held: seq<Block>, chunks: seq<Chunk>, size: nat, hint: nat, ghost s: Program, ghost js: seq<nat>)
    returns (held': seq<Block>, chunks': seq<Chunk>, ghost js': seq<nat>)
    requires Sound(s) && Shown(pool, s, js) && held == s.held && chunks == s.heap.chunks && 0 < size <= MAX_BYTES
    modifies pool
    ensures Shown(pool, Next(s, Take(size, hint)), js')
    ensures held' == Next(s, Take(size, hint)).held && chunks' == Next(s, Take(size, hint)).heap.chunks
  {
    hide PoolAlloter.PoolOk, AllListsOk, Held, Written, Untouched, Taken, AllAddrs;
    var n := Align(size) * ADD_NODES;
    var sys := SystemAt(chunks, hint, n);
    var before := |pool.mallocVec|;
    ghost var was, mem := pool.regions, pool.mem;
    AsManyChunks(pool);
    ghost var j;
    var p;
    p, j := pool.Malloc(size, sys);
    AsManyChunks(pool);
    chunks' := if before < |pool.mallocVec| then chunks + [Chunk(sys, n)] else chunks;
    TakenChunks(s.heap, Align(size), sys);
    WrittenStays(mem, pool.mem, was, held, js);
    WrittenMore(pool.mem, held, Block(p, size, map[]));
    HoldMore(was, pool.regions, held, js, Block(p, size, map[]), j);
    held' := held + [Block(p, size, map[])];
    js' := js + [j];
  }

  lemma AsManyChunks(pool: PoolAlloter)
    requires pool.PoolOk()
    ensures |pool.mallocVec| == |pool.chunks|
  {
  }

  lemma {:induction false} TakenChunks(h: Heap, size: nat, sys: nat)
    requires 0 < size <= MAX_BYTES && |h.free| == FREE_LISTS
    ensures var t := Taken(h, size, sys).0; t.chunks == h.chunks || t.chunks == h.chunks + [Chunk(sys, size * ADD_NODES)]
  {
  }

  method ReturnOne(pool: PoolAlloter, held: seq<Block>, k: nat, ghost s: Program, ghost js: seq<nat>)
    returns (held': seq<Block>, ghost js': seq<nat>)
    requires Sound(s) && Shown(pool, s, js) && held == s.held && k < |held|
    modifies pool
    ensures Shown(pool, Next(s, Return(k)), js') && held' == Next(s, Return(k)).held
  {
    hide PoolAlloter.PoolOk, AllListsOk, Held, Written, Untouched, AllAddrs;
    ghost var was, mem := pool.regions, pool.mem;
    HeldAt(was, held, js, k);
    pool.NotNull(js[k]);
    HoldLess(was, held, js, k, Node(FreeListIndex(held[k].size)));
    pool.Free(held[k].addr, held[k].size, js[k]);
    held' := Without(held, k);
    js' := Without(js, k);
    WrittenLess(mem, held, k);
    WrittenStays(mem, pool.mem, pool.regions, held', js');
  }

  method PutOne(pool: PoolAlloter, held: seq<Block>, k: nat, w: nat, v: nat, ghost s: Program, ghost js: seq<nat>)
    returns (held': seq<Block>)
    requires Sound(s) && Shown(pool, s, js) && held == s.held && k < |held| && ALIGN * (w + 1) <= Align(held[k].size)
    modifies pool
    ensures Shown(pool, Next(s, Put(k, w, v)), js) && held' == Next(s, Put(k, w, v)).held
  {
    hide AllListsOk, Written, AllAddrs, ChunksOk, Unused;
    HeldAt(pool.regions, held, js, k);
    HeldApart(pool.regions, pool.chunks, held, js);
    WordPut(pool.mem, held, k, w, v);
    pool.Store(held[k].addr + ALIGN * w, v, js[k]);
    held' := held[k := held[k].(words := held[k].words[w := v])];
  }

  method Do(pool: PoolAlloter, held: seq<Block>, chunks: seq<Chunk>, r: Request, ghost s: Program, ghost js: seq<nat>)
    returns (held': seq<Block>, chunks': seq<Chunk>, ghost js': seq<nat>)
    requires Sound(s) && Shown(pool, s, js) && held == s.held && chunks == s.heap.chunks
    modifies pool
    ensures Shown(pool, Next(s, r), js') && held' == Next(s, r).held && chunks' == Next(s, r).heap.chunks
  {
    hide Shown, Taken;
    held', chunks', js' := held, chunks, js;
    match r
    case Take(size, hint) =>
      if 0 < size <= MAX_BYTES {
        held', chunks', js' := TakeOne(pool, held, chunks, size, hint, s, js);
      }
    case Return(k) =>
      if k < |held| {
        held', js' := ReturnOne(pool, held, k, s, js);
      }
    case Put(k, w, v) =>
      if k < |held| && ALIGN * (w + 1) <= Align(held[k].size) {
        held' := PutOne(pool, held, k, w, v, s, js);
      }
  }

  /** Every small request is served, over every run of requests, wherever the chunks are:
      the program holds a block for each size it asked for and did not return, with all it
      stored there, the pool's live regions are just those, and the pool is the plain heap
      that After says. */
  method Run(requests: seq<Request>) returns (pool: PoolAlloter, held: seq<Block>, chunks: seq<Chunk>, ghost js: seq<nat>)
    ensures fresh(pool) && pool.Valid() && pool.View() == After(requests).heap
    ensures pool.chunks == chunks && held == After(requests).held && SizesOf(held) == Sizes(requests)
    ensures Held(pool.regions, held, js) && Written(pool.mem, held)
  {
    hide PoolAlloter.Valid, Held, Written, Next;
    pool := new PoolAlloter();
    held, chunks, js := [], [], [];
    NoneHeld(pool.regions, pool.mem);
    for i := 0 to |requests|
      invariant fresh(pool) && Shown(pool, After(requests[..i]), js)
      invariant held == After(requests[..i]).held && chunks == After(requests[..i]).heap.chunks
    {
      assert requests[..i + 1][..i] == requests[..i];
      held, chunks, js := Do(pool, held, chunks, requests[i], After(requests[..i]), js);
    }
    assert requests[..|requests|] == requests;
    HeldSizes(requests);
  }

  /** What the program sees of such a run: the blocks, none overlapping another, each in a
      chunk of the system's, and all of them together no more than the chunks. */
  method Serve(requests: seq<Request>) returns (held: seq<Block>, chunks: seq<Chunk>)
    ensures SizesOf(held) == Sizes(requests)
    ensures forall i, k :: 0 <= i < k < |held| ==> Apart(held[i].addr, Align(held[i].size), held[k].addr, Align(held[k].size))
    ensures forall i :: 0 <= i < |held| ==> InAChunk(held[i], chunks)
    ensures ChunksOk(chunks) && HeldBytes(held) <= ChunkBytes(chunks)
  {
    hide PoolAlloter.Valid, PoolAlloter.View, Held, InAChunk, ChunksOk, BytesIn, ChunkBytes, HeldBytes, Sizes, After, Written;
    var pool;
    ghost var js;
    pool, held, chunks, js := Run(requests);
    Accounts(pool, held, js);
  }

  lemma NoneHeld(regions: seq<Region>, mem: map<nat, nat>)
    requires regions == []
    ensures Held(regions, [], []) && Written(mem, [])
  {
  }

  lemma {:induction false} HeldAt(regions: seq<Region>, held: seq<Block>, js: seq<nat>, k: nat)
    requires Held(regions, held, js) && k < |held|
    ensures |js| == |held| && js[k] < |regions| && regions[js[k]].kind == Live
    ensures regions[js[k]].addr == held[k].addr && regions[js[k]].size == Align(held[k].size) && 0 < held[k].size <= MAX_BYTES
  {
  }

  lemma {:induction false} HoldMore(regions: seq<Region>, regions': seq<Region>, held: seq<Block>, js: seq<nat>, b: Block, j: nat)
    requires Held(regions, held, js) && |regions| <= |regions'|
    requires j < |regions'| && regions'[j].kind == Live && regions'[j].addr == b.addr && regions'[j].size == Align(b.size)
    requires 0 < b.size <= MAX_BYTES && (j < |regions| ==> regions[j].kind != Live)
    requires forall i :: 0 <= i < |regions| && i != j ==> regions'[i] == regions[i]
    requires forall i :: |regions| <= i < |regions'| && i != j ==> regions'[i].kind != Live
    ensures Held(regions', held + [b], js + [j])
  {
  }

  lemma {:induction false} HoldLess(regions: seq<Region>, held: seq<Block>, js: seq<nat>, k: nat, kind: Kind)
    requires Held(regions, held, js) && k < |held| && kind != Live
    ensures |js| == |held| && js[k] < |regions|
    ensures Held(regions[js[k] := regions[js[k]].(kind := kind)], Without(held, k), Without(js, k))
  {
    hide Without;
    var regions', js' := regions[js[k] := regions[js[k]].(kind := kind)], Without(js, k);
    forall j | 0 <= j < |regions'| && regions'[j].kind == Live
      ensures j in js'
    {
      var i :| 0 <= i < |js| && js[i] == j;
      assert js'[if i < k then i else i - 1] == j;
    }
  }

}
