// automem.c: a buffer that grows by doubling. The sizes are those of a run that does not
// exceed 32 bits, which Doubled says exactly.

module Automems {
  import opened Basics
  import opened Bytes

  /** The first of b, 2 * b, 4 * b... that is at least `need`. */
  function Doubled(b: nat, need: nat): (r: nat)
    requires b > 0 || need == 0
    ensures r >= need && r >= b && (r == b || r < 2 * need)
    decreases need - b
  {
    if b >= need then b else Doubled(2 * b, need)
  }

  /** The capacity for `len` more bytes: at least doubled, unless the buffer was empty. */
  function Wanted(capacity: nat, size: nat, len: nat): (r: nat)
    requires size <= capacity
    ensures r >= size + len && r >= capacity
    ensures r > capacity ==> r < 2 * (size + len) && (size > 0 ==> r >= 2 * capacity)
  {
    var b := Max(capacity, len);
    if b == 0 then 0 else Doubled(b, size + len)
  }

  function Pow2(k: nat): nat {
    if k == 0 then 1 else 2 * Pow2(k - 1)
  }

  /** b doubled just as often as it has to be. */
  lemma {:induction false} DoubledTimes(b: nat, need: nat) returns (k: nat)
    requires b > 0
    ensures Doubled(b, need) == b * Pow2(k) && (k > 0 ==> b * Pow2(k - 1) < need)
    decreases need - b
  {
    if b >= need {
      k := 0;
    } else {
      var more := DoubledTimes(2 * b, need);
      k := more + 1;
      DoubledOnce(b, more);
      if more > 0 { DoubledOnce(b, more - 1); }
    }
  }

  lemma {:induction false} DoubledOnce(b: nat, k: nat)
    ensures b * Pow2(k + 1) == 2 * b * Pow2(k)
  {
  }

  /** A result of 32-bit arithmetic. */
  function Wrapped(x: int): nat {
    x % WRAP
  }

  lemma {:induction false} NotWrapped(x: int)
    ensures 0 <= x < WRAP ==> Wrapped(x) == x
  {
  }

  /** Doubling b comes to w. */
  ghost predicate Halfway(b: nat, need: nat, w: nat) {
    if b == 0 then w == need == 0 else w == Doubled(b, need)
  }

  lemma {:induction false} WantedFrom(capacity: nat, size: nat, len: nat)
    requires size <= capacity
    ensures Halfway(Max(capacity, len), size + len, Wanted(capacity, size, len))
  {
  }

  lemma {:induction false} OnceMore(b: nat, need: nat, w: nat)
    requires Halfway(b, need, w) && b < need
    ensures 0 < b && 2 * b <= w && Halfway(2 * b, need, w)
  {
  }

  lemma {:induction false} Enough(b: nat, need: nat, w: nat)
    requires Halfway(b, need, w) && need <= b
    ensures b == w
  {
  }

  /** The sizes fit in 32 bits whenever the contents take up at most half of that. */
  lemma {:induction false} HalfIsEnough(capacity: nat, size: nat, len: nat)
    requires size <= capacity < WRAP && size + len <= WRAP / 2
    ensures Wanted(capacity, size, len) < WRAP
  {
  }

  class Automem {
    var size: nat
    var buffersize: nat
    var pdata: array?<Byte>
    var moved: nat            // the live bytes all reallocs have moved

    ghost predicate Valid()
      reads this
    {
      && size <= buffersize < WRAP
      && (if pdata == null then buffersize == 0 else buffersize == pdata.Length > 0)
    }

    ghost function Contents(): (s: seq<Byte>)
      requires Valid()
      reads this, pdata
      ensures |s| == size
    {
      if pdata == null then [] else pdata[..size]
    }

    constructor (initBufferSize: nat)
      requires initBufferSize < WRAP
      ensures Valid() && fresh(pdata) && Contents() == [] && moved == 0
      ensures buffersize == if initBufferSize == 0 then 128 else initBufferSize
    {
      size, moved := 0, 0;
      buffersize := if initBufferSize == 0 then 128 else initBufferSize;
      pdata := new Byte[if initBufferSize == 0 then 128 else initBufferSize];
    }

    method Init(initBufferSize: nat)
      requires initBufferSize < WRAP
      modifies this
      ensures Valid() && fresh(pdata) && Contents() == [] && moved == old(moved)
      ensures buffersize == if initBufferSize == 0 then 128 else initBufferSize
    {
      size := 0;
      buffersize := if initBufferSize == 0 then 128 else initBufferSize;
      pdata := new Byte[buffersize];
    }

    method Uninit()
      requires Valid()
      modifies this
      ensures Valid() && pdata == null && Contents() == [] && moved == old(moved)
    {
      if pdata != null {
        size, buffersize := 0, 0;
        pdata := null;
      }
    }

    method Clean(newsize: nat)
      requires Valid() && newsize < WRAP
      modifies this
      ensures Valid() && fresh(pdata) && Contents() == [] && moved == old(moved)
      ensures buffersize == if newsize == 0 then 128 else newsize
    {
      Uninit();
      Init(newsize);
    }

    method Reset()
      requires Valid()
      modifies `size
      ensures Valid() && Contents() == []
    {
      size := 0;
    }

    /** What the doubling of 32-bit numbers comes to. */
    method NewSize(len: nat) returns (newbuffersize: nat)
      requires Valid() && len < WRAP && Wanted(buffersize, size, len) < WRAP
      ensures newbuffersize == Wanted(buffersize, size, len)
    {
      hide Doubled, Wanted, Wrapped;
      WantedFrom(buffersize, size, len);
      newbuffersize := buffersize;
      if newbuffersize < len {
        newbuffersize := len;
      }
      while Wrapped(newbuffersize - size) < len
        invariant size <= newbuffersize < WRAP && Halfway(newbuffersize, size + len, Wanted(buffersize, size, len))
        decreases size + len - newbuffersize
      {
        NotWrapped(newbuffersize - size);
        OnceMore(newbuffersize, size + len, Wanted(buffersize, size, len));
        NotWrapped(newbuffersize * 2);
        newbuffersize := Wrapped(newbuffersize * 2);
      }
      NotWrapped(newbuffersize - size);
      Enough(newbuffersize, size + len, Wanted(buffersize, size, len));
    }

    /** Room for len more bytes; the contents stay, in place or moved. */
    method EnsureNewspace(len: nat)
      requires Valid() && len < WRAP && Wanted(buffersize, size, len) < WRAP
      modifies `buffersize, `pdata, `moved
      ensures Valid() && Contents() == old(Contents())
      ensures buffersize == Wanted(old(buffersize), size, len)
      ensures pdata == old(pdata) || (pdata != null && fresh(pdata))
      ensures moved == old(moved) + if buffersize > old(buffersize) then size else 0
    {
      var newbuffersize := NewSize(len);
      if newbuffersize > buffersize {
        var grown := new Byte[newbuffersize];
        if pdata != null {
          forall i | 0 <= i < size {
            grown[i] := pdata[i];
          }
          moved := moved + size;
        }
        pdata := grown;
        buffersize := newbuffersize;
      }
    }

    /** The offset of n more bytes at the end, whatever they are. */
    method Alloc(n: int) returns (at: Option<nat>)
      requires Valid() && n < WRAP && (n > 0 ==> Wanted(buffersize, size, n) < WRAP)
      modifies this
      ensures Valid() && (at == None <==> n <= 0)
      ensures n <= 0 ==> Contents() == old(Contents()) && buffersize == old(buffersize) && moved == old(moved)
      ensures n > 0 ==> at == Some(old(size)) && size == old(size) + n && Contents()[..old(size)] == old(Contents())
      ensures n > 0 ==> buffersize == Wanted(old(buffersize), old(size), n)
      ensures n > 0 ==> moved == old(moved) + if buffersize > old(buffersize) then old(size) else 0
      ensures pdata == old(pdata) || (pdata != null && fresh(pdata))
    {
      hide Wanted;
      at := None;
      if n > 0 {
        EnsureNewspace(n);
        at := Some(size);
        size := size + n;
      }
    }

    /** The caller stores p at the end of the buffer, where Alloc gave it room. */
    method Put(at: nat, p: seq<Byte>)
      requires Valid() && at + |p| == size
      modifies pdata
      ensures Valid() && Contents() == old(Contents())[..at] + p
    {
      if pdata != null {
        forall i | 0 <= i < |p| {
          pdata[at + i] := p[i];
        }
      }
    }

    method Append(p: seq<Byte>) returns (len: nat)
      requires Valid() && |p| < WRAP && Wanted(buffersize, size, |p|) < WRAP
      modifies this, pdata
      ensures Valid() && len == |p| && Contents() == old(Contents()) + p
      ensures buffersize == Wanted(old(buffersize), old(size), |p|)
      ensures pdata == old(pdata) || (pdata != null && fresh(pdata))
      ensures moved == old(moved) + if buffersize > old(buffersize) then old(size) else 0
    {
      hide Wanted;
      EnsureNewspace(|p|);
      if pdata != null {
        MemCpy(pdata, size, p);
      }
      size := size + |p|;
      return |p|;
    }

    method Get() returns (s: seq<Byte>)
      requires Valid()
      ensures s == Contents()
    {
      s := if pdata == null then [] else pdata[..size];
    }

    /** Drop the first bytes, or all there are. */
    method Erase(n: nat) returns (left: nat)
      requires Valid()
      modifies this, pdata
      ensures Valid() && buffersize == old(buffersize) && pdata == old(pdata) && moved == old(moved)
      ensures Contents() == Dropped(old(Contents()), n) && left == size
    {
      if n < size {
        Shift(n, size - n);
        size := size - n;
      } else {
        size := 0;
      }
      return size;
    }

    /** memmove to the start of the buffer. */
    method Shift(from: nat, n: nat)
      requires Valid() && from + n <= size && n > 0
      modifies pdata
      ensures pdata[..n] == old(pdata[from..from + n])
    {
      forall i | 0 <= i < n {
        pdata[i] := pdata[from + i];
      }
    }

    /** The same, and a buffer with more than `limit` bytes to spare is given back. */
    method EraseEx(n: nat, limit: nat) returns (left: nat)
      requires Valid() && limit < WRAP && (n < size ==> size - n + limit < WRAP)
      modifies this, pdata
      ensures Valid() && Contents() == Dropped(old(Contents()), n) && left == size && moved == old(moved)
      ensures n < old(size) ==> buffersize == Min(old(buffersize), size + limit)
      ensures n >= old(size) && old(buffersize) <= limit ==> buffersize == old(buffersize)
      ensures n >= old(size) && old(buffersize) > limit ==> buffersize == if limit == 0 then 128 else limit
      ensures pdata == old(pdata) || (pdata != null && fresh(pdata))
    {
      if n < size {
        var newsize := size - n;
        if buffersize > newsize + limit {
          var buffer := new Byte[newsize + limit];
          forall i | 0 <= i < newsize {
            buffer[i] := pdata[n + i];
          }
          pdata := buffer;
          size := newsize;
          buffersize := newsize + limit;
        } else {
          Shift(n, newsize);
          size := newsize;
        }
      } else {
        size := 0;
        if buffersize > limit {
          Uninit();
          Init(limit);
        }
      }
      return size;
    }
  }

  function Dropped(s: seq<Byte>, n: nat): (r: seq<Byte>)
    ensures if n <= |s| then s == s[..n] + r else r == []
  {
    if n < |s| then s[n..] else []
  }

  // Whole runs.

  datatype Op =
    | Append(p: seq<Byte>)
    | Erase(n: nat)
    | EraseEx(n: nat, limit: nat)
    | Reset
    | Clean(newsize: nat)
    | Uninit
    | Alloc(len: int, p: seq<Byte>)   // the caller stores p where the pointer it gets points

  function Asked(n: int): nat {
    if n > 0 then n else 0
  }

  datatype State = State(contents: seq<Byte>, capacity: nat, moved: nat)

  function First(initBufferSize: nat): (s: State) {
    State([], if initBufferSize == 0 then 128 else initBufferSize, 0)
  }

  /** The op, without overflow of the 32-bit sizes. */
  ghost predicate Fits(s: State, op: Op) {
    |s.contents| <= s.capacity < WRAP &&
    match op
    case Append(p) => |p| < WRAP && Wanted(s.capacity, |s.contents|, |p|) < WRAP
    case EraseEx(n, limit) => limit < WRAP && (n < |s.contents| ==> |s.contents| - n + limit < WRAP)
    case Alloc(n, p) => |p| == Asked(n) < WRAP && (n > 0 ==> Wanted(s.capacity, |s.contents|, n) < WRAP)
    case Clean(newsize) => newsize < WRAP
    case _ => true
  }

  ghost function Added(s: State, p: seq<Byte>): State
    requires |s.contents| <= s.capacity
  {
    var w := Wanted(s.capacity, |s.contents|, |p|);
    State(s.contents + p, w, s.moved + if w > s.capacity then |s.contents| else 0)
  }

  ghost function Step(s: State, op: Op): State
    requires Fits(s, op)
  {
    match op
    case Append(p) => Added(s, p)
    case Alloc(n, p) => if n > 0 then Added(s, p) else s
    case Erase(n) => s.(contents := Dropped(s.contents, n))
    case EraseEx(n, limit) =>
      if n < |s.contents| then State(s.contents[n..], Min(s.capacity, |s.contents| - n + limit), s.moved)
      else if s.capacity <= limit then s.(contents := [])
      else First(limit).(moved := s.moved)
    case Reset => s.(contents := [])
    case Clean(newsize) => First(newsize).(moved := s.moved)
    case Uninit => State([], 0, s.moved)
  }

  ghost predicate AllFit(s: State, ops: seq<Op>)
    decreases |ops|
  {
    ops == [] || (Fits(s, ops[0]) && AllFit(Step(s, ops[0]), ops[1..]))
  }

  ghost function After(s: State, ops: seq<Op>): State
    requires AllFit(s, ops)
    decreases |ops|
  {
    if ops == [] then s else After(Step(s, ops[0]), ops[1..])
  }

  method Call(a: Automem, op: Op, ghost s: State)
    requires a.Valid() && s == State(a.Contents(), a.buffersize, a.moved) && Fits(s, op)
    modifies a, a.pdata
    ensures a.Valid() && State(a.Contents(), a.buffersize, a.moved) == Step(s, op)
    ensures a.pdata == null || a.pdata == old(a.pdata) || fresh(a.pdata)
  {
    hide Wanted;
    match op {
      case Append(p) =>
        var _ := a.Append(p);
      case Erase(n) =>
        var _ := a.Erase(n);
      case EraseEx(n, limit) =>
        var _ := a.EraseEx(n, limit);
      case Reset =>
        a.Reset();
      case Clean(newsize) =>
        a.Clean(newsize);
      case Uninit =>
        a.Uninit();
      case Alloc(n, p) =>
        var at := a.Alloc(n);
        if at.Some? {
          a.Put(at.value, p);
        }
    }
  }

  /** Any run of calls leaves what they leave of a plain sequence. */
  method Run(initBufferSize: nat, ops: seq<Op>) returns (contents: seq<Byte>, capacity: nat, moved: nat)
    requires initBufferSize < WRAP && AllFit(First(initBufferSize), ops)
    ensures State(contents, capacity, moved) == After(First(initBufferSize), ops)
  {
    hide Step, Fits, Automem.Valid;
    var a := new Automem(initBufferSize);
    ghost var s := First(initBufferSize);
    for i := 0 to |ops|
      invariant a.Valid() && fresh(a) && (a.pdata != null ==> fresh(a.pdata))
      invariant s == State(a.Contents(), a.buffersize, a.moved)
      invariant AllFit(s, ops[i..]) && After(s, ops[i..]) == After(First(initBufferSize), ops)
    {
      assert ops[i..][1..] == ops[i + 1..];
      Call(a, ops[i], s);
      s := Step(s, ops[i]);
    }
    contents := a.Get();
    capacity, moved := a.buffersize, a.moved;
  }

  /** Once the buffer has grown the bytes moved are no more than it holds, and it holds
      less than twice the contents. */
  ghost predicate Amortised(c0: nat, s: State) {
    (s.capacity == c0 && s.moved == 0) || (s.moved <= s.capacity < 2 * |s.contents|)
  }

  lemma {:induction false} AppendAmortised(c0: nat, s: State, p: seq<Byte>)
    requires Fits(s, Append(p)) && Amortised(c0, s)
    ensures Amortised(c0, Step(s, Append(p)))
  {
  }

  /** The bytes of all the appends. */
  ghost function Appended(ops: seq<Op>): seq<Byte>
    requires forall i :: 0 <= i < |ops| ==> ops[i].Append?
  {
    if ops == [] then [] else ops[0].p + Appended(ops[1..])
  }

  /** In a run of appends the capacity stays the first one or is less than twice the
      contents, and all the reallocs together move less than twice the bytes appended. */
  lemma {:induction false} AppendsAmortised(c0: nat, s: State, ops: seq<Op>)
    requires AllFit(s, ops) && Amortised(c0, s) && forall i :: 0 <= i < |ops| ==> ops[i].Append?
    ensures Amortised(c0, After(s, ops)) && After(s, ops).contents == s.contents + Appended(ops)
    ensures After(s, ops).capacity <= Max(c0, 2 * |After(s, ops).contents|)
    ensures After(s, ops).contents != [] ==> After(s, ops).moved < 2 * |After(s, ops).contents|
    decreases |ops|
  {
    hide Fits, Wanted;
    if ops != [] {
      AppendAmortised(c0, s, ops[0].p);
      AppendsAmortised(c0, Step(s, ops[0]), ops[1..]);
    }
  }

  /** How many bytes the calls add. */
  function BytesAdded(ops: seq<Op>): nat {
    if ops == [] then 0
    else
      BytesAdded(ops[1..]) +
      match ops[0]
      case Append(p) => |p|
      case Alloc(n, _) => Asked(n)
      case _ => 0
  }

  /** Arguments of a sensible size. */
  predicate Modest(op: Op) {
    match op
    case EraseEx(_, limit) => limit < WRAP / 2
    case Clean(newsize) => newsize < WRAP
    case Alloc(n, p) => |p| == Asked(n)
    case _ => true
  }

  /** No size leaves the 32 bits in a run that adds at most half as many bytes as they can
      count. */
  lemma {:induction false} ModestFits(s: State, ops: seq<Op>)
    requires |s.contents| <= s.capacity < 0x1_0000_0000 && |s.contents| + BytesAdded(ops) <= 0x8000_0000
    requires forall i :: 0 <= i < |ops| ==> Modest(ops[i])
    ensures AllFit(s, ops)
    decreases |ops|
  {
    hide Wanted;
    if ops != [] {
      ModestOne(s, ops[0], BytesAdded(ops[1..]));
      ModestFits(Step(s, ops[0]), ops[1..]);
    }
  }

  lemma {:induction false} ModestOne(s: State, op: Op, more: nat)
    requires |s.contents| <= s.capacity < WRAP && Modest(op)
    requires |s.contents| + BytesAdded([op]) + more <= WRAP / 2
    ensures Fits(s, op)
    ensures |Step(s, op).contents| <= Step(s, op).capacity < WRAP && |Step(s, op).contents| + more <= WRAP / 2
  {
    hide Wanted;
    HalfIsEnough(s.capacity, |s.contents|, BytesAdded([op]));
  }

  /** So a run of appends is amortised whenever they add up to at most 2^31 bytes. */
  lemma {:induction false} AppendsWithin(initBufferSize: nat, ops: seq<Op>)
    requires initBufferSize < 0x1_0000_0000 && forall i :: 0 <= i < |ops| ==> ops[i].Append?
    requires |Appended(ops)| <= 0x8000_0000
    ensures AllFit(First(initBufferSize), ops)
    ensures var s := After(First(initBufferSize), ops);
      && s.contents == Appended(ops)
      && s.capacity <= Max(First(initBufferSize).capacity, 2 * |s.contents|)
      && (s.contents != [] ==> s.moved < 2 * |s.contents|)
  {
    hide AllFit, After, Appended, BytesAdded;
    AppendedBytes(ops);
    ModestFits(First(initBufferSize), ops);
    AppendsAmortised(First(initBufferSize).capacity, First(initBufferSize), ops);
  }

  lemma {:induction false} AppendedBytes(ops: seq<Op>)
    requires forall i :: 0 <= i < |ops| ==> ops[i].Append?
    ensures |Appended(ops)| == BytesAdded(ops)
  {
    if ops != [] {
      AppendedBytes(ops[1..]);
    }
  }
}
