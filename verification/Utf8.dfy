// ldbcs.h: the encoding of codes of up to 31 bits in one to six bytes, as in section 2
// of RFC 2279.

module Utf8 {
  /** The cast to char. */
  function Char(x: bv32): bv8 {
    (x & 0xFF) as bv8
  }

  function Cont(x: bv32): bv8 {
    Char((x | 0x80) & 0xBF)
  }

  /** ch >> 6 * n. */
  function Top(ch: bv32, n: nat): bv32
    requires n <= 5
  {
    if n == 0 then ch
    else if n == 1 then ch >> 6
    else if n == 2 then ch >> 12
    else if n == 3 then ch >> 18
    else if n == 4 then ch >> 24
    else ch >> 30
  }

  /** A first byte: the bits of x marked with those of m. */
  function Mark(x: bv32, m: bv32): bv8 {
    Char(x | m)
  }

  /** The bytes utf8_encode writes. */
  function Encoded(ch: bv32): (r: seq<bv8>)
    ensures 1 <= |r| <= 6
  {
    if ch < 0x80 then [Char(ch)]
    else if ch <= 0x7FF then [Mark(Top(ch, 1), 0xC0), Cont(ch)]
    else if ch <= 0xFFFF then Three(ch)
    else if ch <= 0x1FFFFF then [Mark(Top(ch, 3), 0xF0), Cont(Top(ch, 2)), Cont(Top(ch, 1)), Cont(ch)]
    else if ch <= 0x3FFFFFF then
      [Mark(Top(ch, 4), 0xF8), Cont(Top(ch, 3)), Cont(Top(ch, 2)), Cont(Top(ch, 1)), Cont(ch)]
    else if ch <= 0x7FFFFFFF then
      [Mark(Top(ch, 5), 0xFC), Cont(Top(ch, 4)), Cont(Top(ch, 3)), Cont(Top(ch, 2)), Cont(Top(ch, 1)), Cont(ch)]
    else Three(0xFFFD)
  }

  function Three(ch: bv32): seq<bv8> {
    [Mark(Top(ch, 2), 0xE0), Cont(Top(ch, 1)), Cont(ch)]
  }

  predicate IsCont(b: bv8) {
    b & 0xC0 == 0x80
  }

  /** The continuation bytes that a first byte announces. */
  function Announced(lead: bv8): nat {
    if lead < 0xC0 then 0
    else if lead < 0xE0 then 1
    else if lead < 0xF0 then 2
    else if lead < 0xF8 then 3
    else if lead < 0xFC then 4
    else if lead < 0xFE then 5
    else if lead < 0xFF then 6
    else 7
  }

  /** How many of the first k bytes of b are continuation bytes, up to one that is not. */
  function Conts(b: seq<bv8>, k: nat): (n: nat)
    ensures n <= k && n <= |b|
    ensures forall i :: 0 <= i < n ==> IsCont(b[i])
    ensures n < k && n < |b| ==> !IsCont(b[n])
  {
    if k == 0 || b == [] || !IsCont(b[0]) then 0 else 1 + Conts(b[1..], k - 1)
  }

  /** The bits of the first byte that belong to the code. */
  function Payload(lead: bv8): bv32 {
    match Announced(lead)
    case 1 => (lead & 0x1F) as bv32
    case 2 => (lead & 0x0F) as bv32
    case 3 => (lead & 0x07) as bv32
    case 4 => (lead & 0x03) as bv32
    case 5 => (lead & 0x01) as bv32
    case _ => lead as bv32
  }

  /** The low six bits of a byte appended to those in acc. */
  function Append(acc: bv32, b: bv8): bv32 {
    (acc << 6) | ((b & 0x3F) as bv32)
  }

  /** The bits of the bytes appended to those in acc, six of each. */
  function Join(acc: bv32, b: seq<bv8>): bv32
    decreases |b|
  {
    if b == [] then acc else Append(Join(acc, b[..|b| - 1]), b[|b| - 1])
  }

  function Twice(x: bv32): bv32 {
    x << 1
  }

  function Shifted(lead: bv32, k: nat): bv32 {
    if k == 0 then lead else Twice(Shifted(lead, k - 1))
  }

  datatype Code = Code(ch: bv32, size: nat)

  /** The bytes begin with a first byte and as many continuation bytes as it announces. */
  predicate Whole(b: seq<bv8>) {
    b != [] && 0 < Announced(b[0]) <= 5 && Conts(b[1..], Announced(b[0])) == Announced(b[0])
  }

  /** The code at the start of b: if the bytes are not whole, the first byte alone, shifted
      once for each continuation byte the loop for long forms has read. */
  function First(b: seq<bv8>): (c: Code)
    ensures c.size <= |b| && (b != [] ==> 1 <= c.size)
  {
    if b == [] then Code(0, 0)
    else
      var n := Announced(b[0]);
      if Whole(b) then Code(Join(Payload(b[0]), b[1..n + 1]), n + 1)
      else if n < 3 then Code(b[0] as bv32, 1)
      else Code(Shifted(b[0] as bv32, Conts(b[1..], n)), 1)
  }

  /** The codes of the bytes, one after another. */
  function Codes(b: seq<bv8>): seq<bv32> {
    if b == [] then [] else [First(b).ch] + Codes(b[First(b).size..])
  }

  function EncodedAll(codes: seq<bv32>): seq<bv8> {
    if codes == [] then [] else Encoded(codes[0]) + EncodedAll(codes[1..])
  }

  lemma {:induction false} JoinOne(acc: bv32, b: seq<bv8>, x: bv8)
    ensures Join(acc, b + [x]) == Append(Join(acc, b), x)
  {
  }

  function Down(ch: bv32): bv32 {
    ch >> 6
  }

  lemma {:induction false} Down12(ch: bv32)
    ensures Down(ch) >> 6 == ch >> 12
  {
  }

  lemma {:induction false} Down18(ch: bv32)
    ensures Down(ch) >> 12 == ch >> 18
  {
  }

  lemma {:induction false} Down24(ch: bv32)
    ensures Down(ch) >> 18 == ch >> 24
  {
  }

  lemma {:induction false} Down30(ch: bv32)
    ensures Down(ch) >> 24 == ch >> 30
  {
  }

  lemma {:induction false} TopLess(ch: bv32, n: nat)
    requires 0 < n <= 5
    ensures Top(Down(ch), n - 1) == Top(ch, n)
  {
    if n == 2 {
      Down12(ch);
    } else if n == 3 {
      Down18(ch);
    } else if n == 4 {
      Down24(ch);
    } else if n == 5 {
      Down30(ch);
    }
  }

  /** The last n continuation bytes of a code. */
  function Tail(ch: bv32, n: nat): seq<bv8>
    requires n <= 5
  {
    seq(n, i requires 0 <= i < n => Cont(Top(ch, n - 1 - i)))
  }

  lemma {:induction false} ContBits(ch: bv32)
    ensures Append(Down(ch), Cont(ch)) == ch
  {
  }

  /** Joining them to those bits gives the code. */
  lemma {:induction false} JoinTail(ch: bv32, n: nat)
    requires n <= 5
    ensures Join(Top(ch, n), Tail(ch, n)) == ch
    decreases n
  {
    hide Cont, Top, Join, Tail, Append, Down;
    TopNone(ch);
    if n > 0 {
      TopLess(ch, n);
      TailLess(ch, n);
      JoinTail(Down(ch), n - 1);
      JoinOne(Top(ch, n), Tail(Down(ch), n - 1), Cont(ch));
      ContBits(ch);
    }
  }

  lemma {:induction false} TopNone(ch: bv32)
    ensures Top(ch, 0) == ch && Join(ch, []) == ch && Tail(ch, 0) == []
  {
  }

  lemma {:induction false} TailLess(ch: bv32, n: nat)
    requires 0 < n <= 5
    ensures Tail(ch, n) == Tail(Down(ch), n - 1) + [Cont(ch)]
  {
    hide Cont, Top, Down;
    TopNone(ch);
    forall i: nat | 0 < i <= n
      ensures Top(Down(ch), i - 1) == Top(ch, i)
    {
      TopLess(ch, i);
    }
  }

  predicate Le(x: bv32, y: bv32) {
    x <= y
  }

  /** The most that the first byte before n continuation bytes can hold. */
  function Full(n: nat): bv32 {
    match n
    case 1 => 0x1F
    case 2 => 0x0F
    case 3 => 0x07
    case 4 => 0x03
    case _ => 0x01
  }

  /** The greatest code that n continuation bytes can hold. */
  function Limit(n: nat): bv32 {
    match n
    case 1 => 0x7FF
    case 2 => 0xFFFF
    case 3 => 0x1FFFFF
    case 4 => 0x3FFFFFF
    case _ => 0x7FFFFFFF
  }

  /** The bits that mark it. */
  function Marker(n: nat): bv32 {
    match n
    case 1 => 0xC0
    case 2 => 0xE0
    case 3 => 0xF0
    case 4 => 0xF8
    case _ => 0xFC
  }

  lemma {:induction false} TopFits1(ch: bv32)
    requires ch <= 0x7FF
    ensures ch >> 6 <= 0x1F
  {
  }

  lemma {:induction false} MarkRead1(x: bv32)
    requires x <= 0x1F
    ensures Announced(Mark(x, 0xC0)) == 1 && Payload(Mark(x, 0xC0)) == x
  {
  }

  lemma {:induction false} TopFits2(ch: bv32)
    requires ch <= 0xFFFF
    ensures ch >> 12 <= 0x0F
  {
  }

  lemma {:induction false} MarkRead2(x: bv32)
    requires x <= 0x0F
    ensures Announced(Mark(x, 0xE0)) == 2 && Payload(Mark(x, 0xE0)) == x
  {
  }

  lemma {:induction false} TopFits3(ch: bv32)
    requires ch <= 0x1FFFFF
    ensures ch >> 18 <= 0x07
  {
  }

  lemma {:induction false} MarkRead3(x: bv32)
    requires x <= 0x07
    ensures Announced(Mark(x, 0xF0)) == 3 && Payload(Mark(x, 0xF0)) == x
  {
  }

  lemma {:induction false} TopFits4(ch: bv32)
    requires ch <= 0x3FFFFFF
    ensures ch >> 24 <= 0x03
  {
  }

  lemma {:induction false} MarkRead4(x: bv32)
    requires x <= 0x03
    ensures Announced(Mark(x, 0xF8)) == 4 && Payload(Mark(x, 0xF8)) == x
  {
  }

  lemma {:induction false} TopFits5(ch: bv32)
    requires ch <= 0x7FFFFFFF
    ensures ch >> 30 <= 0x01
  {
  }

  lemma {:induction false} MarkRead5(x: bv32)
    requires x <= 0x01
    ensures Announced(Mark(x, 0xFC)) == 5 && Payload(Mark(x, 0xFC)) == x
  {
  }

  lemma {:induction false} TopFits(ch: bv32, n: nat)
    requires 1 <= n <= 5 && Le(ch, Limit(n))
    ensures Le(Top(ch, n), Full(n))
  {
    if n == 1 { TopFits1(ch); }
    if n == 2 { TopFits2(ch); }
    if n == 3 { TopFits3(ch); }
    if n == 4 { TopFits4(ch); }
    if n == 5 { TopFits5(ch); }
  }

  /** A marked first byte announces its continuation bytes, and gives its bits back. */
  lemma {:induction false} MarkRead(x: bv32, n: nat)
    requires 1 <= n <= 5 && Le(x, Full(n))
    ensures Announced(Mark(x, Marker(n))) == n && Payload(Mark(x, Marker(n))) == x
  {
    hide Announced, Payload, Mark;
    if n == 1 { MarkRead1(x); }
    if n == 2 { MarkRead2(x); }
    if n == 3 { MarkRead3(x); }
    if n == 4 { MarkRead4(x); }
    if n == 5 { MarkRead5(x); }
  }

  /** The encoding: a marked first byte and the continuation bytes. */
  lemma {:induction false} EncodedIs(ch: bv32)
    requires 0x80 <= ch <= 0x7FFFFFFF
    ensures var n := |Encoded(ch)| - 1;
      1 <= n <= 5 && Le(ch, Limit(n)) && Encoded(ch) == [Mark(Top(ch, n), Marker(n))] + Tail(ch, n)
  {
    hide Cont, Top, Mark, Tail;
    TailUpTo(ch);
  }

  lemma {:induction false} TailUpTo(ch: bv32)
    ensures Tail(ch, 1) == [Cont(ch)]
    ensures Tail(ch, 2) == [Cont(Top(ch, 1)), Cont(ch)]
    ensures Tail(ch, 3) == [Cont(Top(ch, 2)), Cont(Top(ch, 1)), Cont(ch)]
    ensures Tail(ch, 4) == [Cont(Top(ch, 3)), Cont(Top(ch, 2)), Cont(Top(ch, 1)), Cont(ch)]
    ensures Tail(ch, 5) == [Cont(Top(ch, 4)), Cont(Top(ch, 3)), Cont(Top(ch, 2)), Cont(Top(ch, 1)), Cont(ch)]
  {
    hide Cont, Top;
    TopNone(ch);
  }

  lemma {:induction false} TailConts(ch: bv32, n: nat)
    requires n <= 5
    ensures forall i :: 0 <= i < n ==> IsCont(Tail(ch, n)[i])
  {
    hide Cont, IsCont, Top;
    forall x: bv32
      ensures IsCont(Cont(x))
    {
      ContIs(x);
    }
  }

  lemma {:induction false} ContIs(x: bv32)
    ensures IsCont(Cont(x))
  {
  }

  lemma {:induction false} AllConts(b: seq<bv8>, k: nat)
    requires k <= |b| && forall i :: 0 <= i < k ==> IsCont(b[i])
    ensures Conts(b, k) == k
  {
  }

  /** A code of up to 31 bits that is encoded is what is decoded, whatever follows it. */
  lemma {:induction false} FirstEncoded(ch: bv32, rest: seq<bv8>)
    requires ch <= 0x7FFFFFFF
    ensures First(Encoded(ch) + rest) == Code(ch, |Encoded(ch)|)
  {
    hide Payload, Join, Conts, IsCont, Announced, Encoded, Mark, Marker, Top, Tail, Le, Full, Limit;
    var b := Encoded(ch) + rest;
    assert b[0] == Encoded(ch)[0];
    if ch < 0x80 {
      SmallLead(ch);
    } else {
      var n := |Encoded(ch)| - 1;
      EncodedIs(ch);
      TopFits(ch, n);
      MarkRead(Top(ch, n), n);
      TailConts(ch, n);
      assert b[1..n + 1] == Tail(ch, n);
      forall i | 0 <= i < n
        ensures IsCont(b[1..][i])
      {
        assert b[1..][i] == Tail(ch, n)[i];
      }
      AllConts(b[1..], n);
      JoinTail(ch, n);
    }
  }

  lemma {:induction false} SmallLead(ch: bv32)
    requires ch < 0x80
    ensures Announced(Encoded(ch)[0]) == 0 && Encoded(ch)[0] as bv32 == ch && |Encoded(ch)| == 1
  {
  }

  /** A code of 32 bits is encoded as the replacement character. */
  function Kept(ch: bv32): bv32 {
    if ch <= 0x7FFFFFFF then ch else 0xFFFD
  }

  lemma {:induction false} EncodedKept(ch: bv32)
    ensures Encoded(ch) == Encoded(Kept(ch)) && Kept(ch) <= 0x7FFFFFFF
  {
  }

  ghost function AllKept(codes: seq<bv32>): (r: seq<bv32>)
    ensures |r| == |codes| && forall i :: 0 <= i < |r| ==> r[i] == Kept(codes[i])
  {
    seq(|codes|, i requires 0 <= i < |codes| => Kept(codes[i]))
  }

  /** Whatever codes are encoded one after another, the same ones are decoded, but for
      those of 32 bits. */
  lemma {:induction false} RoundTrip(codes: seq<bv32>)
    ensures Codes(EncodedAll(codes)) == AllKept(codes)
  {
    hide First, Encoded, Kept;
    if codes != [] {
      EncodedKept(codes[0]);
      FirstEncoded(Kept(codes[0]), EncodedAll(codes[1..]));
      RoundTrip(codes[1..]);
      assert EncodedAll(codes)[|Encoded(codes[0])|..] == EncodedAll(codes[1..]);
      assert AllKept(codes) == [Kept(codes[0])] + AllKept(codes[1..]);
    }
  }

  /** So the codes come back just when they have up to 31 bits. */
  lemma {:induction false} RoundTripExactly(codes: seq<bv32>)
    ensures Codes(EncodedAll(codes)) == codes <==> forall i :: 0 <= i < |codes| ==> codes[i] <= 0x7FFFFFFF
  {
    hide Codes, EncodedAll;
    RoundTrip(codes);
    forall i | 0 <= i < |codes|
      ensures AllKept(codes)[i] == codes[i] <==> codes[i] <= 0x7FFFFFFF
    {
    }
  }

  // The forms of four to six bytes.

  lemma {:induction false} BytesOf(ch: bv32)
    requires 0xFFFF < ch <= 0x7FFFFFFF
    ensures |Encoded(ch)| == if ch <= 0x1FFFFF then 4 else if ch <= 0x3FFFFFF then 5 else 6
    ensures var n := |Encoded(ch)| - 1;
      Encoded(ch)[0] == Mark(Top(ch, n), if n == 3 then 0xF0 else if n == 4 then 0xF8 else 0xFC)
      && Encoded(ch)[n] == Cont(ch) && Encoded(ch)[n - 1] == Cont(Top(ch, 1)) && Encoded(ch)[n - 2] == Cont(Top(ch, 2))
      && (n >= 4 ==> Encoded(ch)[n - 3] == Cont(Top(ch, 3))) && (n == 5 ==> Encoded(ch)[1] == Cont(Top(ch, 4)))
  {
    hide Cont, Char, Mark, Top;
  }

  method EncodeFour(s: array<bv8>, ch: bv32)
    requires s.Length >= 6 && 0xFFFF < ch <= 0x1FFFFF
    modifies s
    ensures |Encoded(ch)| == 4 && s[..4] == Encoded(ch)
    ensures forall i :: 4 <= i < s.Length ==> s[i] == old(s[i])
  {
    hide Cont, Char, Mark, Top, Encoded;
    BytesOf(ch);
    s[3] := Cont(ch);
    s[2] := Cont(Top(ch, 1));
    s[1] := Cont(Top(ch, 2));
    s[0] := Mark(Top(ch, 3), 0xF0);
    assert forall i :: 0 <= i < 4 ==> s[i] == Encoded(ch)[i];
  }

  method EncodeFive(s: array<bv8>, ch: bv32)
    requires s.Length >= 6 && 0x1FFFFF < ch <= 0x3FFFFFF
    modifies s
    ensures |Encoded(ch)| == 5 && s[..5] == Encoded(ch)
    ensures forall i :: 5 <= i < s.Length ==> s[i] == old(s[i])
  {
    hide Cont, Char, Mark, Top, Encoded;
    BytesOf(ch);
    s[4] := Cont(ch);
    s[3] := Cont(Top(ch, 1));
    s[2] := Cont(Top(ch, 2));
    s[1] := Cont(Top(ch, 3));
    s[0] := Mark(Top(ch, 4), 0xF8);
    assert forall i :: 0 <= i < 5 ==> s[i] == Encoded(ch)[i];
  }

  method EncodeSix(s: array<bv8>, ch: bv32)
    requires s.Length >= 6 && 0x3FFFFFF < ch <= 0x7FFFFFFF
    modifies s
    ensures |Encoded(ch)| == 6 && s[..6] == Encoded(ch)
    ensures forall i :: 6 <= i < s.Length ==> s[i] == old(s[i])
  {
    hide Cont, Char, Mark, Top, Encoded;
    BytesOf(ch);
    s[5] := Cont(ch);
    s[4] := Cont(Top(ch, 1));
    s[3] := Cont(Top(ch, 2));
    s[2] := Cont(Top(ch, 3));
    s[1] := Cont(Top(ch, 4));
    s[0] := Mark(Top(ch, 5), 0xFC);
    assert forall i :: 0 <= i < 6 ==> s[i] == Encoded(ch)[i];
  }

  /** Writes the bytes of ch at the start of s. */
  method Encode(s: array<bv8>, code: bv32) returns (n: nat)
    requires s.Length >= 6
    modifies s
    ensures n == |Encoded(code)| && s[..n] == Encoded(code)
    ensures forall i :: n <= i < s.Length ==> s[i] == old(s[i])
  {
    hide Cont, Char, Mark, Top;
    var ch := code;
    if ch < 0x80 {
      s[0] := Char(ch);
      return 1;
    }
    if ch <= 0x7FF {
      s[1] := Cont(ch);
      s[0] := Mark(Top(ch, 1), 0xC0);
      return 2;
    }
    if 0xFFFF < ch {
      if ch <= 0x1FFFFF {
        EncodeFour(s, ch);
        return 4;
      }
      if ch <= 0x3FFFFFF {
        EncodeFive(s, ch);
        return 5;
      }
      if ch <= 0x7FFFFFFF {
        EncodeSix(s, ch);
        return 6;
      }
      ch := 0xFFFD;
    }
    s[2] := Cont(ch);
    s[1] := Cont(Top(ch, 1));
    s[0] := Mark(Top(ch, 2), 0xE0);
    return 3;
  }

  function Six(x: bv32): bv32 {
    x << 6
  }

  /** The bits of acc moved up by six for each of k bytes. */
  function Up(acc: bv32, k: nat): bv32 {
    if k == 0 then acc else Six(Up(acc, k - 1))
  }

  function Merged(x: bv32, y: bv32): bv32 {
    x | y
  }

  lemma {:induction false} AppendMerged(x: bv32, y: bv32, b: bv8)
    ensures Append(Merged(x, y), b) == Merged(Append(x, b), Six(y))
  {
  }

  lemma {:induction false} MergedNone(x: bv32)
    ensures Merged(0, x) == x
  {
  }

  /** The bits of the first byte can be put in after those of the others. */
  lemma {:induction false} JoinLate(acc: bv32, b: seq<bv8>)
    ensures Join(acc, b) == Merged(Join(0, b), Up(acc, |b|))
    decreases |b|
  {
    hide Merged, Append, Six;
    if b == [] {
      MergedNone(acc);
    } else {
      JoinLate(acc, b[..|b| - 1]);
      AppendMerged(Join(0, b[..|b| - 1]), Up(acc, |b| - 1), b[|b| - 1]);
    }
  }

  lemma {:induction false} ShiftedIs(x: bv32)
    ensures Shifted(x, 3) == Twice(Twice(Twice(x)))
    ensures Shifted(x, 4) == Twice(Twice(Twice(Twice(x))))
    ensures Shifted(x, 5) == Twice(Twice(Twice(Twice(Twice(x)))))
    ensures Shifted(x, 6) == Twice(Twice(Twice(Twice(Twice(Twice(x))))))
    ensures Shifted(x, 7) == Twice(Twice(Twice(Twice(Twice(Twice(Twice(x)))))))
  {
    hide Twice;
    assert Shifted(x, 1) == Twice(x);
    assert Shifted(x, 2) == Twice(Twice(x));
  }

  lemma {:induction false} UpIs(x: bv32)
    ensures Up(x, 3) == Six(Six(Six(x)))
    ensures Up(x, 4) == Six(Six(Six(Six(x))))
    ensures Up(x, 5) == Six(Six(Six(Six(Six(x)))))
  {
    hide Six;
    assert Up(x, 1) == Six(x);
    assert Up(x, 2) == Six(Six(x));
  }

  lemma {:induction false} LeadBits3(lead: bv8)
    requires Announced(lead) == 3
    ensures (Twice(Twice(Twice(lead as bv32))) & 0x7F) << 15 == Six(Six(Six(Payload(lead))))
  {
  }

  lemma {:induction false} LeadBits4(lead: bv8)
    requires Announced(lead) == 4
    ensures (Twice(Twice(Twice(Twice(lead as bv32)))) & 0x7F) << 20 == Six(Six(Six(Six(Payload(lead)))))
  {
  }

  lemma {:induction false} LeadBits5(lead: bv8)
    requires Announced(lead) == 5
    ensures (Twice(Twice(Twice(Twice(Twice(lead as bv32))))) & 0x7F) << 25 == Six(Six(Six(Six(Six(Payload(lead))))))
  {
  }

  lemma {:induction false} TestTo3(lead: bv8)
    requires 0xF0 <= lead
    ensures (lead as bv32) & 0x40 != 0 && Twice(lead as bv32) & 0x40 != 0 && Twice(Twice(lead as bv32)) & 0x40 != 0
    ensures Twice(Twice(Twice(lead as bv32))) & 0x40 != 0 <==> lead >= 0xF8
  {
  }

  lemma {:induction false} Test4(lead: bv8)
    requires 0xF8 <= lead
    ensures Twice(Twice(Twice(Twice(lead as bv32)))) & 0x40 != 0 <==> lead >= 0xFC
  {
  }

  lemma {:induction false} Test5(lead: bv8)
    requires 0xFC <= lead
    ensures Twice(Twice(Twice(Twice(Twice(lead as bv32))))) & 0x40 != 0 <==> lead >= 0xFE
  {
  }

  lemma {:induction false} TestFrom6(lead: bv8)
    requires 0xFE <= lead
    ensures Twice(Twice(Twice(Twice(Twice(Twice(lead as bv32)))))) & 0x40 != 0 <==> lead == 0xFF
    ensures Twice(Twice(Twice(Twice(Twice(Twice(Twice(lead as bv32))))))) & 0x40 == 0
  {
  }

  /** The loop's test: there are more continuation bytes than have been read. */
  predicate More(ch: bv32) {
    (ch & 0x40) != 0
  }

  lemma {:induction false} LeadTest(lead: bv8, k: nat)
    requires 0xF0 <= lead && k <= Announced(lead)
    ensures More(Shifted(lead as bv32, k)) <==> k < Announced(lead)
  {
    hide Twice;
    var x := lead as bv32;
    ShiftedIs(x);
    assert Shifted(x, 1) == Twice(x) && Shifted(x, 2) == Twice(Shifted(x, 1));
    TestTo3(lead);
    if k == 4 { Test4(lead); }
    if k == 5 { Test5(lead); }
    if k >= 6 { TestFrom6(lead); }
  }

  lemma {:induction false} LeadBits(lead: bv8, n: nat)
    requires Announced(lead) == n && 3 <= n <= 5
    ensures First7(Shifted(lead as bv32, n), n) == Up(Payload(lead), n)
  {
    hide Twice, Six, Payload;
    ShiftedIs(lead as bv32);
    UpIs(Payload(lead));
    if n == 3 {
      LeadBits3(lead);
    } else if n == 4 {
      LeadBits4(lead);
    } else {
      LeadBits5(lead);
    }
  }

  /** (ch & 0x7F) << (count * 5). */
  function First7(ch: bv32, count: nat): bv32
    requires 3 <= count <= 5
  {
    if count == 3 then (ch & 0x7F) << 15
    else if count == 4 then (ch & 0x7F) << 20
    else (ch & 0x7F) << 25
  }

  /** The test of the bytes after a short first byte. */
  lemma {:induction false} ShortWhole(b: seq<bv8>)
    requires b != [] && 1 <= Announced(b[0]) <= 2
    ensures Whole(b) <==> |b| > Announced(b[0]) && IsCont(b[1]) && (Announced(b[0]) == 2 ==> IsCont(b[2]))
  {
  }

  lemma {:induction false} Append2(p: bv32, x: bv8, y: bv8)
    ensures Append(Append(p, x), y) == (p << 12) | (((x & 0x3F) as bv32) << 6) | ((y & 0x3F) as bv32)
  {
  }

  lemma {:induction false} JoinOf(p: bv32, b: seq<bv8>)
    requires 1 <= |b| <= 2
    ensures Join(p, b) == if |b| == 1 then Append(p, b[0]) else Append(Append(p, b[0]), b[1])
  {
    hide Append;
    JoinOne(p, [], b[0]);
    assert [] + [b[0]] == [b[0]];
    if |b| == 1 {
      assert b == [b[0]];
    } else {
      JoinOne(p, [b[0]], b[1]);
      assert b == [b[0]] + [b[1]];
    }
  }

  lemma {:induction false} ShortPayload(lead: bv8)
    ensures Announced(lead) == 1 ==> Payload(lead) == (lead as bv32) & 0x1F
    ensures Announced(lead) == 2 ==> Payload(lead) == (lead as bv32) & 0x0F
    ensures 0xC0 <= lead <==> 1 <= Announced(lead)
    ensures 0xE0 <= lead <==> 2 <= Announced(lead)
    ensures 0xF0 <= lead <==> 3 <= Announced(lead)
    ensures Announced(lead) <= 7
  {
  }

  function Form2(lead: bv8, x: bv8): bv32 {
    (((lead as bv32) & 0x1F) << 6) | ((x & 0x3F) as bv32)
  }

  function Form3(lead: bv8, x: bv8, y: bv8): bv32 {
    (((lead as bv32) & 0x0F) << 12) | (((x & 0x3F) as bv32) << 6) | ((y & 0x3F) as bv32)
  }

  /** The short forms put the same bits together. */
  lemma {:induction false} FormJoin(lead: bv8, b: seq<bv8>)
    requires 1 <= |b| <= 2 && Announced(lead) == |b|
    ensures Join(Payload(lead), b) == if |b| == 1 then Form2(lead, b[0]) else Form3(lead, b[0], b[1])
  {
    hide Payload, Join, Announced;
    ShortPayload(lead);
    JoinOf(Payload(lead), b);
    if |b| == 2 {
      Append2(Payload(lead), b[0], b[1]);
    }
  }

  /** The long form, read up to a byte that ends it. */
  ghost predicate Reading(b: seq<bv8>, ch: bv32, count: nat, res: bv32) {
    && count < |b| && count <= Announced(b[0])
    && (forall i :: 1 <= i <= count ==> IsCont(b[i]))
    && ch == Shifted(b[0] as bv32, count) && res == Join(0, b[1..count + 1])
  }

  lemma {:induction false} ReadNone(b: seq<bv8>)
    requires b != []
    ensures Reading(b, b[0] as bv32, 0, 0)
  {
  }

  lemma {:induction false} ReadOne(b: seq<bv8>, ch: bv32, count: nat, res: bv32)
    requires Reading(b, ch, count, res) && count < Announced(b[0]) && count + 1 < |b| && IsCont(b[count + 1])
    ensures Reading(b, Twice(ch), count + 1, Append(res, b[count + 1]))
  {
    hide Append, Twice, IsCont, Announced;
    JoinOne(0, b[1..count + 1], b[count + 1]);
    assert b[1..count + 2] == b[1..count + 1] + [b[count + 1]];
  }

  lemma {:induction false} ContsAre(b: seq<bv8>, n: nat, k: nat)
    requires n <= k && n <= |b| && (forall i :: 0 <= i < n ==> IsCont(b[i]))
    requires n == k || n == |b| || !IsCont(b[n])
    ensures Conts(b, k) == n
  {
  }

  lemma {:induction false} ReadAll(b: seq<bv8>, ch: bv32, count: nat, res: bv32)
    requires Reading(b, ch, count, res) && 3 <= Announced(b[0])
    requires count == Announced(b[0]) || count + 1 == |b| || !IsCont(b[count + 1])
    ensures First(b) ==
      if count == Announced(b[0]) <= 5 then Code(Merged(res, First7(ch, count)), count + 1) else Code(ch, 1)
  {
    hide IsCont, Announced, Join, First7, Payload, Shifted, Merged;
    ContsAre(b[1..], count, Announced(b[0]));
    if count == Announced(b[0]) <= 5 {
      LeadBits(b[0], count);
      JoinLate(Payload(b[0]), b[1..count + 1]);
    }
  }

  /** The long form: continuation bytes are read until one is missing or all were read. */
  method DecodeLong(b: array<bv8>, s: nat, e: nat) returns (code: bv32, size: nat)
    requires s < e < b.Length && b[e] == 0 && 0xF0 <= b[s]
    ensures Code(code, size) == First(b[s..e]) && 0 < size
    ensures s + size <= e
  {
    hide First, Announced, IsCont, Reading, More, Twice, Append, First7, Merged;
    ghost var t := b[s..e];
    var ch := b[s] as bv32;
    ShortPayload(b[s]);
    var count: nat := 0;
    var res: bv32 := 0;
    ReadNone(t);
    NulEnds();
    while More(ch)
      invariant Reading(t, ch, count, res) && s + count < e
      decreases 8 - count
    {
      ReadMore(t, ch, count, res);
      count := count + 1;
      var cc := b[s + count];
      if !IsCont(cc) {
        ReadAll(t, ch, count - 1, res);
        return ch, 1;
      }
      ReadOne(t, ch, count - 1, res);
      res := Append(res, cc);
      ch := Twice(ch);
    }
    ReadMore(t, ch, count, res);
    ReadAll(t, ch, count, res);
    if count > 5 {
      return ch, 1;
    }
    res := Merged(res, First7(ch, count));
    return res, count + 1;
  }

  /** The code at s, before e, where a NUL stands. */
  method Decode(b: array<bv8>, s: nat, e: nat) returns (code: bv32, size: nat)
    requires s <= e < b.Length && b[e] == 0
    ensures Code(code, size) == First(b[s..e])
    ensures s < e ==> 0 < size
    ensures s + size <= e
  {
    hide First, Announced, IsCont, Form2, Form3, Whole;
    if s >= e {
      FirstNone(b[s..e]);
      return 0, 0;
    }
    ghost var t := b[s..e];
    var ch := b[s] as bv32;
    ShortPayload(b[s]);
    if b[s] < 0xC0 {
      Fallback(t);
      return ch, 1;
    }
    if b[s] < 0xF0 {
      ShortWhole(t);
      Fallback(t);
      if b[s] < 0xE0 {
        if s + 1 >= e || !IsCont(b[s + 1]) {
          return ch, 1;
        }
        assert t[1] == b[s + 1];
        WholeShort(t);
        FormJoin(t[0], t[1..2]);
        return Form2(b[s], b[s + 1]), 2;
      }
      if s + 2 >= e || !IsCont(b[s + 1]) || !IsCont(b[s + 2]) {
        return ch, 1;
      }
      assert t[1] == b[s + 1] && t[2] == b[s + 2];
      WholeShort(t);
      FormJoin(t[0], t[1..3]);
      return Form3(b[s], b[s + 1], b[s + 2]), 3;
    }
    code, size := DecodeLong(b, s, e);
  }

  /** The bytes of a code for a double-byte string. */
  function Dbcs(ch: bv32): seq<bv8> {
    if ch < 0x7F then [Char(ch)] else [Char(ch >> 8), Char(ch)]
  }

  ghost function DbcsAll(codes: seq<bv32>, fromUni: bv32 -> bv32): seq<bv8> {
    if codes == [] then [] else Dbcs(fromUni(codes[0])) + DbcsAll(codes[1..], fromUni)
  }

  lemma {:induction false} NoCode(t: seq<bv8>, fromUni: bv32 -> bv32)
    ensures t[0..] == t && DbcsAll(Codes(t[|t|..]), fromUni) == []
  {
  }

  lemma {:induction false} NextCode(t: seq<bv8>, s: nat, fromUni: bv32 -> bv32)
    requires s < |t|
    ensures s + First(t[s..]).size <= |t|
    ensures DbcsAll(Codes(t[s..]), fromUni) ==
      Dbcs(fromUni(First(t[s..]).ch)) + DbcsAll(Codes(t[s + First(t[s..]).size..]), fromUni)
  {
    hide First, Dbcs;
    var c := First(t[s..]);
    assert t[s..][c.size..] == t[s + c.size..];
    assert Codes(t[s..])[1..] == Codes(t[s + c.size..]);
  }

  /** Whatever the bytes up to the NUL are, each is used once and in order. */
  method FromUtf8(b: array<bv8>, e: nat, fromUni: bv32 -> bv32) returns (out: seq<bv8>)
    requires e < b.Length && b[e] == 0
    ensures out == DbcsAll(Codes(b[..e]), fromUni)
  {
    hide First, Dbcs, DbcsAll, Codes;
    out := [];
    var s := 0;
    ghost var t := b[..e];
    NoCode(t, fromUni);
    while s < e
      invariant s <= e && out + DbcsAll(Codes(t[s..]), fromUni) == DbcsAll(Codes(t), fromUni)
    {
      var ch, n := Decode(b, s, e);
      assert b[s..e] == t[s..];
      NextCode(t, s, fromUni);
      out := out + Dbcs(fromUni(ch));
      s := s + n;
    }
  }

  function Double(high: bv8, low: bv8): bv32 {
    ((high as bv32) << 8) | (low as bv32)
  }

  /** The code at the start of a double-byte string: of one byte if the table of single
      bytes has it, and otherwise of two, the second of which may be the NUL. */
  function DbcsFirst(b: seq<bv8>, single: bv8 -> bool): Code {
    if b == [] then Code(0, 0)
    else if single(b[0]) then Code(b[0] as bv32, 1)
    else Code(Double(b[0], if |b| > 1 then b[1] else 0), 2)
  }

  function DbcsCodes(b: seq<bv8>, single: bv8 -> bool): seq<bv32>
    decreases |b|
  {
    if b == [] then []
    else
      var c := DbcsFirst(b, single);
      [c.ch] + if c.size < |b| then DbcsCodes(b[c.size..], single) else []
  }

  ghost function Mapped(codes: seq<bv32>, f: bv32 -> bv32): (r: seq<bv32>)
    ensures |r| == |codes| && forall i :: 0 <= i < |r| ==> r[i] == f(codes[i])
  {
    seq(|codes|, i requires 0 <= i < |codes| => f(codes[i]))
  }

  method DbcsDecode(b: array<bv8>, s: nat, e: nat, single: bv8 -> bool) returns (code: bv32, size: nat)
    requires s <= e < b.Length && b[e] == 0
    ensures Code(code, size) == DbcsFirst(b[s..e], single)
  {
    hide Double;
    if s >= e {
      return 0, 0;
    }
    if single(b[s]) {
      return b[s] as bv32, 1;
    }
    return Double(b[s], b[s + 1]), 2;
  }

  lemma {:induction false} NextDbcs(t: seq<bv8>, s: nat, single: bv8 -> bool, toUni: bv32 -> bv32)
    requires s < |t|
    ensures DbcsFirst(t[s..], single).size > 0
    ensures EncodedAll(Mapped(DbcsCodes(t[s..], single), toUni)) ==
      Encoded(toUni(DbcsFirst(t[s..], single).ch)) + EncodedAll(Mapped(DbcsFrom(t, s + DbcsFirst(t[s..], single).size, single), toUni))
  {
    hide Encoded;
    var c, rest := DbcsFirst(t[s..], single), DbcsFrom(t, s + DbcsFirst(t[s..], single).size, single);
    assert c.size < |t| - s ==> t[s..][c.size..] == t[s + c.size..];
    assert DbcsCodes(t[s..], single) == [c.ch] + rest;
    assert Mapped([c.ch] + rest, toUni) == [toUni(c.ch)] + Mapped(rest, toUni);
  }

  /** The codes from place s on; the last code may end behind the string. */
  function DbcsFrom(t: seq<bv8>, s: nat, single: bv8 -> bool): seq<bv32> {
    if s < |t| then DbcsCodes(t[s..], single) else []
  }

  lemma {:induction false} AllDbcs(t: seq<bv8>, single: bv8 -> bool)
    ensures DbcsFrom(t, 0, single) == DbcsCodes(t, single)
  {
    assert t[0..] == t;
  }

  lemma {:induction false} NoDbcs(t: seq<bv8>, s: nat, single: bv8 -> bool, toUni: bv32 -> bv32)
    ensures s >= |t| ==> EncodedAll(Mapped(DbcsFrom(t, s, single), toUni)) == []
    ensures s < |t| ==> DbcsFrom(t, s, single) == DbcsCodes(t[s..], single)
  {
  }

  /** A double-byte string converted: each code it has is encoded, in order. */
  method ToUtf8(b: array<bv8>, e: nat, single: bv8 -> bool, toUni: bv32 -> bv32) returns (out: seq<bv8>)
    requires e < b.Length && b[e] == 0
    ensures out == EncodedAll(Mapped(DbcsCodes(b[..e], single), toUni))
  {
    hide Encoded, EncodedAll, Mapped, DbcsCodes, DbcsFrom, DbcsFirst;
    out := [];
    var buff := new bv8[8];
    var s := 0;
    ghost var t := b[..e];
    AllDbcs(t, single);
    while s < e
      invariant t == b[..e] && b[e] == 0
      invariant out + EncodedAll(Mapped(DbcsFrom(t, s, single), toUni)) == EncodedAll(Mapped(DbcsCodes(t, single), toUni))
      decreases e - s
    {
      var ch, size := DbcsDecode(b, s, e, single);
      assert b[s..e] == t[s..];
      NoDbcs(t, s, single, toUni);
      NextDbcs(t, s, single, toUni);
      var n := Encode(buff, toUni(ch));
      out := out + buff[..n];
      s := s + size;
    }
    NoDbcs(t, s, single, toUni);
  }

  /** A code whose bytes are read back as that code: one byte that is single, or two of
      which the first is not. The code 0x7F is written in two. */
  predicate Clean(c: bv32, single: bv8 -> bool) {
    if c < 0x7F then single(Char(c)) else c <= 0xFFFF && !single(Char(c >> 8))
  }

  lemma {:induction false} CleanFirst(c: bv32, single: bv8 -> bool, rest: seq<bv8>)
    requires Clean(c, single)
    ensures DbcsFirst(Dbcs(c) + rest, single) == Code(c, |Dbcs(c)|)
  {
    hide Char, Double;
    assert c < 0x7F || (Dbcs(c) + rest)[1] == Char(c);
    CharBits(c);
  }

  lemma {:induction false} CharBits(c: bv32)
    ensures c < 0x7F ==> Char(c) as bv32 == c
    ensures c <= 0xFFFF ==> Double(Char(c >> 8), Char(c)) == c
  {
  }

  ghost function Identity(): bv32 -> bv32 {
    c => c
  }

  lemma {:induction false} CleanCodes(codes: seq<bv32>, single: bv8 -> bool)
    requires forall i :: 0 <= i < |codes| ==> Clean(codes[i], single)
    ensures DbcsCodes(DbcsAll(codes, Identity()), single) == codes
  {
    hide Dbcs, DbcsFirst, Clean;
    if codes != [] {
      var rest := DbcsAll(codes[1..], Identity());
      CleanFirst(codes[0], single, rest);
      CleanCodes(codes[1..], single);
      var all := Dbcs(codes[0]) + rest;
      assert all[|Dbcs(codes[0])|..] == rest;
      DbcsSize(codes[0]);
    }
  }

  lemma {:induction false} DbcsSize(c: bv32)
    ensures 1 <= |Dbcs(c)| <= 2
  {
  }

  /** Where the tables are each other's inverse on the codes of a string, converting it to
      UTF-8 and back gives the string. */
  lemma {:induction false} ThereAndBack(codes: seq<bv32>, single: bv8 -> bool, toUni: bv32 -> bv32, fromUni: bv32 -> bv32)
    requires forall i :: 0 <= i < |codes| ==> Clean(codes[i], single)
    requires forall i :: 0 <= i < |codes| ==> toUni(codes[i]) <= 0x7FFFFFFF && fromUni(toUni(codes[i])) == codes[i]
    ensures var text := DbcsAll(codes, Identity());
      DbcsAll(Codes(EncodedAll(Mapped(DbcsCodes(text, single), toUni))), fromUni) == text
  {
    hide Codes, EncodedAll, DbcsCodes, DbcsAll, Clean, Identity;
    CleanCodes(codes, single);
    RoundTripExactly(Mapped(codes, toUni));
    MappedBack(codes, toUni, fromUni);
  }

  lemma {:induction false} MappedBack(codes: seq<bv32>, toUni: bv32 -> bv32, fromUni: bv32 -> bv32)
    requires forall i :: 0 <= i < |codes| ==> fromUni(toUni(codes[i])) == codes[i]
    ensures DbcsAll(Mapped(codes, toUni), fromUni) == DbcsAll(codes, Identity())
  {
    hide Dbcs;
    if codes != [] {
      MappedBack(codes[1..], toUni, fromUni);
      assert Mapped(codes, toUni)[1..] == Mapped(codes[1..], toUni);
    }
  }

  lemma {:induction false} NulEnds()
    ensures !IsCont(0)
  {
  }

  lemma {:induction false} FirstNone(b: seq<bv8>)
    ensures b == [] ==> First(b) == Code(0, 0)
  {
  }

  lemma {:induction false} Fallback(b: seq<bv8>)
    requires b != [] && Announced(b[0]) <= 2
    ensures !Whole(b) ==> First(b) == Code(b[0] as bv32, 1)
    ensures Announced(b[0]) == 0 ==> !Whole(b)
  {
  }

  lemma {:induction false} WholeShort(b: seq<bv8>)
    requires Whole(b) && Announced(b[0]) <= 2
    ensures |b| > Announced(b[0])
    ensures First(b) == Code(Join(Payload(b[0]), b[1..Announced(b[0]) + 1]), Announced(b[0]) + 1)
  {
  }

  lemma {:induction false} ReadMore(b: seq<bv8>, ch: bv32, count: nat, res: bv32)
    requires Reading(b, ch, count, res) && 0xF0 <= b[0]
    ensures count <= Announced(b[0]) <= 7
    ensures More(ch) <==> count < Announced(b[0])
  {
    hide More, Shifted, Announced;
    LeadTest(b[0], count);
    ShortPayload(b[0]);
  }

  // The bytes themselves.

  /** The first byte of a form with n continuation bytes: its marks are those of the table
      in section 2 of RFC 2279. */
  predicate Leads(b: bv8, n: nat) {
    match n
    case 0 => b & 0x80 == 0
    case 1 => b & 0xE0 == 0xC0
    case 2 => b & 0xF0 == 0xE0
    case 3 => b & 0xF8 == 0xF0
    case 4 => b & 0xFC == 0xF8
    case 5 => b & 0xFE == 0xFC
    case _ => false
  }

  /** The length of each code's form and the marks of its bytes are those of that table. */
  lemma {:induction false} AsInTheTable(ch: bv32)
    ensures |Encoded(ch)| == if ch < 0x80 then 1 else if ch < 0x800 then 2 else if ch < 0x1_0000 then 3
                             else if ch < 0x20_0000 then 4 else if ch < 0x400_0000 then 5
                             else if ch < 0x8000_0000 then 6 else 3
    ensures Leads(Encoded(ch)[0], |Encoded(ch)| - 1)
    ensures forall k :: 0 < k < |Encoded(ch)| ==> Encoded(ch)[k] & 0xC0 == 0x80
  {
    hide Encoded, Top, Mark, Cont, Leads, Tail, Marker;
    EncodedLength(ch);
    if ch < 0x80 {
      LeadOne(ch);
    } else {
      var c := if ch <= 0x7FFFFFFF then ch else 0xFFFD;
      EncodedIs(c);
      LeadMarked(c, |Encoded(c)| - 1);
      TailMarked(c, |Encoded(c)| - 1);
    }
  }

  lemma {:induction false} EncodedLength(ch: bv32)
    ensures |Encoded(ch)| == if ch < 0x80 then 1 else if ch < 0x800 then 2 else if ch < 0x1_0000 then 3
                             else if ch < 0x20_0000 then 4 else if ch < 0x400_0000 then 5
                             else if ch < 0x8000_0000 then 6 else 3
    ensures ch < 0x80 ==> Encoded(ch) == [Char(ch)]
    ensures ch > 0x7FFFFFFF ==> Encoded(ch) == Encoded(0xFFFD)
  {
    hide Top, Mark, Cont, Char;
  }

  lemma {:induction false} LeadMarked(ch: bv32, n: nat)
    requires 1 <= n <= 5 && Le(ch, Limit(n))
    ensures Leads(Mark(Top(ch, n), Marker(n)), n)
  {
    hide Top, Mark, Leads;
    LeadTwo(ch);
    LeadThree(ch);
    LeadFour(ch);
    LeadFive(ch);
    LeadSix(ch);
  }

  lemma {:induction false} TailMarked(ch: bv32, n: nat)
    requires n <= 5
    ensures forall k :: 0 <= k < n ==> Tail(ch, n)[k] & 0xC0 == 0x80
  {
    hide Cont, Top;
    forall k | 0 <= k < n
      ensures Tail(ch, n)[k] & 0xC0 == 0x80
    {
      ContMarked(Top(ch, n - 1 - k));
    }
  }

  lemma {:induction false} ContMarked(x: bv32)
    ensures Cont(x) & 0xC0 == 0x80
  {
  }

  lemma {:induction false} LeadOne(ch: bv32)
    ensures ch < 0x80 ==> Leads(Char(ch), 0)
  {
  }

  lemma {:induction false} LeadTwo(ch: bv32)
    ensures ch <= 0x7FF ==> Leads(Mark(Top(ch, 1), 0xC0), 1)
  {
  }

  lemma {:induction false} LeadThree(ch: bv32)
    ensures ch <= 0xFFFF ==> Leads(Mark(Top(ch, 2), 0xE0), 2)
  {
  }

  lemma {:induction false} LeadFour(ch: bv32)
    ensures ch <= 0x1FFFFF ==> Leads(Mark(Top(ch, 3), 0xF0), 3)
  {
  }

  lemma {:induction false} LeadFive(ch: bv32)
    ensures ch <= 0x3FFFFFF ==> Leads(Mark(Top(ch, 4), 0xF8), 4)
  {
  }

  lemma {:induction false} LeadSix(ch: bv32)
    ensures ch <= 0x7FFFFFFF ==> Leads(Mark(Top(ch, 5), 0xFC), 5)
  {
  }

  /** The examples of section 4 of RFC 2279. */
  lemma {:induction false} Rfc2279Examples()
    ensures EncodedAll([0x41, 0x2262, 0x391, 0x2E]) == [0x41, 0xE2, 0x89, 0xA2, 0xCE, 0x91, 0x2E]
    ensures EncodedAll([0xD55C, 0xAD6D, 0xC5B4]) == [0xED, 0x95, 0x9C, 0xEA, 0xB5, 0xAD, 0xEC, 0x96, 0xB4]
    ensures EncodedAll([0x65E5, 0x672C, 0x8A9E]) == [0xE6, 0x97, 0xA5, 0xE6, 0x9C, 0xAC, 0xE8, 0xAA, 0x9E]
  {
    hide Encoded, EncodedAll;
    AllOf4(0x41, 0x2262, 0x391, 0x2E);
    assert Encoded(0x41) + Encoded(0x2262) + Encoded(0x391) + Encoded(0x2E) == [0x41, 0xE2, 0x89, 0xA2, 0xCE, 0x91, 0x2E] by {
      Example1();
    }
    AllOf3(0xD55C, 0xAD6D, 0xC5B4);
    Example2();
    AllOf3(0x65E5, 0x672C, 0x8A9E);
    Example3();
  }

  lemma {:induction false} Example1()
    ensures Encoded(0x41) == [0x41] && Encoded(0x2262) == [0xE2, 0x89, 0xA2]
    ensures Encoded(0x391) == [0xCE, 0x91] && Encoded(0x2E) == [0x2E]
  {
  }

  lemma {:induction false} Example2()
    ensures Encoded(0xD55C) == [0xED, 0x95, 0x9C] && Encoded(0xAD6D) == [0xEA, 0xB5, 0xAD]
    ensures Encoded(0xC5B4) == [0xEC, 0x96, 0xB4]
  {
  }

  lemma {:induction false} Example3()
    ensures Encoded(0x65E5) == [0xE6, 0x97, 0xA5] && Encoded(0x672C) == [0xE6, 0x9C, 0xAC]
    ensures Encoded(0x8A9E) == [0xE8, 0xAA, 0x9E]
  {
  }

  lemma {:induction false} AllOf3(a: bv32, b: bv32, c: bv32)
    ensures EncodedAll([a, b, c]) == Encoded(a) + Encoded(b) + Encoded(c)
  {
    hide Encoded;
    assert [a, b, c][1..] == [b, c] && [b, c][1..] == [c] && [c][1..] == [];
    assert EncodedAll([c]) == Encoded(c) + EncodedAll([]);
    assert Encoded(a) + (Encoded(b) + Encoded(c)) == Encoded(a) + Encoded(b) + Encoded(c);
  }

  lemma {:induction false} AllOf4(a: bv32, b: bv32, c: bv32, d: bv32)
    ensures EncodedAll([a, b, c, d]) == Encoded(a) + Encoded(b) + Encoded(c) + Encoded(d)
  {
    hide Encoded;
    AllOf3(b, c, d);
    assert [a, b, c, d][1..] == [b, c, d];
    assert Encoded(a) + (Encoded(b) + Encoded(c) + Encoded(d)) == Encoded(a) + Encoded(b) + Encoded(c) + Encoded(d);
  }

  // Other forms of a code.

  /** The most that can be joined from m with k bytes. */
  function Most(m: bv32, k: nat): bv32 {
    if k == 0 then m else Append(Most(m, k - 1), 0x3F)
  }

  lemma {:induction false} AppendBack(acc: bv32, m: bv32, b: bv8)
    requires Le(acc, m) && Le(m, 0x1FFFFFF) && IsCont(b)
    ensures Down(Append(acc, b)) == acc && Le(Append(acc, b), Append(m, 0x3F))
    ensures Cont(Append(acc, b)) == b
  {
  }

  predicate Fits(m: bv32, k: nat) {
    k > 0 ==> Fits(m, k - 1) && Le(Most(m, k - 1), 0x1FFFFFF)
  }

  /** What was joined can be taken apart. */
  lemma {:induction false} JoinBack(acc: bv32, m: bv32, b: seq<bv8>)
    requires Le(acc, m) && |b| <= 5 && Fits(m, |b|) && forall i :: 0 <= i < |b| ==> IsCont(b[i])
    ensures Le(Join(acc, b), Most(m, |b|))
    ensures Top(Join(acc, b), |b|) == acc && Tail(Join(acc, b), |b|) == b
    decreases |b|
  {
    hide Append, Down, Cont, IsCont, Top, Tail, Le;
    var ch, n := Join(acc, b), |b|;
    TopNone(ch);
    if n > 0 {
      JoinBack(acc, m, b[..n - 1]);
      AppendBack(Join(acc, b[..n - 1]), Most(m, n - 1), b[n - 1]);
      TopLess(ch, n);
      TailLess(ch, n);
    }
  }

  lemma {:induction false} MostIs(m: bv32)
    ensures Most(m, 1) == Append(m, 0x3F) && Most(m, 2) == Append(Append(m, 0x3F), 0x3F)
    ensures Most(m, 3) == Append(Append(Append(m, 0x3F), 0x3F), 0x3F)
    ensures Most(m, 4) == Append(Append(Append(Append(m, 0x3F), 0x3F), 0x3F), 0x3F)
    ensures Most(m, 5) == Append(Append(Append(Append(Append(m, 0x3F), 0x3F), 0x3F), 0x3F), 0x3F)
  {
  }

  lemma {:induction false} Steps()
    ensures Append(0x1F, 0x3F) == 0x7FF && Append(0x0F, 0x3F) == 0x3FF && Append(0x3FF, 0x3F) == 0xFFFF
    ensures Append(0x07, 0x3F) == 0x1FF && Append(0x1FF, 0x3F) == 0x7FFF && Append(0x7FFF, 0x3F) == 0x1FFFFF
    ensures Append(0x03, 0x3F) == 0xFF && Append(0xFF, 0x3F) == 0x3FFF && Append(0x3FFF, 0x3F) == 0xFFFFF
    ensures Append(0xFFFFF, 0x3F) == 0x3FFFFFF
    ensures Append(0x01, 0x3F) == 0x7F && Append(0x7F, 0x3F) == 0x1FFF && Append(0x1FFF, 0x3F) == 0x7FFFF
    ensures Append(0x7FFFF, 0x3F) == 0x1FFFFFF && Append(0x1FFFFFF, 0x3F) == 0x7FFFFFFF
  {
  }

  lemma {:induction false} FullFits(n: nat)
    requires 1 <= n <= 5
    ensures Fits(Full(n), n) && Most(Full(n), n) == Limit(n)
  {
    hide Append;
    Steps();
    MostIs(Full(n));
    assert Fits(Full(n), 0);
    assert Fits(Full(n), 1);
    assert n >= 2 ==> Fits(Full(n), 2);
    assert n >= 3 ==> Fits(Full(n), 3);
    assert n >= 4 ==> Fits(Full(n), 4);
  }

  lemma {:induction false} MaskFits(lead: bv8, mask: bv8)
    ensures Le((lead & mask) as bv32, mask as bv32)
  {
  }

  lemma {:induction false} PayloadFits(lead: bv8)
    requires 1 <= Announced(lead) <= 5
    ensures Le(Payload(lead), Full(Announced(lead)))
  {
    hide Announced, Le;
    MaskFits(lead, 0x1F);
    MaskFits(lead, 0x0F);
    MaskFits(lead, 0x07);
    MaskFits(lead, 0x03);
    MaskFits(lead, 0x01);
  }

  lemma {:induction false} SizeFits(ch: bv32, n: nat)
    requires 1 <= n <= 5 && Le(ch, Limit(n))
    ensures |Encoded(ch)| <= n + 1 && ch <= 0x7FFFFFFF && (|Encoded(ch)| > 1 ==> 0x80 <= ch)
  {
  }

  /** Marking the bits of a first byte gives the byte. */
  lemma {:induction false} MarkBack(lead: bv8)
    requires 1 <= Announced(lead) <= 5
    ensures Mark(Payload(lead), Marker(Announced(lead))) == lead
  {
  }

  /** utf8_encode has the shortest form: whole bytes that are decoded to a code are longer
      than its encoding, or they are its encoding. */
  lemma {:induction false} Shortest(b: seq<bv8>)
    requires Whole(b)
    ensures First(b).ch <= 0x7FFFFFFF && |Encoded(First(b).ch)| <= First(b).size
    ensures |Encoded(First(b).ch)| == First(b).size ==> Encoded(First(b).ch) == b[..First(b).size]
  {
    hide Announced, Payload, Join, Encoded, Full, Fits, Most, Limit, Le, Top, Tail, IsCont, Mark, Marker;
    var n := Announced(b[0]);
    var t, ch := b[1..n + 1], First(b).ch;
    PayloadFits(b[0]);
    FullFits(n);
    JoinBack(Payload(b[0]), Full(n), t);
    SizeFits(ch, n);
    if |Encoded(ch)| == n + 1 {
      EncodedIs(ch);
      MarkBack(b[0]);
    }
  }
}
