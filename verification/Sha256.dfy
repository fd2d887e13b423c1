/**
 SHA-256: the standard (FIPS 180-4) as functions, and the streaming implementation of src/sha256.c,
 proved to give the standard's digest of the whole message however it is cut into update calls.
 */
module Sha256 {
  import opened Basics

  type Word = bv32

  // ---------------------------------------------------------------- sections 3.2 and 4.1.2: the functions

  /** The macros of the code, which are the standard's ROTR, Ch, Maj and its four sigmas. */
  function Ror(x: Word, n: bv32): Word
    requires 0 < n < 32
  {
    (x >> n) | (x << (32 - n))
  }

  /** Addition modulo 2^32. */
  function Add(x: Word, y: Word): Word { x + y }

  function Ch(x: Word, y: Word, z: Word): Word { (x & y) ^ (!x & z) }

  function Maj(x: Word, y: Word, z: Word): Word { (x & y) ^ (x & z) ^ (y & z) }

  function Ep0(x: Word): Word { Ror(x, 2) ^ Ror(x, 13) ^ Ror(x, 22) }

  function Ep1(x: Word): Word { Ror(x, 6) ^ Ror(x, 11) ^ Ror(x, 25) }

  function Sig0(x: Word): Word { Ror(x, 7) ^ Ror(x, 18) ^ (x >> 3) }

  function Sig1(x: Word): Word { Ror(x, 17) ^ Ror(x, 19) ^ (x >> 10) }

  /** Section 4.2.2. */
  const K: seq<Word> :=
    [0x428a2f98, 0x71374491, 0xb5c0fbcf, 0xe9b5dba5, 0x3956c25b, 0x59f111f1, 0x923f82a4, 0xab1c5ed5]
    + [0xd807aa98, 0x12835b01, 0x243185be, 0x550c7dc3, 0x72be5d74, 0x80deb1fe, 0x9bdc06a7, 0xc19bf174]
    + [0xe49b69c1, 0xefbe4786, 0x0fc19dc6, 0x240ca1cc, 0x2de92c6f, 0x4a7484aa, 0x5cb0a9dc, 0x76f988da]
    + [0x983e5152, 0xa831c66d, 0xb00327c8, 0xbf597fc7, 0xc6e00bf3, 0xd5a79147, 0x06ca6351, 0x14292967]
    + [0x27b70a85, 0x2e1b2138, 0x4d2c6dfc, 0x53380d13, 0x650a7354, 0x766a0abb, 0x81c2c92e, 0x92722c85]
    + [0xa2bfe8a1, 0xa81a664b, 0xc24b8b70, 0xc76c51a3, 0xd192e819, 0xd6990624, 0xf40e3585, 0x106aa070]
    + [0x19a4c116, 0x1e376c08, 0x2748774c, 0x34b0bcb5, 0x391c0cb3, 0x4ed8aa4a, 0x5b9cca4f, 0x682e6ff3]
    + [0x748f82ee, 0x78a5636f, 0x84c87814, 0x8cc70208, 0x90befffa, 0xa4506ceb, 0xbef9a3f7, 0xc67178f2]

  function Constant(t: nat): Word
    requires t < 64
  {
    K[t]
  }

  /** Section 5.3.3. */
  const H0: seq<Word> := [0x6a09e667, 0xbb67ae85, 0x3c6ef372, 0xa54ff53a, 0x510e527f, 0x9b05688c, 0x1f83d9ab, 0x5be0cd19]

  // ---------------------------------------------------------------- section 5.1.1: padding

  function Zeros(n: nat): (z: seq<Byte>)
    ensures |z| == n
  {
    seq(n, _ => 0)
  }

  /** The n low bytes of v, most significant first. */
  function BigEndian(v: nat, n: nat): (b: seq<Byte>)
    ensures |b| == n
  {
    if n == 0 then [] else BigEndian(v / 256, n - 1) + [v % 256]
  }

  /** How many zero bytes bring a message and its 0x80 to 56 modulo 64. */
  function ZeroCount(n: nat): (z: nat)
    ensures z < 64 && (n + 1 + z) % 64 == 56
  {
    if n % 64 < 56 then 55 - n % 64 else 119 - n % 64
  }

  /** The length field holds 64 bits: the length itself for every message the standard admits. */
  function BitLength(n: nat): U64 {
    8 * n % (U64_MAX + 1)
  }

  function Padding(n: nat): (p: seq<Byte>)
    ensures |p| == 9 + ZeroCount(n)
  {
    [0x80] + Zeros(ZeroCount(n)) + BigEndian(BitLength(n), 8)
  }

  lemma PaddingFills(n: nat)
    ensures (n + 9 + ZeroCount(n)) % 64 == 0
  {}

  function Padded(m: seq<Byte>): (p: seq<Byte>)
    ensures |p| % 64 == 0
  {
    PaddingFills(|m|);
    m + Padding(|m|)
  }

  function Value(b: seq<Byte>): nat {
    if b == [] then 0 else 256 * Value(b[..|b| - 1]) + b[|b| - 1]
  }

  function Pow256(n: nat): (p: nat)
    ensures p > 0
  {
    if n == 0 then 1 else 256 * Pow256(n - 1)
  }

  lemma {:induction false} ValueOfBigEndian(v: nat, n: nat)
    requires v < Pow256(n)
    ensures Value(BigEndian(v, n)) == v
  {
    if n > 0 {
      ValueOfBigEndian(v / 256, n - 1);
      assert BigEndian(v, n)[..n - 1] == BigEndian(v / 256, n - 1);
    }
  }

  lemma LengthFits(n: nat)
    requires 8 * n <= U64_MAX
    ensures Value(BigEndian(BitLength(n), 8)) == 8 * n
  {
    assert BitLength(n) == 8 * n;
    assert Pow256(8) == U64_MAX + 1;
    hide BitLength;
    ValueOfBigEndian(8 * n, 8);
  }

  /** The padded message is the message, one 1 bit, the fewest zeros that fill a block, and the length in bits. */
  lemma PaddingIsStandard(m: seq<Byte>)
    requires 8 * |m| <= U64_MAX
    ensures var p := Padded(m);
            && |p| % 64 == 0 && |m| + 9 <= |p| < |m| + 9 + 64
            && p[..|m|] == m && p[|m|] == 0x80
            && (forall i :: |m| < i < |p| - 8 ==> p[i] == 0)
            && Value(p[|p| - 8..]) == 8 * |m|
  {
    var p := Padded(m);
    var z := ZeroCount(|m|);
    var len := BigEndian(BitLength(|m|), 8);
    LengthFits(|m|);
    hide BigEndian, Value, Pow256, BitLength;
    assert p == m + ([0x80] + Zeros(z) + len);
    PaddedParts(m, z, len, p);
  }

  lemma PaddedParts(m: seq<Byte>, z: nat, len: seq<Byte>, p: seq<Byte>)
    requires p == m + ([0x80] + Zeros(z) + len) && |len| == 8
    ensures |p| == |m| + 9 + z && p[..|m|] == m && p[|m|] == 0x80
    ensures forall i :: |m| < i < |p| - 8 ==> p[i] == 0
    ensures p[|p| - 8..] == len
  {
    var t := [0x80] + Zeros(z) + len;
    assert forall i :: |m| <= i < |p| ==> p[i] == t[i - |m|];
    assert forall i :: 1 <= i < 1 + z ==> t[i] == Zeros(z)[i - 1];
  }

  // ---------------------------------------------------------------- section 6.2.2: one block

  type Block = b: seq<Byte> | |b| == 64 witness Zeros(64)

  function MessageWord(b: Block, t: nat): Word
    requires t < 16
  {
    Be32(b[4 * t], b[4 * t + 1], b[4 * t + 2], b[4 * t + 3])
  }

  function Mixed(w2: Word, w7: Word, w15: Word, w16: Word): Word {
    Sig1(w2) + w7 + Sig0(w15) + w16
  }

  /** load_be32 makes the words of a block, and the schedule mixes the rest from them. */
  function W(b: Block, t: nat): Word {
    if t < 16 then MessageWord(b, t)
    else Mixed(W(b, t - 2), W(b, t - 7), W(b, t - 15), W(b, t - 16))
  }

  datatype Vars = Vars(a: Word, b: Word, c: Word, d: Word, e: Word, f: Word, g: Word, h: Word)

  function T1(e: Word, f: Word, g: Word, h: Word, k: Word, w: Word): Word {
    h + Ep1(e) + Ch(e, f, g) + k + w
  }

  function T2(a: Word, b: Word, c: Word): Word {
    Ep0(a) + Maj(a, b, c)
  }

  function Round(v: Vars, k: Word, w: Word): Vars {
    var t1 := T1(v.e, v.f, v.g, v.h, k, w);
    var t2 := T2(v.a, v.b, v.c);
    Vars(Add(t1, t2), v.a, v.b, v.c, Add(v.d, t1), v.e, v.f, v.g)
  }

  function Rounds(v: Vars, b: Block, t: nat): Vars
    requires t <= 64
  {
    if t == 0 then v else Round(Rounds(v, b, t - 1), Constant(t - 1), W(b, t - 1))
  }

  type Hash = h: seq<Word> | |h| == 8 witness [0, 0, 0, 0, 0, 0, 0, 0]

  function VarsOf(h: Hash): Vars {
    Vars(h[0], h[1], h[2], h[3], h[4], h[5], h[6], h[7])
  }

  function Plus(h: Hash, v: Vars): Hash {
    [Add(h[0], v.a), Add(h[1], v.b), Add(h[2], v.c), Add(h[3], v.d), Add(h[4], v.e), Add(h[5], v.f), Add(h[6], v.g), Add(h[7], v.h)]
  }

  lemma IsPlus(h: Hash, v: Vars, s: seq<Word>)
    requires |s| == 8 && s[0] == Add(h[0], v.a) && s[1] == Add(h[1], v.b) && s[2] == Add(h[2], v.c) && s[3] == Add(h[3], v.d)
    requires s[4] == Add(h[4], v.e) && s[5] == Add(h[5], v.f) && s[6] == Add(h[6], v.g) && s[7] == Add(h[7], v.h)
    ensures s == Plus(h, v)
  {
    hide Add;
  }

  function Compress(h: Hash, b: Block): Hash {
    Plus(h, Rounds(VarsOf(h), b, 64))
  }

  /** All blocks of a whole number of blocks, the last one last. */
  function HashBlocks(bs: seq<Byte>): Hash
    requires |bs| % 64 == 0
  {
    if bs == [] then H0 else Compress(HashBlocks(bs[..|bs| - 64]), bs[|bs| - 64..])
  }

  lemma OneMoreBlock(bs: seq<Byte>, b: Block)
    requires |bs| % 64 == 0
    ensures HashBlocks(bs + b) == Compress(HashBlocks(bs), b)
  {
    assert (bs + b)[..|bs + b| - 64] == bs && (bs + b)[|bs + b| - 64..] == b;
  }

  function Bytes(h: seq<Word>): (b: seq<Byte>)
    ensures |b| == 4 * |h|
  {
    if h == [] then [] else Bytes(h[..|h| - 1]) + ToBytes32(h[|h| - 1])
  }

  /** The SHA-256 digest of a message. */
  function Digest(m: seq<Byte>): (d: seq<Byte>)
    ensures |d| == 32
  {
    Bytes(HashBlocks(Padded(m)))
  }

  lemma NextWord(b: Block, i: nat, w2: Word, w7: Word, w15: Word, w16: Word)
    requires 16 <= i && w2 == W(b, i - 2) && w7 == W(b, i - 7) && w15 == W(b, i - 15) && w16 == W(b, i - 16)
    ensures W(b, i) == Mixed(w2, w7, w15, w16)
  {
    hide Mixed, MessageWord;
  }

  // ---------------------------------------------------------------- what the context holds

  /** The whole blocks of a message, and the rest. */
  function Whole(m: seq<Byte>): (w: seq<Byte>)
    ensures |w| % 64 == 0
  {
    m[..|m| - |m| % 64]
  }

  function Rest(m: seq<Byte>): (r: seq<Byte>)
    ensures |r| == |m| % 64 && m == Whole(m) + r
  {
    m[|m| - |m| % 64..]
  }

  lemma WholeOf(w: seq<Byte>, r: seq<Byte>)
    requires |w| % 64 == 0 && |r| < 64
    ensures Whole(w + r) == w && Rest(w + r) == r
  {
    assert |w + r| % 64 == |r|;
  }

  /** The context has absorbed m: every whole block is in the state, the rest is in the buffer. */
  ghost predicate Holds(state: seq<Word>, buf: seq<Byte>, n: nat, m: seq<Byte>) {
    |buf| == 64 && n == |Rest(m)| && state == HashBlocks(Whole(m)) && buf[..n] == Rest(m)
  }

  lemma HoldsNothing(state: seq<Word>, buf: seq<Byte>, m: seq<Byte>)
    requires state == H0 && |buf| == 64 && m == []
    ensures Holds(state, buf, 0, m) && BitLength(|m|) == 0
  {
    hide H0, Compress;
    assert Whole(m) == m && Rest(m) == m;
  }

  lemma Absorbs(state: seq<Word>, buf: seq<Byte>, n: nat, m: seq<Byte>, d: seq<Byte>, buf': seq<Byte>)
    requires Holds(state, buf, n, m) && n + |d| < 64 && |buf'| == 64 && buf'[..n + |d|] == buf[..n] + d
    ensures Holds(state, buf', n + |d|, m + d)
  {
    hide HashBlocks, Whole, Rest;
    WholeOf(Whole(m), Rest(m) + d);
    assert m + d == Whole(m) + (Rest(m) + d);
  }

  lemma AbsorbsBlock(state: seq<Word>, buf: seq<Byte>, n: nat, m: seq<Byte>, d: seq<Byte>, buf': seq<Byte>)
    requires Holds(state, buf, n, m) && n + |d| == 64 && |buf'| == 64 && buf' == buf[..n] + d
    ensures Holds(Compress(state, buf'), buf', 0, m + d)
  {
    hide Compress, HashBlocks, Whole, Rest;
    assert m + d == (Whole(m) + buf') + [];
    OneMoreBlock(Whole(m), buf');
    WholeOf(Whole(m) + buf', []);
  }

  /** The one or two blocks left when all whole blocks are hashed. */
  function HashTail(h: Hash, p: seq<Byte>): Hash {
    if |p| == 64 then Compress(h, p) else if |p| == 128 then Compress(Compress(h, p[..64]), p[64..]) else h
  }

  lemma LastBlocks(m: seq<Byte>, p: seq<Byte>)
    requires p == Rest(m) + Padding(|m|)
    ensures HashBlocks(Padded(m)) == HashTail(HashBlocks(Whole(m)), p)
  {
    hide Compress, HashBlocks, Padding, Whole, Rest;
    var full := Whole(m);
    assert Padded(m) == full + p;
    if |Rest(m)| < 56 {
      OneMoreBlock(full, p);
    } else {
      OneMoreBlock(full, p[..64]);
      OneMoreBlock(full + p[..64], p[64..]);
      assert full + p == full + p[..64] + p[64..];
    }
  }

  /** p is the tail, the 0x80, the zeros and the length, in one block or two. */
  ghost predicate Pieces(tail: seq<Byte>, p: seq<Byte>, len: seq<Byte>) {
    if |tail| < 56 then tail + [0x80] + Zeros(55 - |tail|) + len == p
    else |tail| < 64 && |p| == 128 && tail + [0x80] + Zeros(63 - |tail|) == p[..64] && Zeros(56) + len == p[64..]
  }

  lemma PaddingPieces(tail: seq<Byte>, n: nat, len: seq<Byte>)
    requires |tail| == n % 64 && len == BigEndian(BitLength(n), 8)
    ensures Pieces(tail, tail + Padding(n), len)
  {
    hide BigEndian, BitLength;
    assert Padding(n) == [0x80] + Zeros(ZeroCount(n)) + len;
  }

  /** Byte i of the length field, as the loop of sha256_final cuts it out. */
  lemma {:induction false} LengthByte(v: nat, n: nat, i: nat)
    requires i < n
    ensures BigEndian(v, n)[i] == v / Pow256(n - 1 - i) % 256
  {
    if i < n - 1 {
      LengthByte(v / 256, n - 1, i);
      DivDiv(v, Pow256(n - 2 - i));
    }
  }

  lemma DivDiv(v: nat, p: nat)
    requires p > 0
    ensures v / 256 / p == v / (256 * p)
  {
    var q := v / 256 / p;
    var r := v / 256 % p;
    assert v / 256 == p * q + r;
    assert v == 256 * (p * q + r) + v % 256;
    assert 256 * (p * q) == (256 * p) * q;
    var s := 256 * r + v % 256;
    assert s < 256 * p;
    Quotient(v, 256 * p, q, s);
  }

  lemma Quotient(v: nat, d: nat, q: nat, s: nat)
    requires v == d * q + s && s < d
    ensures v / d == q
  {
    var e := v / d;
    assert v == d * e + v % d;
    if e < q {
      Grows(d, e, q);
    } else if e > q {
      Grows(d, q, e);
    }
  }

  lemma Grows(d: nat, a: nat, b: nat)
    requires a < b
    ensures d * a + d <= d * b
  {
    assert d * b == d * a + d * (b - a);
    assert d * (b - a) == d + d * (b - a - 1);
  }

  lemma PieceJoins(m: seq<Byte>, data: seq<Byte>, p: nat, take: nat)
    requires p + take <= |data|
    ensures (m + data[..p]) + data[p..p + take] == m + data[..p + take]
  {}

  lemma LowBitsAre(x: nat, q: nat, m: nat)
    requires x == (U64_MAX + 1) * q + m && m <= U64_MAX
    ensures x % (U64_MAX + 1) == m
  {}

  lemma BitsAdd(n: nat, k: nat)
    ensures BitLength(n + k) == (BitLength(n) + k * 8) % (U64_MAX + 1)
  {
    var q := 8 * n / (U64_MAX + 1);
    var r := (BitLength(n) + k * 8) / (U64_MAX + 1);
    LowBitsAre(8 * (n + k), q + r, (BitLength(n) + k * 8) % (U64_MAX + 1));
  }

  // ---------------------------------------------------------------- the code

  class Context {
    const state: array<Word>
    const buf: array<Byte>
    var buflen: nat
    var bitlen: U64
    /** All that was hashed since sha256_init. */
    ghost var msg: seq<Byte>

    ghost predicate Shape()
      reads this
    {
      state.Length == 8 && buf.Length == 64
    }

    ghost predicate Valid()
      reads this, state, buf
    {
      && Shape() && buflen < 64
      && Holds(state[..], buf[..], buflen, msg)
      && bitlen == BitLength(|msg|)
    }

    constructor ()
      ensures Valid() && msg == [] && fresh(state) && fresh(buf)
    {
      state := new Word[8];
      buf := new Byte[64](_ => 0);
      buflen, bitlen, msg := 0, 0, [];
      new;
      Init();
    }

    /** sha256_init. */
    method Init()
      requires Shape()
      modifies this`buflen, this`bitlen, this`msg, state
      ensures Valid() && msg == []
    {
      hide Holds, BitLength;
      for i := 0 to 8
        invariant state[..i] == H0[..i]
      {
        state[i] := H0[i];
      }
      assert state[..] == H0;
      buflen, bitlen, msg := 0, 0, [];
      HoldsNothing(state[..], buf[..], msg);
    }

    /** The first loop of transform. */
    method Load(w: array<Word>, b: Block)
      requires w.Length == 64
      modifies w
      ensures forall t: nat :: t < 16 ==> w[t] == W(b, t)
    {
      for i := 0 to 16
        invariant forall t: nat :: t < i ==> w[t] == MessageWord(b, t)
      {
        hide MessageWord;
        w[i] := MessageWord(b, i);
      }
    }

    /** The second loop of transform. */
    method Expand(w: array<Word>, ghost b: Block)
      requires w.Length == 64 && forall t: nat :: t < 16 ==> w[t] == W(b, t)
      modifies w
      ensures forall t: nat :: t < 64 ==> w[t] == W(b, t)
    {
      hide W, Mixed;
      for i := 16 to 64
        invariant forall t: nat :: t < i ==> w[t] == W(b, t)
      {
        NextWord(b, i, w[i - 2], w[i - 7], w[i - 15], w[i - 16]);
        w[i] := Mixed(w[i - 2], w[i - 7], w[i - 15], w[i - 16]);
      }
    }

    /** The last lines of transform. */
    method AddTo(v: Vars)
      requires Shape()
      modifies state
      ensures state[..] == Plus(old(state[..]), v)
    {
      hide Add, Plus;
      ghost var h := state[..];
      state[0], state[1], state[2], state[3] := Add(state[0], v.a), Add(state[1], v.b), Add(state[2], v.c), Add(state[3], v.d);
      state[4], state[5], state[6], state[7] := Add(state[4], v.e), Add(state[5], v.f), Add(state[6], v.g), Add(state[7], v.h);
      IsPlus(h, v, state[..]);
    }

    /** transform, of the buffer. */
    method Transform()
      requires Shape()
      modifies state
      ensures state[..] == Compress(old(state[..]), buf[..])
    {
      ghost var h0: Hash, blk: Block := state[..], buf[..];
      var w := new Word[64];
      Load(w, buf[..]);
      Expand(w, blk);
      var a, b, cc, d := state[0], state[1], state[2], state[3];
      var e, f, g, h := state[4], state[5], state[6], state[7];
      ghost var v0 := VarsOf(h0);
      for i := 0 to 64
        invariant Vars(a, b, cc, d, e, f, g, h) == Rounds(v0, blk, i)
      {
        hide W, Constant, T1, T2, Add;
        var t1 := T1(e, f, g, h, Constant(i), w[i]);
        var t2 := T2(a, b, cc);
        h := g; g := f; f := e; e := Add(d, t1);
        d := cc; cc := b; b := a; a := Add(t1, t2);
      }
      AddTo(Vars(a, b, cc, d, e, f, g, h));
    }

    /** The memcpy of sha256_update. */
    method Fill(data: seq<Byte>, p: nat, take: nat)
      requires Shape() && buflen + take <= 64 && p + take <= |data|
      modifies this`buflen, buf
      ensures buflen == old(buflen) + take
      ensures buf[..buflen] == old(buf[..buflen]) + data[p..p + take]
    {
      ghost var was := buf[..buflen];
      for i := 0 to take
        invariant buflen == old(buflen) && buf[..buflen + i] == was + data[p..p + i]
      {
        buf[buflen + i] := data[p + i];
        assert buf[..buflen + i + 1] == buf[..buflen + i] + [data[p + i]];
        assert data[p..p + i + 1] == data[p..p + i] + [data[p + i]];
      }
      buflen := buflen + take;
    }

    /** One turn of the loop of sha256_update. */
    method Absorb(data: seq<Byte>, p: nat, take: nat)
      requires Shape() && buflen < 64 && Holds(state[..], buf[..], buflen, msg)
      requires p + take <= |data| && buflen + take <= 64
      modifies this`buflen, this`msg, state, buf
      ensures buflen < 64 && Holds(state[..], buf[..], buflen, msg) && msg == old(msg) + data[p..p + take]
    {
      ghost var s, b, n, d := state[..], buf[..], buflen, data[p..p + take];
      Fill(data, p, take);
      ghost var b' := buf[..];
      assert b'[..n + take] == b[..n] + d;
      hide Compress, HashBlocks, Holds;
      if buflen == 64 {
        assert b'[..64] == b';
        AbsorbsBlock(s, b, n, msg, d, b');
        Transform();
        buflen := 0;
      } else {
        Absorbs(s, b, n, msg, d, b');
      }
      msg := msg + d;
    }

    /** sha256_update: appends to the message. */
    method Update(data: seq<Byte>)
      requires Valid()
      modifies this`buflen, this`bitlen, this`msg, state, buf
      ensures Valid() && msg == old(msg) + data
    {
      hide HashBlocks, Holds, BitLength;
      BitsAdd(|msg|, |data|);
      bitlen := (bitlen + |data| * 8) % (U64_MAX + 1);
      ghost var m := msg;
      var p, len := 0, |data|;
      assert m + data[..0] == m;
      while len > 0
        invariant bitlen == BitLength(|m| + |data|) && 0 <= p <= |data| && p + len == |data| && Shape() && buflen < 64
        invariant Holds(state[..], buf[..], buflen, msg) && msg == m + data[..p]
      {
        var take := 64 - buflen;
        if take > len {
          take := len;
        }
        Absorb(data, p, take);
        PieceJoins(m, data, p, take);
        p := p + take;
        len := len - take;
      }
      assert data[..p] == data;
      assert |msg| == |m| + |data|;
    }

    /** The zero-filling loops of sha256_final. */
    method ZeroTo(limit: nat)
      requires Shape() && buflen <= limit <= 64
      modifies this`buflen, buf
      ensures buflen == limit && buf[..limit] == old(buf[..buflen]) + Zeros(limit - old(buflen))
    {
      ghost var was, n := buf[..buflen], buflen;
      while buflen < limit
        invariant n <= buflen <= limit && buf[..buflen] == was + Zeros(buflen - n)
      {
        buf[buflen] := 0;
        buflen := buflen + 1;
        assert buf[..buflen] == buf[..buflen - 1] + [0];
        assert Zeros(buflen - n) == Zeros(buflen - 1 - n) + [0];
      }
    }

    /** The case of sha256_final in which the length does not fit behind the 0x80. */
    method Spill()
      requires Shape() && 56 < buflen <= 64
      modifies this`buflen, state, buf
      ensures state[..] == Compress(old(state[..]), old(buf[..buflen]) + Zeros(64 - old(buflen)))
      ensures buflen == 56 && buf[..56] == Zeros(56)
    {
      hide Compress, Zeros;
      ZeroTo(64);
      assert buf[..] == buf[..64];
      Transform();
      buflen := 0;
      ghost var none := buf[..0];
      ZeroTo(56);
      assert none + Zeros(56) == Zeros(56);
    }

    /** The length loop of sha256_final. */
    method PutLength(bits: U64)
      requires Shape()
      modifies buf
      ensures buf[..] == old(buf[..56]) + BigEndian(bits, 8)
    {
      ghost var was := buf[..56];
      for i := 0 to 8
        invariant buf[..56 + i] == was + BigEndian(bits, 8)[..i]
      {
        LengthByte(bits, 8, i);
        hide BigEndian, Pow256;
        buf[56 + i] := bits / Pow256(7 - i) % 256;
        assert buf[..56 + i + 1] == buf[..56 + i] + [buf[56 + i]];
      }
      assert buf[..64] == buf[..];
    }

    /** The store_be32 loop. */
    method Store() returns (out: seq<Byte>)
      requires Shape()
      ensures out == Bytes(state[..])
    {
      out := [];
      for i := 0 to 8
        invariant out == Bytes(state[..i])
      {
        assert state[..i + 1][..i] == state[..i];
        out := out + ToBytes32(state[i]);
      }
      assert state[..8] == state[..];
    }

    method Mark()
      requires Shape() && buflen < 64
      modifies this`buflen, buf
      ensures buflen == old(buflen) + 1 && buf[..buflen] == old(buf[..buflen]) + [0x80]
    {
      buf[buflen] := 0x80;
      buflen := buflen + 1;
    }

    /** sha256_final up to the stores: the one or two last blocks, whose bytes are p. */
    method HashRest(ghost tail: seq<Byte>, ghost p: seq<Byte>)
      requires Shape() && buflen == |tail| < 64 && buf[..buflen] == tail && Pieces(tail, p, BigEndian(bitlen, 8))
      modifies this`buflen, state, buf
      ensures state[..] == HashTail(old(state[..]), p)
    {
      hide Compress, BigEndian, Zeros;
      ghost var len := BigEndian(bitlen, 8);
      var bits := bitlen;
      Mark();
      if buflen > 56 {
        Spill();
        assert buf[..56] + len == p[64..];
      } else {
        ZeroTo(56);
        assert buf[..56] + len == p;
      }
      PutLength(bits);
      Transform();
    }

    /** The padding and the last one or two blocks. */
    method PadAndHash()
      requires Valid()
      modifies this`buflen, state, buf
      ensures Shape() && state[..] == HashBlocks(Padded(msg))
    {
      ghost var tail := Rest(msg);
      ghost var p := tail + Padding(|msg|);
      LastBlocks(msg, p);
      PaddingPieces(tail, |msg|, BigEndian(bitlen, 8));
      hide Compress, HashBlocks, Padded, Padding, BigEndian, HashTail, Pieces, Whole, Rest;
      HashRest(tail, p);
    }

    /** sha256_final: the digest of all that was hashed, and a context ready for the next message. */
    method Final() returns (out: seq<Byte>)
      requires Valid()
      modifies this`buflen, this`bitlen, this`msg, state, buf
      ensures out == Digest(old(msg)) && Valid() && msg == []
    {
      hide HashBlocks, Padded, Holds, Bytes;
      PadAndHash();
      out := Store();
      Init();
    }
  }

  function Joined(chunks: seq<seq<Byte>>): seq<Byte> {
    if chunks == [] then [] else Joined(chunks[..|chunks| - 1]) + chunks[|chunks| - 1]
  }

  /** Streaming equals one-shot: the digest of any message, whatever pieces it arrives in. */
  method HashPieces(chunks: seq<seq<Byte>>) returns (out: seq<Byte>)
    ensures out == Digest(Joined(chunks))
  {
    hide Digest, Holds, HashBlocks;
    var c := new Context();
    for i := 0 to |chunks|
      invariant fresh(c) && fresh(c.state) && fresh(c.buf) && c.Valid() && c.msg == Joined(chunks[..i])
    {
      assert chunks[..i + 1][..i] == chunks[..i];
      c.Update(chunks[i]);
    }
    assert chunks[..|chunks|] == chunks;
    out := c.Final();
  }
}
