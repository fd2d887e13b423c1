/** The Internet checksum (src/packet.c), as in section 1 of RFC 1071. */
module Checksum {
  import opened Basics

  const U32 := 0x1_0000_0000

  /** The sum of the big-endian 16-bit words, an odd last byte padded with zero. */
  function WordSum(b: seq<Byte>): nat {
    if |b| == 0 then 0
    else if |b| == 1 then Be16(b[0], 0)
    else Be16(b[0], b[1]) + WordSum(b[2..])
  }

  /** End-around carry. */
  function Folded(s: nat): (r: nat)
    ensures r < 0x1_0000 && (r == 0 <==> s == 0)
    decreases s
  {
    if s < 0x1_0000 then s else Folded(s % 0x1_0000 + s / 0x1_0000)
  }

  function ChecksumOf(b: seq<Byte>): (c: int)
    ensures 0 <= c < 0x1_0000
  {
    0xFFFF - Folded(WordSum(b) % U32)
  }

  /** Folding keeps the residue modulo 65535. */
  lemma {:induction false} FoldCongruent(s: nat)
    ensures Folded(s) % 0xFFFF == s % 0xFFFF
    decreases s
  {
    if s >= 0x1_0000 {
      var q, r := s / 0x1_0000, s % 0x1_0000;
      FoldCongruent(r + q);
      assert s == (r + q) + 0xFFFF * q;
      ModDrop(r + q, q);
    }
  }

  lemma ModDrop(a: nat, k: nat)
    ensures (a + 0xFFFF * k) % 0xFFFF == a % 0xFFFF
  {
    assert a + 0xFFFF * k == 0xFFFF * (a / 0xFFFF + k) + a % 0xFFFF;
  }

  lemma {:induction false} WordSumSplit(b: seq<Byte>, i: nat)
    requires i <= |b| && i % 2 == 0
    ensures WordSum(b) == WordSum(b[..i]) + WordSum(b[i..])
  {
    if i > 0 {
      WordSumSplit(b[2..], i - 2);
      assert b[..i][2..] == b[2..][..i - 2] && b[i..] == b[2..][i - 2..];
    } else {
      assert b[0..] == b;
    }
  }

  /** The 32-bit accumulator cannot overflow on anything up to 128 KiB, so on no IP header. */
  lemma {:induction false} SumFits(b: seq<Byte>)
    ensures WordSum(b) <= 0xFFFF * ((|b| + 1) / 2)
    ensures |b| <= 0x2_0000 ==> WordSum(b) < U32
  {
    if |b| > 1 {
      SumFits(b[2..]);
    }
  }

  lemma ModAdd(total: nat, w: nat)
    ensures (total % U32 + w) % U32 == (total + w) % U32
  {
    var q := total / U32;
    var r := (total % U32 + w) / U32;
    assert total + w == U32 * (q + r) + (total % U32 + w) % U32;
  }

  /** The first loop of ip_checksum and its odd byte, with the accumulator of 32 bits. */
  method SumOf(buf: seq<Byte>) returns (sum: nat)
    ensures sum == WordSum(buf) % U32
  {
    hide WordSum;
    var i := 0;
    sum := 0;
    ghost var total: nat := 0;
    assert buf[0..] == buf;
    while |buf| - i >= 2
      invariant 0 <= i <= |buf| && sum == total % U32 && total + WordSum(buf[i..]) == WordSum(buf)
    {
      assert buf[i..][2..] == buf[i + 2..];
      WordSumStep(buf[i..]);
      ghost var w := Be16(buf[i], buf[i + 1]);
      ModAdd(total, w);
      total := total + w;
      sum := (sum + Be16(buf[i], buf[i + 1])) % U32;
      i := i + 2;
    }
    WordSumEnds(buf[i..]);
    if i < |buf| {
      ModAdd(total, Be16(buf[i], 0));
      sum := (sum + Be16(buf[i], 0)) % U32;
    }
  }

  lemma WordSumEnds(b: seq<Byte>)
    requires |b| < 2
    ensures WordSum(b) == if b == [] then 0 else Be16(b[0], 0)
  {}

  lemma WordSumStep(b: seq<Byte>)
    requires |b| >= 2
    ensures WordSum(b) == Be16(b[0], b[1]) + WordSum(b[2..])
  {}

  /** ip_checksum. */
  method IpChecksum(buf: seq<Byte>) returns (c: int)
    ensures c == ChecksumOf(buf)
  {
    hide WordSum;
    var sum := SumOf(buf);
    while sum / 0x1_0000 != 0
      invariant Folded(sum) == Folded(WordSum(buf) % U32)
      decreases sum
    {
      sum := sum % 0x1_0000 + sum / 0x1_0000;
    }
    c := 0xFFFF - sum;
  }

  /** The header at `off`, n bytes long, with its checksum field (bytes 10 and 11) recomputed. */
  function Recomputed(f: seq<Byte>, off: nat, n: nat): (f': seq<Byte>)
    requires off + n <= |f|
    ensures |f'| == |f|
    ensures forall i :: 0 <= i < |f| && i != off + 10 && i != off + 11 ==> f'[i] == f[i]
  {
    if n < 12 then f
    else
      var z: seq<Byte> := f[off + 10 := 0][off + 11 := 0];
      var c := ChecksumOf(z[off..off + n]);
      z[off + 10 := c / 256][off + 11 := c % 256]
  }

  /** ip_checksum_recompute. */
  method IpChecksumRecompute(f: seq<Byte>, off: nat, n: nat) returns (f': seq<Byte>)
    requires off + n <= |f|
    ensures f' == Recomputed(f, off, n)
  {
    f' := f;
    if n < 12 {
      return;
    }
    f' := f'[off + 10 := 0];
    f' := f'[off + 11 := 0];
    var c := IpChecksum(f'[off..off + n]);
    f' := f'[off + 10 := c / 256][off + 11 := c % 256];
  }

  /** A receiver that sums the whole recomputed header gets the checksum 0 (section 3.1 of RFC 791). */
  lemma RecomputedVerifies(f: seq<Byte>, off: nat, n: nat)
    requires off + n <= |f| && 12 <= n <= 0x2_0000
    ensures ChecksumOf(Recomputed(f, off, n)[off..off + n]) == 0
  {
    var z: seq<Byte> := f[off + 10 := 0][off + 11 := 0][off..off + n];
    RecomputedHeader(f, off, n, z);
    FieldAdds(z, ChecksumOf(z));
    ShortChecksum(z);
    ShortChecksum(Recomputed(f, off, n)[off..off + n]);
    hide Folded, ChecksumOf, Recomputed;
    SumFoldsToOnes(WordSum(z));
  }

  lemma ShortChecksum(b: seq<Byte>)
    requires |b| <= 0x2_0000
    ensures ChecksumOf(b) == 0xFFFF - Folded(WordSum(b))
  {
    hide Folded, WordSum;
    SumFits(b);
  }

  lemma RecomputedHeader(f: seq<Byte>, off: nat, n: nat, z: seq<Byte>)
    requires off + n <= |f| && 12 <= n && z == f[off + 10 := 0][off + 11 := 0][off..off + n]
    ensures Recomputed(f, off, n)[off..off + n] == z[10 := ChecksumOf(z) / 256][11 := ChecksumOf(z) % 256]
  {
  }

  lemma SumFoldsToOnes(s: nat)
    ensures Folded(s + (0xFFFF - Folded(s))) == 0xFFFF
  {
    var t := s + (0xFFFF - Folded(s));
    FoldCongruent(s);
    FoldCongruent(t);
    MultipleOf(s, Folded(s));
    assert t > 0;
  }

  lemma MultipleOf(s: nat, r: nat)
    requires r % 0xFFFF == s % 0xFFFF && r <= 0xFFFF
    ensures (s + (0xFFFF - r)) % 0xFFFF == 0
  {
    var q := s / 0xFFFF;
    if r == 0xFFFF {
      assert s + (0xFFFF - r) == 0xFFFF * q;
    } else {
      assert s + (0xFFFF - r) == 0xFFFF * (q + 1);
    }
  }

  /** Writing c into a zero checksum field adds c to the sum. */
  lemma FieldAdds(z: seq<Byte>, c: int)
    requires |z| >= 12 && z[10] == z[11] == 0 && 0 <= c < 0x1_0000
    ensures WordSum(z[10 := c / 256][11 := c % 256]) == WordSum(z) + c
  {
    var h: seq<Byte> := z[10 := c / 256][11 := c % 256];
    WordSumSplit(z, 10);
    WordSumSplit(h, 10);
    assert h[..10] == z[..10];
    assert h[10..][2..] == h[12..] == z[12..] == z[10..][2..];
  }

  // ---------------------------------------------------------------- what the checksum is of

  /** The bytes as one number, most significant first. */
  function Number(b: seq<Byte>): nat {
    if b == [] then 0 else 256 * Number(b[..|b| - 1]) + b[|b| - 1]
  }

  lemma NumberStep(b: seq<Byte>, x: Byte, y: Byte)
    ensures Number(b + [x, y]) == 0x1_0000 * Number(b) + Be16(x, y)
  {
    var c, d := b + [x], b + [x, y];
    assert d[..|d| - 1] == c && c[..|c| - 1] == b;
  }

  /** Sixteen bits to the left make no difference modulo 65535. */
  lemma {:induction false} SumIsNumber(b: seq<Byte>)
    requires |b| % 2 == 0
    ensures WordSum(b) % 0xFFFF == Number(b) % 0xFFFF
  {
    if b != [] {
      var c, n := b[..|b| - 2], |b| - 2;
      SumIsNumber(c);
      WordSumSplit(b, n);
      assert b[n..] == [b[n], b[n + 1]] && b == c + [b[n], b[n + 1]];
      NumberStep(c, b[n], b[n + 1]);
      OneWord(b[n], b[n + 1]);
      hide WordSum, Number, Be16;
      var s, v, w := WordSum(c), Number(c), Be16(b[n], b[n + 1]);
      ModDrop(v + w, v);
      assert 0x1_0000 * v + w == v + w + 0xFFFF * v;
      SameResidue(s, v, w);
    }
  }

  lemma OneWord(x: Byte, y: Byte)
    ensures WordSum([x, y]) == Be16(x, y)
  {}

  lemma SameResidue(s: nat, v: nat, w: nat)
    requires s % 0xFFFF == v % 0xFFFF
    ensures (s + w) % 0xFFFF == (v + w) % 0xFFFF
  {}

  /** The header, taken as one number, and its checksum make a multiple of 65535: the ones' complement sum is all ones. */
  lemma ChecksumComplements(b: seq<Byte>)
    requires |b| % 2 == 0 && |b| <= 0x2_0000
    ensures (Number(b) + ChecksumOf(b)) % 0xFFFF == 0
  {
    SumIsNumber(b);
    ShortChecksum(b);
    FoldCongruent(WordSum(b));
    hide WordSum, Number, Folded, ChecksumOf;
    MultipleOf(Number(b), Folded(WordSum(b)));
  }

  /** The example of section 3 of RFC 1071, and an odd byte. */
  lemma Examples()
    ensures ChecksumOf([0x00, 0x01, 0xf2, 0x03, 0xf4, 0xf5, 0xf6, 0xf7]) == 0x220d
    ensures ChecksumOf([0x12]) == 0xedff
  {
    WordSumStep([0x00, 0x01, 0xf2, 0x03, 0xf4, 0xf5, 0xf6, 0xf7]);
    assert [0x00, 0x01, 0xf2, 0x03, 0xf4, 0xf5, 0xf6, 0xf7][2..] == [0xf2, 0x03, 0xf4, 0xf5, 0xf6, 0xf7];
    WordSumStep([0xf2, 0x03, 0xf4, 0xf5, 0xf6, 0xf7]);
    assert [0xf2, 0x03, 0xf4, 0xf5, 0xf6, 0xf7][2..] == [0xf4, 0xf5, 0xf6, 0xf7];
    WordSumStep([0xf4, 0xf5, 0xf6, 0xf7]);
    assert [0xf4, 0xf5, 0xf6, 0xf7][2..] == [0xf6, 0xf7];
    OneWord(0xf6, 0xf7);
    assert Folded(0x2ddf0) == Folded(0xddf2) == 0xddf2;
  }
}
