/** Types, constants and small helpers shared by every module (src/router.h). */
module Basics {

  datatype Option<+T> = None | Some(value: T)

  type Byte = x: int | 0 <= x < 256

  /** An address or a netmask: the four bytes a.b.c.d as a << 24 | b << 16 | c << 8 | d. */
  type Ip = bv32

  const U64_MAX := 0xFFFF_FFFF_FFFF_FFFF

  /** Seconds of the monotonic clock, or any other uint64_t. */
  type U64 = x: int | 0 <= x <= U64_MAX

  type Mac = m: seq<Byte> | |m| == 6 witness [0, 0, 0, 0, 0, 0]

  /** What an ARP entry and a pending node are keyed by: an address on one interface. */
  datatype Key = Key(ip: Ip, ifidx: int)

  function Min(a: nat, b: nat): (m: nat)
    ensures m <= a && m <= b
  {
    if a < b then a else b
  }

  function Without<T>(s: seq<T>, i: nat): seq<T>
    requires i < |s|
  {
    s[..i] + s[i + 1..]
  }

  /** A table while an entry is removed from it: the entries behind it up to i have moved down by one. */
  function Closing<T>(s: seq<T>, index: nat, i: nat): seq<T>
    requires index <= i < |s|
  {
    s[..index] + s[index + 1..i + 1] + s[i..]
  }

  lemma CloseStarts<T>(s: seq<T>, index: nat)
    requires index < |s|
    ensures Closing(s, index, index) == s
  {}

  lemma CloseMoves<T>(s: seq<T>, index: nat, i: nat)
    requires index <= i < |s| - 1
    ensures |Closing(s, index, i)| == |s| && Closing(s, index, i)[i + 1] == s[i + 1]
    ensures Closing(s, index, i)[i := s[i + 1]] == Closing(s, index, i + 1)
  {}

  lemma CloseEnds<T>(s: seq<T>, index: nat)
    requires index < |s|
    ensures |Closing(s, index, |s| - 1)| == |s| && Closing(s, index, |s| - 1)[..|s| - 1] == s[..index] + s[index + 1..]
  {}

  lemma SubsetSize<T>(a: set<T>, b: set<T>)
    requires a <= b
    ensures |a| <= |b|
  {
    assert b == a + (b - a);
  }

  function Be16(hi: Byte, lo: Byte): int {
    256 * hi + lo
  }

  function Be32(b0: Byte, b1: Byte, b2: Byte, b3: Byte): Ip {
    (b0 as bv32 << 24) | (b1 as bv32 << 16) | (b2 as bv32 << 8) | b3 as bv32
  }

  function LowByte(v: bv32): Byte {
    LowByteSmall(v);
    (v & 0xFF) as int
  }

  lemma LowByteSmall(v: bv32)
    ensures (v & 0xFF) as int < 256
  {
    assert v & 0xFF <= 0xFF;
  }

  /** put_be16. */
  function ToBytes16(v: int): (s: seq<Byte>)
    requires 0 <= v < 0x1_0000
    ensures |s| == 2
  {
    [v / 256, v % 256]
  }

  /** put_be32. */
  function ToBytes32(v: bv32): (s: seq<Byte>)
    ensures |s| == 4
  {
    [LowByte(v >> 24), LowByte(v >> 16), LowByte(v >> 8), LowByte(v)]
  }

  /** The first byte is the most significant one. */
  lemma BytesAreBigEndian()
    ensures Be16(0x12, 0x34) == 0x1234 && ToBytes16(0x1234) == [0x12, 0x34]
    ensures Be32(0x12, 0x34, 0x56, 0x78) == 0x1234_5678 && ToBytes32(0x1234_5678) == [0x12, 0x34, 0x56, 0x78]
  {}

  /** Reading back what put_be32 wrote. */
  lemma BytesOfBe32(b0: Byte, b1: Byte, b2: Byte, b3: Byte)
    ensures ToBytes32(Be32(b0, b1, b2, b3)) == [b0, b1, b2, b3]
  {
    var c0, c1, c2, c3 := b0 as bv32, b1 as bv32, b2 as bv32, b3 as bv32;
    SmallBv(b0);
    SmallBv(b1);
    SmallBv(b2);
    SmallBv(b3);
    Unpack(c0, c1, c2, c3);
  }

  /** Reading what put_be32 wrote gives the word back. */
  lemma Be32OfBytes(ip: Ip)
    ensures var b := ToBytes32(ip); Be32(b[0], b[1], b[2], b[3]) == ip
  {
    var a, b, c, d := (ip >> 24) & 0xFF, (ip >> 16) & 0xFF, (ip >> 8) & 0xFF, ip & 0xFF;
    Back(a);
    Back(b);
    Back(c);
    Back(d);
    Repack(ip);
  }

  lemma Back(v: bv32)
    requires v <= 0xFF
    ensures v as int < 256 && (v as int) as bv32 == v
  {
    var y := v as bv8;
    assert y as bv32 == v;
    assert y as int == v as int;
  }

  lemma Repack(ip: bv32)
    ensures (((ip >> 24) & 0xFF) << 24) | (((ip >> 16) & 0xFF) << 16) | (((ip >> 8) & 0xFF) << 8) | (ip & 0xFF) == ip
  {}

  lemma SmallBv(b: Byte)
    ensures b as bv32 <= 0xFF && (b as bv32) as int == b
  {
    var y := b as bv8;
    assert b as bv32 == y as bv32;
    assert y as int == b;
  }

  lemma Unpack(c0: bv32, c1: bv32, c2: bv32, c3: bv32)
    requires c0 <= 0xFF && c1 <= 0xFF && c2 <= 0xFF && c3 <= 0xFF
    ensures var v := (c0 << 24) | (c1 << 16) | (c2 << 8) | c3;
            (v >> 24) & 0xFF == c0 && (v >> 16) & 0xFF == c1 && (v >> 8) & 0xFF == c2 && v & 0xFF == c3
  {}
}
