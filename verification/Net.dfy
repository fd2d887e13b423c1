/** Netmasks and interfaces (src/utils.c, src/interface.c). */
module Net {
  import opened Basics

  datatype Iface = Iface(name: string, mac: Mac, ip: Ip, netmask: Ip, ifindex: int)

  const ALL_ONES: Ip := 0xFFFF_FFFF

  /** mask_from_prefix. */
  function MaskFromPrefix(len: int): Ip {
    if len <= 0 then 0
    else if len >= 32 then ALL_ONES
    else ALL_ONES << (32 - len)
  }

  function Longer(m: Ip): Ip {
    (m >> 1) | 0x8000_0000
  }

  /** The mask of a prefix length, one bit at a time. */
  function Mask(len: nat): Ip {
    if len == 0 then 0 else (Mask(len - 1) >> 1) | 0x8000_0000
  }

  function BitLength(x: bv32): nat
    decreases x
  {
    if x == 0 then 0 else Halves(x); 1 + BitLength(x >> 1)
  }

  lemma Halves(x: bv32)
    requires x != 0
    ensures x >> 1 < x
  {}

  /** The length of the host part: 32 less the leading zeros of the complement. */
  function HostBits(m: Ip): nat {
    BitLength(!m)
  }

  /** prefix_len: the leading zeros of the complement, which the compiler leaves open for an all-ones mask (clz0). */
  function PrefixLen(mask: Ip, clz0: int): int {
    if mask == 0 then 0
    else if mask == ALL_ONES then clz0
    else 32 - HostBits(mask)
  }

  lemma ShiftStep(a: bv32)
    requires 1 <= a <= 32
    ensures Longer(ALL_ONES << a) == ALL_ONES << (a - 1)
  {}

  lemma ShiftEnds(a: bv32)
    requires a <= 32
    ensures ALL_ONES << a == ALL_ONES <==> a == 0
    ensures ALL_ONES << a == 0 <==> a == 32
  {}

  lemma SmallShift(n: nat)
    requires n <= 32
    ensures n as bv32 == (n as bv8) as bv32 && (n as bv8) as int == n
    ensures n as bv32 <= 32 && (n as bv32 == 0 <==> n == 0) && (n as bv32 == 32 <==> n == 32)
  {}

  lemma ShiftBelow(n: nat)
    requires 1 <= n <= 32
    ensures (n - 1) as bv32 == n as bv32 - 1 && n as bv32 >= 1
  {
    SmallShift(n);
    SmallShift(n - 1);
    Below8(n as bv8, (n - 1) as bv8);
  }

  lemma Below8(x: bv8, y: bv8)
    requires x as int == y as int + 1
    ensures y as bv32 == x as bv32 - 1 && x as bv32 >= 1
  {}

  function Shifted(n: nat): Ip
    requires n <= 32
  {
    SmallShift(n);
    ALL_ONES << (n as bv32)
  }

  lemma ShiftedStep(n: nat)
    requires 1 <= n <= 32
    ensures Longer(Shifted(n)) == Shifted(n - 1)
  {
    SmallShift(n);
    ShiftBelow(n);
    ShiftStep(n as bv32);
  }

  lemma ShiftedEnds(n: nat)
    requires n <= 32
    ensures Shifted(n) == ALL_ONES <==> n == 0
    ensures Shifted(n) == 0 <==> n == 32
  {
    SmallShift(n);
    ShiftEnds(n as bv32);
  }

  lemma ShiftForm(len: nat)
    requires len <= 32
    ensures MaskFromPrefix(len) == Shifted(32 - len)
  {
    ShiftedEnds(32 - len);
  }

  lemma {:induction false} ShiftedIsMask(len: nat)
    requires len <= 32
    ensures Shifted(32 - len) == Mask(len)
  {
    hide Shifted, Longer, Mask;
    if len > 0 {
      ShiftedIsMask(len - 1);
      ShiftedStep(33 - len);
      MaskStep(len - 1);
    } else {
      ShiftedEnds(32 - len);
      NoMask(len);
    }
  }

  lemma NoMask(len: nat)
    requires len == 0
    ensures Mask(len) == 0
  {}

  /** The shift of mask_from_prefix gives the mask of that many leading ones. */
  lemma MaskIs(len: nat)
    requires len <= 32
    ensures MaskFromPrefix(len) == Mask(len)
    ensures Mask(len) == ALL_ONES <==> len == 32
    ensures Mask(len) == 0 <==> len == 0
  {
    hide MaskFromPrefix, Shifted;
    ShiftForm(len);
    ShiftedIsMask(len);
    ShiftedEnds(32 - len);
  }

  lemma MaskStep(len: nat)
    ensures Mask(len + 1) == Longer(Mask(len))
  {}

  lemma HostBitsStep(m: Ip)
    ensures HostBits(m) == if m == ALL_ONES then 0 else 1 + HostBits(Longer(m))
  {
    assert !((m >> 1) | 0x8000_0000) == (!m) >> 1;
    assert !m == 0 <==> m == ALL_ONES;
  }

  lemma {:induction false} HostBitsOfMask(len: nat)
    requires len <= 32
    ensures HostBits(Mask(len)) == 32 - len
    decreases 32 - len
  {
    hide HostBits, Longer, MaskFromPrefix;
    MaskIs(len);
    HostBitsStep(Mask(len));
    if len < 32 {
      MaskStep(len);
      HostBitsOfMask(len + 1);
    }
  }

  /** prefix_len inverts mask_from_prefix, except that a host mask gives whatever clz(0) gives. */
  lemma PrefixLenOfMask(len: nat, clz0: int)
    requires len <= 32
    ensures PrefixLen(MaskFromPrefix(len), clz0) == if len == 32 then clz0 else len
  {
    hide HostBits, Longer, MaskFromPrefix;
    MaskIs(len);
    HostBitsOfMask(len);
  }

  lemma {:induction false} MaskGrows(len: nat)
    requires len < 32
    ensures Mask(len) & Mask(len + 1) == Mask(len)
  {
    if len == 0 {
      ZeroAnd(Mask(1));
    } else {
      MaskGrows(len - 1);
      MaskStep(len - 1);
      MaskStep(len);
      GrowStep(Mask(len - 1), Mask(len));
    }
  }

  lemma ZeroAnd(m: bv32)
    ensures 0 & m == 0 && m & m == m
  {}

  lemma GrowStep(m: bv32, m1: bv32)
    ensures Longer(m) & Longer(m1) == Longer(m & m1)
  {}

  /** Shorter prefixes are parts of longer ones. */
  lemma {:induction false} MasksNest(p: nat, q: nat)
    requires p <= q <= 32
    ensures Mask(p) & Mask(q) == Mask(p)
  {
    if p < q {
      MasksNest(p, q - 1);
      MaskGrows(q - 1);
      AndAssoc(Mask(p), Mask(q - 1), Mask(q));
    } else {
      ZeroAnd(Mask(p));
    }
  }

  lemma AndAssoc(a: bv32, b: bv32, c: bv32)
    ensures (a & b) & c == a & (b & c)
  {}

  lemma AndComm(a: bv32, b: bv32)
    ensures a & b == b & a
  {}

  ghost predicate IsMask(m: Ip) {
    exists len: nat :: len <= 32 && m == Mask(len)
  }

  /** The length of a contiguous mask. */
  ghost function LengthOf(m: Ip): (len: nat)
    requires IsMask(m)
    ensures len <= 32 && m == Mask(len)
  {
    var len: nat :| len <= 32 && m == Mask(len);
    len
  }

  /** The addresses of a network. */
  predicate InNet(a: Ip, dest: Ip, mask: Ip) {
    a & mask == dest
  }

  /** Of two networks that share an address, the one with the longer mask is inside the other. */
  lemma NetsNest(a: Ip, dest1: Ip, mask1: Ip, dest2: Ip, mask2: Ip, x: Ip)
    requires IsMask(mask1) && IsMask(mask2) && LengthOf(mask1) <= LengthOf(mask2)
    requires InNet(a, dest1, mask1) && InNet(a, dest2, mask2) && InNet(x, dest2, mask2)
    ensures InNet(x, dest1, mask1)
  {
    MasksNest(LengthOf(mask1), LengthOf(mask2));
    AndComm(mask1, mask2);
    AndAssoc(a, mask2, mask1);
    AndAssoc(x, mask2, mask1);
  }

  // ---------------------------------------------------------------- the interface table

  function FirstByIndex(ifs: seq<Iface>, ifindex: int): (i: int)
    ensures -1 <= i < |ifs|
    ensures i >= 0 ==> ifs[i].ifindex == ifindex
    ensures i < 0 ==> forall j :: 0 <= j < |ifs| ==> ifs[j].ifindex != ifindex
  {
    if ifs == [] then -1
    else if ifs[0].ifindex == ifindex then 0
    else
      var i := FirstByIndex(ifs[1..], ifindex);
      assert forall j :: 0 < j < |ifs| ==> ifs[j] == ifs[1..][j - 1];
      if i < 0 then -1 else i + 1
  }

  /** No two interfaces have the same index. */
  predicate UniqueIndices(ifs: seq<Iface>) {
    forall i, j :: 0 <= i < j < |ifs| ==> ifs[i].ifindex != ifs[j].ifindex
  }

  predicate HasIp(ifs: seq<Iface>, ip: Ip) {
    exists i :: 0 <= i < |ifs| && ifs[i].ip == ip
  }

  predicate IsMulticast(ip: Ip) {
    ip >> 28 == 0xE
  }

  predicate IsBroadcastOn(it: Iface, ip: Ip) {
    it.ip != 0 && ip & it.netmask == it.ip & it.netmask && ip & !it.netmask == !it.netmask
  }

  predicate IsBroadcast(ifs: seq<Iface>, ip: Ip) {
    ip == ALL_ONES || exists i :: 0 <= i < |ifs| && IsBroadcastOn(ifs[i], ip)
  }

  /** is_broadcast. */
  method CheckBroadcast(ifs: seq<Iface>, ip: Ip) returns (b: bool)
    ensures b == IsBroadcast(ifs, ip)
  {
    hide IsBroadcastOn;
    if ip == ALL_ONES {
      return true;
    }
    for i := 0 to |ifs|
      invariant forall j :: 0 <= j < i ==> !IsBroadcastOn(ifs[j], ip)
    {
      if IsBroadcastOn(ifs[i], ip) {
        return true;
      }
    }
    return false;
  }

  // ---------------------------------------------------------------- what the bit tests mean

  /** 224.0.0.0 to 239.255.255.255. */
  lemma MulticastIs(ip: Ip)
    ensures IsMulticast(ip) <==> 0xE000_0000 <= ip <= 0xEFFF_FFFF
  {}

  /** The one address of a network whose host part is all ones. */
  ghost predicate IsLastOf(it: Iface, ip: Ip) {
    it.ip != 0 && ip == it.ip | !it.netmask
  }

  lemma BroadcastIsLast(it: Iface, ip: Ip)
    requires IsBroadcastOn(it, ip)
    ensures IsLastOf(it, ip)
  {}

  ghost predicate HostOnes(ip: Ip, m: Ip) {
    ip & !m == !m
  }

  lemma LastAgrees(it: Iface, ip: Ip)
    requires IsLastOf(it, ip)
    ensures it.ip != 0 && Agree(ip, it.ip, it.netmask)
  {}

  lemma LastIsOnes(it: Iface, ip: Ip)
    requires IsLastOf(it, ip)
    ensures HostOnes(ip, it.netmask)
  {}

  lemma OnesBroadcast(it: Iface, ip: Ip)
    requires it.ip != 0 && Agree(ip, it.ip, it.netmask) && HostOnes(ip, it.netmask)
    ensures IsBroadcastOn(it, ip)
  {}

  lemma LastIsBroadcast(it: Iface, ip: Ip)
    requires IsLastOf(it, ip)
    ensures IsBroadcastOn(it, ip)
  {
    hide IsBroadcastOn, IsLastOf, Agree, HostOnes;
    LastAgrees(it, ip);
    LastIsOnes(it, ip);
    OnesBroadcast(it, ip);
  }

  lemma BroadcastIs(it: Iface, ip: Ip)
    ensures IsBroadcastOn(it, ip) <==> IsLastOf(it, ip)
  {
    hide IsBroadcastOn, IsLastOf;
    if IsBroadcastOn(it, ip) {
      BroadcastIsLast(it, ip);
    }
    if IsLastOf(it, ip) {
      LastIsBroadcast(it, ip);
    }
  }

  /** The first len bits of an address: without its last 32 - len. */
  function Leading(a: Ip, len: nat): Ip
    requires len <= 32
    decreases 32 - len
  {
    if len == 32 then a else Leading(a >> 1, len + 1)
  }

  lemma MaskShrinks(len: nat)
    requires len < 32
    ensures Mask(len) == Mask(len + 1) << 1
  {
    hide Mask, Longer;
    ShiftedIsMask(len);
    ShiftedIsMask(len + 1);
    ShiftBelow(32 - len);
    SmallShift(32 - len);
    OneMore((32 - len) as bv32);
  }

  lemma OneMore(n: bv32)
    requires 1 <= n <= 32
    ensures ALL_ONES << n == (ALL_ONES << (n - 1)) << 1
  {}

  ghost predicate Agree(a: Ip, b: Ip, m: Ip) {
    a & m == b & m
  }

  lemma HalvesAgree(a: Ip, b: Ip, m: Ip)
    requires Agree(a, b, m << 1)
    ensures Agree(a >> 1, b >> 1, m)
  {}

  lemma DoublesAgree(a: Ip, b: Ip, m: Ip)
    requires Agree(a >> 1, b >> 1, m)
    ensures Agree(a, b, m << 1)
  {}

  lemma AgreeAll(a: Ip, b: Ip, m: Ip)
    requires m == ALL_ONES
    ensures Agree(a, b, m) <==> a == b
  {}

  /** Two addresses agree under a mask exactly when they agree in as many leading bits. */
  lemma {:induction false} SameNetwork(a: Ip, b: Ip, len: nat)
    requires len <= 32
    ensures Agree(a, b, Mask(len)) <==> Leading(a, len) == Leading(b, len)
    decreases 32 - len
  {
    hide Mask, Agree;
    if len == 32 {
      MaskIs(32);
      AgreeAll(a, b, Mask(len));
    } else {
      SameNetwork(a >> 1, b >> 1, len + 1);
      MaskShrinks(len);
      if Agree(a, b, Mask(len)) {
        HalvesAgree(a, b, Mask(len + 1));
      }
      if Agree(a >> 1, b >> 1, Mask(len + 1)) {
        DoublesAgree(a, b, Mask(len + 1));
      }
    }
  }
}
