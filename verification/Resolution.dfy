/**
 How a frame finds its way to the next hop: the request that goes out for it, the owner's answer, and what is
 learned and sent then (src/forward.c, src/arp_proto.c, RFC 826).
 */
module Resolution {
  import opened Basics
  import opened Net
  import opened MemPool
  import opened ForwardSpec
  import opened Forward
  import AT = ArpTable
  import Firewall
  import PS = PendSpec
  import PT = PendTable
  import Route

  /** The block begins with these bytes. */
  predicate Begins(data: seq<Byte>, p: seq<Byte>) {
    |data| == MP_PAYLOAD && |p| <= |data| && data[..|p|] == p
  }

  lemma HalfWord(v: int)
    requires 0 <= v < 0x1_0000
    ensures Be16(ToBytes16(v)[0], ToBytes16(v)[1]) == v
  {}

  /** Where the fields of an ARP packet are when it is read from a block. */
  lemma FieldsRead(data: seq<Byte>, dst: Mac, src: Mac, oper: int, sha: Mac, spa: Ip, tha: Mac, tpa: Ip, i: int)
    requires 0 <= oper < 0x1_0000 && Begins(data, ArpBytes(dst, src, oper, sha, spa, tha, tpa))
    ensures ArpOk(data, 42) && Be16(data[12], data[13]) == 0x0806 && (IsRequest(data) <==> oper == 1)
    ensures data[..6] == dst && data[22..28] == sha && SenderOf(data, i) == Key(spa, i) && TargetOf(data) == tpa
  {
    var e, h, t, o, s, d := ToBytes16(0x0806), ToBytes16(1), ToBytes16(0x0800), ToBytes16(oper), ToBytes32(spa), ToBytes32(tpa);
    Be32OfBytes(spa);
    Be32OfBytes(tpa);
    HalfWord(0x0806);
    HalfWord(1);
    HalfWord(0x0800);
    HalfWord(oper);
    hide ToBytes32, ToBytes16, Be32, Be16;
    Layout(data, dst, src, e, h, t, [6, 4], o, sha, s, tha, d);
    SameBytes(data, 12, e);
    SameBytes(data, 14, h);
    SameBytes(data, 16, t);
    SameBytes(data, 18, [6, 4]);
    SameBytes(data, 20, o);
    SameBytes(data, 28, s);
    SameBytes(data, 38, d);
  }

  lemma SameBytes(data: seq<Byte>, at: nat, field: seq<Byte>)
    requires at + |field| <= |data| && data[at..at + |field|] == field
    ensures forall j :: 0 <= j < |field| ==> data[at + j] == field[j]
  {
    forall j | 0 <= j < |field| ensures data[at + j] == field[j] {
      assert data[at..at + |field|][j] == field[j];
    }
  }

  lemma Layout(data: seq<Byte>, dst: Mac, src: Mac, e: seq<Byte>, h: seq<Byte>, t: seq<Byte>, a: seq<Byte>, o: seq<Byte>, sha: Mac,
               s: seq<Byte>, tha: Mac, d: seq<Byte>)
    requires |e| == |h| == |t| == |a| == |o| == 2 && |s| == |d| == 4
    requires Begins(data, dst + src + e + h + t + a + o + sha + s + tha + d)
    ensures data[0..6] == dst && data[12..14] == e && data[14..16] == h && data[16..18] == t && data[18..20] == a
    ensures data[20..22] == o && data[22..28] == sha && data[28..32] == s && data[38..42] == d
  {
    var p := dst + src + e + h + t + a + o + sha + s + tha + d;
    assert p[0..6] == dst && p[12..14] == e && p[14..16] == h && p[16..18] == t && p[18..20] == a;
    assert p[20..22] == o && p[22..28] == sha && p[28..32] == s && p[38..42] == d;
    forall i, j | 0 <= i <= j <= 42 ensures data[i..j] == p[i..j] {
      assert data[i..j] == data[..42][i..j];
    }
  }

  /** Of all that calls itself ARP, the responder takes what is for Ethernet and IPv4: these types and these lengths. */
  lemma TakenIff(data: seq<Byte>, len: int, dst: Mac, src: Mac, htype: int, ptype: int, hlen: Byte, plen: Byte, oper: int,
                 sha: Mac, spa: seq<Byte>, tha: Mac, tpa: seq<Byte>)
    requires 0 <= htype < 0x1_0000 && 0 <= ptype < 0x1_0000 && 0 <= oper < 0x1_0000 && |spa| == |tpa| == 4
    requires Begins(data, dst + src + ToBytes16(0x0806) + ToBytes16(htype) + ToBytes16(ptype) + [hlen, plen] + ToBytes16(oper)
                          + sha + spa + tha + tpa)
    ensures ArpOk(data, len) <==> len >= 42 && htype == 1 && ptype == 0x0800 && hlen == 6 && plen == 4
    ensures IsRequest(data) <==> oper == 1
  {
    var e, h, t, o := ToBytes16(0x0806), ToBytes16(htype), ToBytes16(ptype), ToBytes16(oper);
    HalfWord(htype);
    HalfWord(ptype);
    HalfWord(oper);
    hide ToBytes16, Be16;
    Layout(data, dst, src, e, h, t, [hlen, plen], o, sha, spa, tha, tpa);
    SameBytes(data, 14, h);
    SameBytes(data, 16, t);
    SameBytes(data, 18, [hlen, plen]);
    SameBytes(data, 20, o);
  }

  /** The interface of a key, and the request for it. */
  lemma RequestIs(k: Key, ifs: seq<Iface>)
    requires FirstByIndex(ifs, k.ifidx) >= 0
    ensures var it := ifs[FirstByIndex(ifs, k.ifidx)];
            RequestOf(k, ifs) == [ArpOut(k.ifidx, ArpBytes(BCAST, it.mac, 1, it.mac, it.ip, NO_MAC, k.ip))]
  {}

  /**
   The request for a key asks everybody on the network of its interface for the address of the key, in the name
   of that interface: its address and its MAC are what the others learn.
   */
  lemma RequestAsks(k: Key, ifs: seq<Iface>, data: seq<Byte>, i: int)
    requires FirstByIndex(ifs, k.ifidx) >= 0 && |RequestOf(k, ifs)| == 1
    requires RequestOf(k, ifs)[0].ArpOut? && Begins(data, RequestOf(k, ifs)[0].bytes)
    ensures var it := ifs[FirstByIndex(ifs, k.ifidx)];
            && RequestOf(k, ifs)[0].ifidx == k.ifidx && |RequestOf(k, ifs)[0].bytes| == 42 && data[..6] == BCAST
            && Be16(data[12], data[13]) == 0x0806 && ArpOk(data, 42) && IsRequest(data)
            && SenderOf(data, i) == Key(it.ip, i) && data[22..28] == it.mac && TargetOf(data) == k.ip
  {
    RequestIs(k, ifs);
    var it := ifs[FirstByIndex(ifs, k.ifidx)];
    FieldsRead(data, BCAST, it.mac, 1, it.mac, it.ip, NO_MAC, k.ip, i);
  }

  /**
   Request, reply and what is learned: the owner of the address answers the interface that asked, and the answer is one that
   teaches the key with the owner's MAC.
   */
  lemma OwnerAnswers(k: Key, ifs: seq<Iface>, data: seq<Byte>, owner: Iface, reply: seq<Byte>)
    requires FirstByIndex(ifs, k.ifidx) >= 0 && |RequestOf(k, ifs)| == 1
    requires RequestOf(k, ifs)[0].ArpOut? && Begins(data, RequestOf(k, ifs)[0].bytes)
    requires owner.ip == k.ip && |reply| == MP_PAYLOAD && reply[..42] == Reply(data, owner)[..42]
    ensures var it := ifs[FirstByIndex(ifs, k.ifidx)];
            && ArpOk(reply, 42) && !IsRequest(reply) && Be16(reply[12], reply[13]) == 0x0806
            && reply[..6] == it.mac && TargetOf(reply) == it.ip
            && SenderOf(reply, k.ifidx) == k && reply[22..28] == owner.mac
  {
    var it := ifs[FirstByIndex(ifs, k.ifidx)];
    RequestAsks(k, ifs, data, 0);
    ReplyIsArp(data, owner);
    FieldsRead(reply, it.mac, owner.mac, 2, owner.mac, owner.ip, it.mac, it.ip, k.ifidx);
  }

  // ---------------------------------------------------------------- one frame, from the worker to the wire

  /** There is room for a frame of this key: its chain, if there is one, is short and has a retry left, or a slot is free. */
  ghost predicate RoomFor(p: PS.Pend, k: Key) {
    var i := PS.Pos(p, k);
    if i >= 0 then |p[i].frames| < PS.PEND_CHAIN_MAX && p[i].retries < PS.ARP_RETRY_MAX else exists s :: PS.IsFreeSlot(p, s)
  }

  /** With room for it a frame is parked, and its node has a retry left. */
  lemma ParksWithRoom(p: PS.Pend, k: Key, blk: nat, now: U64, p': PS.Pend, freed: seq<nat>)
    requires PS.Enqueued(p, k, blk, now, p', freed) && RoomFor(p, k)
    ensures exists i :: 0 <= i < |p'| && p'[i].key == k && blk in p'[i].frames && p'[i].retries < PS.ARP_RETRY_MAX
  {
    var o := PS.HowItWent(p, k, blk, now, p', freed);
    var j := if PS.Pos(p, k) >= 0 then PS.Pos(p, k) else 0;
    assert j < |p'| && p'[j].key == k && blk in p'[j].frames && p'[j].retries < PS.ARP_RETRY_MAX;
  }

  lemma {:induction false} Survives(p: PS.Pend, t: U64, j: nat) returns (i: nat)
    requires j < |p| && p[j].retries < PS.ARP_RETRY_MAX
    ensures i < |PS.Retried(p, t)| && PS.Retried(p, t)[i] == PS.Again(p[j], t)
  {
    if j == 0 {
      i := 0;
    } else {
      i := Survives(p[1..], t, j - 1);
      if p[0].retries < PS.ARP_RETRY_MAX { i := i + 1; }
    }
  }

  /** A tick sends every frame it finds resolved. */
  lemma {:induction false} TickSends(q: PS.Pend, asked: seq<bool>, blocks: seq<Frame>, m: AT.Cache, ifs: seq<Iface>, i: nat, b: nat)
    requires |asked| == |q| && i < |q| && b in q[i].frames && b < |blocks| && q[i].key in m
    ensures forall w :: w in PacketOf(blocks[b], m[q[i].key].mac, ifs) ==> w in TickPackets(q, asked, blocks, m, ifs)
  {
    hide PacketOf, Requested;
    var last := |q| - 1;
    if i < last {
      TickSends(q[..last], asked[..last], blocks, m, ifs, i, b);
    } else {
      ChainSends(blocks, q[i].frames, m[q[i].key].mac, ifs, b);
    }
  }

  lemma {:induction false} ChainSends(blocks: seq<Frame>, c: seq<nat>, mac: Mac, ifs: seq<Iface>, b: nat)
    requires b in c && b < |blocks|
    ensures forall w :: w in PacketOf(blocks[b], mac, ifs) ==> w in PacketsOf(blocks, c, mac, ifs)
  {
    hide PacketOf;
    var last := |c| - 1;
    if c[last] != b {
      assert b in c[..last];
      ChainSends(blocks, c[..last], mac, ifs, b);
    }
  }

  /** What the owner of an address makes of the request for it. */
  ghost predicate IsAnswer(reply: seq<Byte>, k: Key, ifs: seq<Iface>, owner: Iface) {
    && |reply| == MP_PAYLOAD && owner.ip == k.ip && FirstByIndex(ifs, k.ifidx) >= 0
    && exists data :: Begins(data, RequestOf(k, ifs)[0].bytes) && reply[..42] == Reply(data, owner)[..42]
  }

  lemma AnswerTeaches(reply: seq<Byte>, k: Key, ifs: seq<Iface>, owner: Iface)
    requires IsAnswer(reply, k, ifs, owner)
    ensures ArpOk(reply, 42) && !IsRequest(reply) && SenderOf(reply, k.ifidx) == k && reply[22..28] == owner.mac
  {
    hide Reply;
    var data :| Begins(data, RequestOf(k, ifs)[0].bytes) && reply[..42] == Reply(data, owner)[..42];
    RequestIs(k, ifs);
    OwnerAnswers(k, ifs, data, owner, reply);
  }

  /** The next hop is not resolved, there is room for a frame of it, and its interface is one of ours, on whose network it is. */
  ghost predicate Resolvable(k: Key, ifs: seq<Iface>, p: PS.Pend, m: AT.Cache) {
    k !in m && RoomFor(p, k) && 0 <= k.ifidx < 256 && OnSubnetOf(ifs, k)
  }

  /** A packet that is this frame on its way to this MAC by way of this interface. */
  ghost predicate Carries(w: Packet, data: seq<Byte>, len: nat, dmac: Mac, it: Iface)
    requires |data| == MP_PAYLOAD && len <= MP_PAYLOAD
  {
    w.FrameOut? && w.ifidx == it.ifindex && w.dmac == dmac && w.smac == it.mac && w.bytes == Rewritten(data, dmac, it.mac)[..len]
  }

  lemma PacketCarries(f: Frame, g: Frame, k: Key, mac: Mac, ifs: seq<Iface>)
    requires 0 <= k.ifidx < 256 && FirstByIndex(ifs, k.ifidx) >= 0 && FrameOk(f) && g == MarkedFrame(f, k).(next := g.next)
    ensures var it := ifs[FirstByIndex(ifs, k.ifidx)]; exists w :: w in PacketOf(g, mac, ifs) && Carries(w, f.data, f.len, mac, it)
  {
    hide Rewritten, HeaderOk;
    var w := PacketOf(g, mac, ifs)[0];
    assert w in PacketOf(g, mac, ifs);
  }

  lemma DecidedIsOk(cfg: Config, f: Frame, k: Key)
    requires |f.data| == MP_PAYLOAD && f.len <= MP_PAYLOAD && Decides(cfg, f.data, f.len, k)
    ensures FrameOk(f)
  {
    hide GoesVia;
  }

  /** The frame waits for k, as this block content but for its link. */
  ghost predicate Waits(p: PS.Pend, blocks: seq<Frame>, b: nat, f: Frame, k: Key) {
    ParkedAs(p, blocks, b, MarkedFrame(f, k)) && exists i :: 0 <= i < |p| && p[i].key == k && b in p[i].frames && p[i].retries < PS.ARP_RETRY_MAX
  }

  lemma WaitsNow(p: PS.Pend, k: Key, blk: nat, now: U64, p': PS.Pend, freed: seq<nat>, blocks: seq<Frame>, f: Frame)
    requires PS.Enqueued(p, k, blk, now, p', freed) && RoomFor(p, k) && ParkedAs(p', blocks, blk, MarkedFrame(f, k))
    ensures Waits(p', blocks, blk, f, k) && InQueue(p', blk)
  {
    hide MarkedFrame;
    ParksWithRoom(p, k, blk, now, p', freed);
  }

  lemma StillWaits(p: PS.Pend, x: seq<Frame>, spare: nat, g: Frame, b: nat, f: Frame, k: Key)
    requires Waits(p, x, b, f, k) && !InQueue(p, spare) && spare < |x|
    ensures Waits(p, x[spare := g], b, f, k)
  {
    hide MarkedFrame;
  }

  /** The tick sends what waits for a resolved key. */
  lemma TickCarries(p: PS.Pend, t: U64, asked: seq<bool>, blocks: seq<Frame>, m: AT.Cache, ifs: seq<Iface>, b: nat, f: Frame, k: Key)
    requires Waits(p, blocks, b, f, k) && k in m && FrameOk(f) && 0 <= k.ifidx < 256 && FirstByIndex(ifs, k.ifidx) >= 0
    requires |asked| == |PS.Retried(p, t)|
    ensures exists w :: w in TickPackets(PS.Retried(p, t), asked, blocks, m, ifs)
                        && Carries(w, f.data, f.len, m[k].mac, ifs[FirstByIndex(ifs, k.ifidx)])
  {
    hide FrameOk, PacketOf, Carries, TickPackets, PS.Retried;
    var j: nat :| j < |p| && p[j].key == k && b in p[j].frames && p[j].retries < PS.ARP_RETRY_MAX;
    assert InQueue(p, b);
    var i := Survives(p, t, j);
    TickSends(PS.Retried(p, t), asked, blocks, m, ifs, i, b);
    PacketCarries(f, blocks[b], k, m[k].mac, ifs);
  }

  /** Everything a frame needs to get through when this reply comes in by this interface. */
  ghost predicate WillResolve(f: Forwarder, data: seq<Byte>, len: nat, reply: seq<Byte>, owner: Iface, via: int)
    reads f, f.pend, f.pend.nodes, f.pend.pool, f.pend.pool.freeStack, f.arp, f.arp.entries, f.arp.bucket
    reads f.routes, f.routes.routes, f.fw, f.fw.rules
  {
    && f.Valid() && len <= MP_PAYLOAD == |data| && (exists k :: Decides(f.Cfg(), data, len, k))
    && forall k :: Decides(f.Cfg(), data, len, k) ==>
         k.ifidx == via && Resolvable(k, f.ifs, f.pend.Contents(), f.arp.Contents()) && IsAnswer(reply, k, f.ifs, owner)
  }

  /** forward_task parks the frame, and the reply is received into a spare block. */
  method ParksAndReceives(f: Forwarder, blk: nat, spare: nat, reply: seq<Byte>, owner: Iface, via: int)
    returns (ghost k: Key, asked: bool)
    requires f.Valid() && {blk, spare} <= f.pend.Outside() && blk != spare && blk < |f.pend.pool.blocks| && f.pend.pool.blocks[blk].next == -1
    requires WillResolve(f, f.pend.pool.blocks[blk].data, f.pend.pool.blocks[blk].len, reply, owner, via)
    modifies f, f.pend`head, f.pend`order, f.pend`frames, f.pend.nodes, f.arp.entries
    modifies f.pend.pool, f.pend.pool.freeStack
    ensures f.Valid() && spare in f.pend.Outside() && spare < |f.pend.pool.blocks|
    ensures f.pend.pool.blocks[spare].data == reply && f.pend.pool.blocks[spare].len == 42
    ensures Decides(old(f.Cfg()), old(f.pend.pool.blocks)[blk].data, old(f.pend.pool.blocks)[blk].len, k)
    ensures Waits(f.pend.Contents(), f.pend.pool.blocks, blk, old(f.pend.pool.blocks)[blk], k)
    ensures f.wire == old(f.wire) + Requested(asked, k, f.ifs)
  {
    hide PT.Inv, AT.Inv, ParkedOk, PacketOk, Decides, PS.Enqueued, PacketOf, MarkedFrame, Requested, LeadsOn, ParkedAs, Guides, RoomFor, OnSubnetOf;
    ghost var to, t, freed;
    to, t, freed, asked := f.ForwardTask(blk);
    k := to.value;
    WaitsNow(old(f.pend.Contents()), k, blk, t, f.pend.Contents(), freed, f.pend.pool.blocks, old(f.pend.pool.blocks)[blk]);
    f.OutsideIsThere(spare);
    ghost var blocks := f.pend.pool.blocks;
    f.Fill(spare, Frame(-1, 42, 0, 0, reply));
    StillWaits(f.pend.Contents(), blocks, spare, f.pend.pool.blocks[spare], blk, old(f.pend.pool.blocks)[blk], k);
  }

  /** arp_handle_frame of the reply, and the next pend_tick. */
  method LearnsAndSends(f: Forwarder, spare: nat, via: int, proxy: bool, ghost b: nat, ghost g: Frame, ghost k: Key, ghost reply: seq<Byte>,
                        ghost owner: Iface)
    requires f.Valid() && spare in f.pend.Outside() && spare < |f.pend.pool.blocks|
    requires f.pend.pool.blocks[spare].data == reply && f.pend.pool.blocks[spare].len == 42
    requires IsAnswer(reply, k, f.ifs, owner) && OnSubnetOf(f.ifs, k) && k.ifidx == via && 0 <= via < 256
    requires Waits(f.pend.Contents(), f.pend.pool.blocks, b, g, k) && FrameOk(g)
    modifies f, f.pend`head, f.pend`order, f.pend`frames, f.pend.nodes, f.arp`ch, f.arp`slot, f.arp.entries, f.arp.bucket
    modifies f.pend.pool, f.pend.pool.freeStack
    ensures f.Valid() && k in f.arp.Contents() && f.arp.Contents()[k].mac == owner.mac
    ensures old(f.wire) <= f.wire
    ensures exists w :: w in f.wire[|old(f.wire)|..] && Carries(w, g.data, g.len, owner.mac, f.ifs[FirstByIndex(f.ifs, via)])
  {
    hide PT.Inv, AT.Inv, ParkedOk, PacketOk, FrameOk, Carries, TickPackets, PS.Retried, PS.Unresolved, PS.Released, PS.Popped, ArpOk, Reply,
         Flushed, AnswersFor, Waits, IsAnswer, Guides, OnSubnetOf;
    AnswerTeaches(reply, k, f.ifs, owner);
    HasInterface(f.ifs, k);
    var learned, replied; ghost var who;
    learned, replied, who := f.ArpHandleFrame(spare, via, proxy, reply, 42);
    ghost var p, blocks, m := f.pend.Contents(), f.pend.pool.blocks, f.arp.Contents();
    ghost var wire := f.wire;
    var asked; ghost var t;
    t, asked := f.PendTick();
    TickCarries(p, t, asked, blocks, m, f.ifs, b, g, k);
  }

  lemma HasInterface(ifs: seq<Iface>, k: Key)
    requires OnSubnetOf(ifs, k)
    ensures FirstByIndex(ifs, k.ifidx) >= 0
  {}

  /**
   A frame whose next hop nobody has resolved yet gets through if the owner of the next hop answers: the request for it
   goes out (unless the pool has no block left), the answer is learned, and the next tick sends the frame, rewritten,
   to the MAC of the owner by the interface the answer came in by.
   */
  method GetsThrough(f: Forwarder, blk: nat, spare: nat, reply: seq<Byte>, owner: Iface, via: int, proxy: bool)
    returns (ghost k: Key, asked: bool)
    requires f.Valid() && {blk, spare} <= f.pend.Outside() && blk != spare && blk < |f.pend.pool.blocks| && f.pend.pool.blocks[blk].next == -1
    requires WillResolve(f, f.pend.pool.blocks[blk].data, f.pend.pool.blocks[blk].len, reply, owner, via)
    modifies f, f.pend`head, f.pend`order, f.pend`frames, f.pend.nodes, f.arp`ch, f.arp`slot, f.arp.entries, f.arp.bucket
    modifies f.pend.pool, f.pend.pool.freeStack
    ensures f.Valid() && Decides(old(f.Cfg()), old(f.pend.pool.blocks)[blk].data, old(f.pend.pool.blocks)[blk].len, k)
    ensures k in f.arp.Contents() && f.arp.Contents()[k].mac == owner.mac
    ensures old(f.wire) + Requested(asked, k, f.ifs) <= f.wire
    ensures exists w :: w in f.wire[|old(f.wire)|..]
              && Carries(w, old(f.pend.pool.blocks)[blk].data, old(f.pend.pool.blocks)[blk].len, owner.mac, f.ifs[FirstByIndex(f.ifs, via)])
  {
    hide PT.Inv, AT.Inv, ParkedOk, PacketOk, Decides, FrameOk, Carries, Waits, IsAnswer, Guides, OnSubnetOf, Requested, RoomFor;
    ghost var g, cfg := f.pend.pool.blocks[blk], f.Cfg();
    k, asked := ParksAndReceives(f, blk, spare, reply, owner, via);
    DecidedIsOk(cfg, g, k);
    HasInterface(f.ifs, k);
    ghost var wire := f.wire;
    LearnsAndSends(f, spare, via, proxy, blk, g, k, reply, owner);
    ghost var w :| w in f.wire[|wire|..] && Carries(w, g.data, g.len, owner.mac, f.ifs[FirstByIndex(f.ifs, via)]);
    assert w in f.wire[|old(f.wire)|..];
  }

  // ---------------------------------------------------------------- who answers for others

  /** Interface i answers for an address that is not the router's: it is the exit of the longest matching route, which has no gateway. */
  ghost predicate AnswersByProxy(cfg: Config, tpa: Ip, i: int)
    requires Route.Contiguous(cfg.routes)
  {
    exists b :: Route.LongestMatch(cfg.routes, tpa, b) && ProxyFor(cfg, b, i)
  }

  predicate ProxyFor(cfg: Config, b: int, i: int)
    requires -1 <= b < |cfg.routes|
  {
    && -1 <= i < |cfg.ifs|
    && (i >= 0 <==> b >= 0 && cfg.routes[b].gw == 0 && exists j :: 0 <= j < |cfg.ifs| && cfg.ifs[j].ifindex == cfg.routes[b].ifindex)
    && (i >= 0 ==> cfg.ifs[i].ifindex == cfg.routes[b].ifindex)
  }

  /** An owner answers for itself; for other addresses nobody does without proxy ARP, and with it the interface the address is reached by directly. */
  lemma WhoAnswers(cfg: Config, tpa: Ip, proxy: bool, i: int)
    requires Guides(cfg) && AnswersFor(cfg, tpa, proxy, i)
    ensures if HasIp(cfg.ifs, tpa) then i >= 0 && cfg.ifs[i].ip == tpa else if proxy then AnswersByProxy(cfg, tpa, i) else i == -1
  {
    if !HasIp(cfg.ifs, tpa) && proxy {
      var b :| Route.LookupResult(cfg.routes, tpa, cfg.clz0, b) && i == DirectExit(cfg, b);
      Route.LookupIsLongest(cfg.routes, tpa, cfg.clz0, b);
      assert ProxyFor(cfg, b, i);
    }
  }

  // ---------------------------------------------------------------- a host behind the default route

  /** eth0: 192.168.1.1/24. */
  const ETH0 := Iface("eth0", [2, 0, 0, 0, 0, 1], 0xC0A8_0101, 0xFFFF_FF00, 2)

  /** 192.168.1.254. */
  const GATEWAY: Ip := 0xC0A8_01FE

  /** Who has 192.168.1.254? Tell 192.168.1.1. */
  const WHO_HAS: seq<Byte> :=
    [255, 255, 255, 255, 255, 255] + [2, 0, 0, 0, 0, 1] + [0x08, 0x06]
    + [0, 1] + [0x08, 0x00] + [6, 4] + [0, 1]
    + [2, 0, 0, 0, 0, 1] + [192, 168, 1, 1] + [0, 0, 0, 0, 0, 0] + [192, 168, 1, 254]

  lemma OurBytes()
    ensures ToBytes32(0xC0A8_0101) == [192, 168, 1, 1] && ToBytes32(GATEWAY) == [192, 168, 1, 254]
  {}

  lemma WhoHas()
    ensures RequestOf(Key(GATEWAY, 2), [ETH0]) == [ArpOut(2, WHO_HAS)]
  {
    OurBytes();
    assert ToBytes16(0x0806) == [8, 6] && ToBytes16(1) == [0, 1] && ToBytes16(0x0800) == [8, 0];
    hide ToBytes32, ToBytes16;
    RequestIs(Key(GATEWAY, 2), [ETH0]);
  }

  /** The table with that one route. */
  function DefaultTable(): seq<Route.Route> {
    [Route.Route(0, 0, GATEWAY, 2, true)]
  }

  lemma DefaultHop(cfg: Config, k: Key)
    requires cfg.ifs == [ETH0] && cfg.routes == DefaultTable()
    ensures GoesVia(cfg, 0x0808_0808, k.ip, k.ifidx) <==> k == Key(GATEWAY, 2)
  {
    assert !OnLink(ETH0, 0x0808_0808);
    assert Route.LookupResult(cfg.routes, 0x0808_0808, cfg.clz0, 0);
  }

  method DefaultRoutes() returns (routes: Route.Table)
    ensures fresh(routes) && fresh(routes.routes) && routes.Valid() && routes.Contents() == DefaultTable() && routes.clz0 == 32
  {
    routes := new Route.Table(32);
    var rc := routes.Add(0, 0, GATEWAY, 2);
  }

  /** With a default route by way of 192.168.1.254 only, the next hop of 8.8.8.8 is the gateway, and this is the request for it. */
  method DefaultRoute() returns (found: bool, k: Key, wire: seq<Packet>)
    ensures found && k == Key(GATEWAY, 2) && wire == [ArpOut(2, WHO_HAS)]
  {
    hide PT.Inv, AT.Inv, PT.Table.Shape, PT.Table.Outside, AT.Table.Valid, AT.Table.Contents, Pool.Out, Pool.Valid;
    hide RequestOf, ParkedOk, PacketOk, Guides, Leads, LeadsOn, GoesVia, Kept, DefaultTable;
    var pool := new Pool();
    var pend := new PT.Table(pool);
    var arp := new AT.Table();
    var routes := DefaultRoutes();
    var fw := new Firewall.Table();
    var f := new Forwarder(pend, arp, routes, fw, [ETH0]);
    DefaultHop(f.Cfg(), Key(GATEWAY, 2));
    found, k := f.NextHop(0x0808_0808);
    DefaultHop(f.Cfg(), k);
    var asked := f.ArpRequest(k);
    WhoHas();
    wire := f.wire;
  }
}
