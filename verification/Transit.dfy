/**
 A packet through the router, said of its fields (section 3.1 of RFC 791): where the receive loop sends its frame,
 whether forward_task lets it through, and that what leaves is the same packet one hop further.
 */
module Transit {
  import opened Basics
  import opened Net
  import opened MemPool
  import opened ForwardSpec
  import opened Forward
  import opened Firewall
  import Checksum
  import D = DataPlane
  import P = Packets
  import PS = PendSpec
  import PT = PendTable
  import R = Resolution
  import AT = ArpTable
  import Route

  // ---------------------------------------------------------------- the receive loop

  /** A frame goes by its type: ARP to the responder, IPv4 to the workers; what is short, our own or anything else is freed. */
  lemma RoutedByType(b: nat, n: nat, dst: Mac, src: Mac, type_: int, rest: seq<Byte>, own: bool, ifidx: int)
    requires 0 <= type_ < 0x1_0000 && |rest| == MP_PAYLOAD - 14
    ensures var act := D.Route(b, n, dst + src + ToBytes16(type_) + rest, own, ifidx);
            && (act == D.ArpFrame(b, ifidx) <==> !own && n >= 14 && type_ == 0x0806)
            && (act == D.Submit(b) <==> !own && n >= 14 && type_ == 0x0800)
            && (act in {D.ArpFrame(b, ifidx), D.Submit(b), D.Free(b)})
  {
    var t := ToBytes16(type_);
    P.HalfWord(type_);
    hide ToBytes16, Be16;
    var data := dst + src + t + rest;
    assert data[12] == t[0] && data[13] == t[1];
  }

  /** The request one router broadcasts goes to the responder of another. */
  lemma RequestIsHeard(b: nat, data: seq<Byte>, k: Key, ifs: seq<Iface>, own: bool, ifidx: int)
    requires FirstByIndex(ifs, k.ifidx) >= 0 && |RequestOf(k, ifs)| == 1
    requires RequestOf(k, ifs)[0].ArpOut? && R.Begins(data, RequestOf(k, ifs)[0].bytes)
    ensures D.Route(b, 42, data, own, ifidx) == if own then D.Free(b) else D.ArpFrame(b, ifidx)
  {
    R.RequestAsks(k, ifs, data, ifidx);
  }

  // ---------------------------------------------------------------- the frame of a packet in a block

  /** The block holds the frame of the packet. */
  ghost predicate Holds(data: seq<Byte>, len: int, x: P.Packet) {
    P.PacketOk(x) && |data| == MP_PAYLOAD && 0 <= len <= MP_PAYLOAD && data[..len] == P.FrameOf(x)
  }

  /** The 14 + 20 + options bytes in front of the body, as they lie in the block. */
  lemma FieldsRead(data: seq<Byte>, len: int, x: P.Packet)
    requires Holds(data, len, x)
    ensures len >= 34 + |x.options| && data[14] == 0x45 + |x.options| / 4 && Be16(data[16], data[17]) == x.total
    ensures data[22] == x.ttl && DestinationOf(data) == x.dst && data[14] % 16 * 4 == 20 + |x.options|
  {
    hide ToBytes32, ToBytes16, Be32, Be16, P.TransportBytes;
    var f := P.FrameOf(x);
    P.BodyRead(x, f);
    P.HeaderRead(x, f);
    P.HalfWord(x.total);
    var t, i, g, c, s, d := ToBytes16(x.total), ToBytes16(x.id), ToBytes16(0x2000 * x.flags + x.fragment), ToBytes16(x.sum), ToBytes32(x.src), ToBytes32(x.dst);
    var v: seq<Byte> := [0x40 + 5 + |x.options| / 4, x.tos];
    assert f[..34] == x.ether + v + t + i + g + [x.ttl, x.proto] + c + s + d;
    hide P.FrameOf, P.HeaderBytes, P.PacketOk;
    TotalAndTtl(x.ether, v, t, i, g, [x.ttl, x.proto], c, s, d, f);
    assert forall j :: 0 <= j < 34 ==> data[j] == f[j];
  }

  lemma TotalAndTtl(ether: seq<Byte>, v: seq<Byte>, t: seq<Byte>, i: seq<Byte>, g: seq<Byte>, p: seq<Byte>, c: seq<Byte>, s: seq<Byte>, d: seq<Byte>, f: seq<Byte>)
    requires |ether| == 14 && |v| == |t| == |i| == |g| == |p| == |c| == 2 && |s| == |d| == 4
    requires |f| >= 34 && f[..34] == ether + v + t + i + g + p + c + s + d
    ensures f[16] == t[0] && f[17] == t[1] && f[22] == p[0]
  {
    var h := ether + v + t + i + g + p + c + s + d;
    assert forall j :: 0 <= j < 34 ==> f[j] == h[j];
  }

  /** The header test passes exactly the packets whose total length holds their header and lies within the frame. */
  lemma HeaderIs(data: seq<Byte>, len: int, x: P.Packet)
    requires Holds(data, len, x)
    ensures HeaderOk(data, len) <==> 20 + |x.options| <= x.total <= len
  {
    FieldsRead(data, len, x);
  }

  // ---------------------------------------------------------------- let through or not

  /** The action of the first rule that is about the packet, else it is allowed. */
  function Judged(rules: seq<Rule>, x: P.Packet): Action
    requires P.PacketOk(x)
  {
    if rules == [] then Allow else if P.Concerns(rules[0], x) then rules[0].action else Judged(rules[1..], x)
  }

  lemma {:induction false} VerdictIsJudged(rules: seq<Rule>, x: P.Packet)
    requires P.PacketOk(x)
    ensures Verdict(rules, P.FrameOf(x)) == Judged(rules, x)
  {
    hide P.FrameOf, P.Concerns, Matches;
    if rules != [] {
      P.MatchesIffConcerns(rules[0], x);
      VerdictIsJudged(rules[1..], x);
    }
  }

  /** What forward_task asks of a packet before it looks for the way: lengths, filter, destination. */
  ghost predicate Passes(cfg: Config, len: int, x: P.Packet)
    requires P.PacketOk(x)
  {
    20 + |x.options| <= x.total <= len && Judged(cfg.rules, x).Allow? && !ForUs(cfg, x.dst)
  }

  lemma AdmittedIff(cfg: Config, data: seq<Byte>, len: int, x: P.Packet)
    requires Holds(data, len, x)
    ensures Admitted(cfg, data, len) <==> Passes(cfg, len, x)
  {
    FieldsRead(data, len, x);
    HeaderIs(data, len, x);
    VerdictIsJudged(cfg.rules, x);
    hide P.FrameOf, P.PacketOk, Verdict, ForUs, HeaderOk, DestinationOf, Judged;
  }

  // ---------------------------------------------------------------- one hop further

  /** The packet between other neighbours, with one hop less to live. */
  function OneHop(x: P.Packet, dmac: Mac, smac: Mac, sum: int): P.Packet
    requires P.PacketOk(x) && x.ttl > 0
  {
    x.(ether := dmac + smac + x.ether[12..], ttl := x.ttl - 1, sum := sum)
  }

  /** The IPv4 header. */
  function IpHeader(x: P.Packet): seq<Byte>
    requires P.PacketOk(x)
  {
    P.HeaderBytes(x)[14..] + x.options
  }

  lemma HalfBytes(x: Byte, y: Byte)
    ensures P.Is16(Be16(x, y)) && ToBytes16(Be16(x, y)) == [x, y]
  {}

  /** The parts of a header that change, and those that do not. */
  lemma HeaderChanges(e: seq<Byte>, e': seq<Byte>, front: seq<Byte>, p: seq<Byte>, p': seq<Byte>, c: seq<Byte>, c': seq<Byte>, back: seq<Byte>,
                      h: seq<Byte>, f: seq<Byte>)
    requires |e| == |e'| == 14 && |front| == 8 && |p| == |p'| == |c| == |c'| == 2 && |back| == 8
    requires h == e + front + p + c + back && |f| == 34 && f[..14] == e' && f[22..24] == p' && f[24..26] == c'
    requires forall i :: 14 <= i < 34 && i !in {22, 23, 24, 25} ==> f[i] == h[i]
    ensures f == e' + front + p' + c' + back
  {
    assert forall i :: 14 <= i < 22 ==> f[i] == front[i - 14];
    assert forall i :: 26 <= i < 34 ==> f[i] == back[i - 26];
    assert f == f[..14] + f[14..22] + f[22..24] + f[24..26] + f[26..];
    assert f[14..22] == front && f[26..] == back;
  }

  lemma HeaderParts(x: P.Packet) returns (front: seq<Byte>, back: seq<Byte>)
    requires P.PacketOk(x)
    ensures |front| == 8 && |back| == 8
    ensures front == [0x40 + 5 + |x.options| / 4, x.tos] + ToBytes16(x.total) + ToBytes16(x.id) + ToBytes16(0x2000 * x.flags + x.fragment)
    ensures back == ToBytes32(x.src) + ToBytes32(x.dst)
    ensures P.HeaderBytes(x) == x.ether + front + [x.ttl, x.proto] + ToBytes16(x.sum) + back
  {
    hide ToBytes16, ToBytes32;
    var v: seq<Byte> := [0x40 + 5 + |x.options| / 4, x.tos];
    var t, i, g, c, s, d := ToBytes16(x.total), ToBytes16(x.id), ToBytes16(0x2000 * x.flags + x.fragment), ToBytes16(x.sum), ToBytes32(x.src), ToBytes32(x.dst);
    front, back := v + t + i + g, s + d;
    Grouped(x.ether, v, t, i, g, [x.ttl, x.proto], c, s, d);
  }

  lemma Grouped(e: seq<Byte>, v: seq<Byte>, t: seq<Byte>, i: seq<Byte>, g: seq<Byte>, p: seq<Byte>, c: seq<Byte>, s: seq<Byte>, d: seq<Byte>)
    ensures e + v + t + i + g + p + c + s + d == e + (v + t + i + g) + p + c + (s + d)
  {}

  lemma HopHeader(x: P.Packet, dmac: Mac, smac: Mac, h: seq<Byte>, f: seq<Byte>)
    requires P.PacketOk(x) && x.ttl > 0 && h == P.HeaderBytes(x) && |f| == 34
    requires f[..6] == dmac && f[6..12] == smac && f[22] == x.ttl - 1
    requires forall i {:trigger f[i]} :: 12 <= i < 34 && i !in {22, 24, 25} ==> f[i] == h[i]
    ensures var y := OneHop(x, dmac, smac, Be16(f[24], f[25])); P.PacketOk(y) && f == P.HeaderBytes(y)
  {
    hide ToBytes16, ToBytes32, P.HeaderBytes, Be16;
    var y := OneHop(x, dmac, smac, Be16(f[24], f[25]));
    HalfBytes(f[24], f[25]);
    assert |x.ether| == 14;
    var front, back := HeaderParts(x);
    var front', back' := HeaderParts(y);
    var c := ToBytes16(x.sum);
    hide P.PacketOk;
    assert f[..14] == y.ether by {
      assert h[12] == x.ether[12] && h[13] == x.ether[13];
      assert f[..14] == f[..6] + f[6..12] + [f[12], f[13]];
    }
    assert f[23] == h[23] == x.proto;
    assert f[22..24] == [y.ttl, y.proto] && f[24..26] == [f[24], f[25]];
    HeaderChanges(x.ether, y.ether, front, [x.ttl, x.proto], [y.ttl, y.proto], c, [f[24], f[25]], back, h, f);
  }

  /** forward_send's rewrite of the frame of a packet is the frame of the packet one hop further, with a checksum that verifies. */
  lemma RewrittenIsOneHop(data: seq<Byte>, len: int, x: P.Packet, dmac: Mac, smac: Mac) returns (sum: int)
    requires Holds(data, len, x) && Forwardable(data, len)
    ensures x.ttl > 1 && P.PacketOk(OneHop(x, dmac, smac, sum))
    ensures Rewritten(data, dmac, smac)[..len] == P.FrameOf(OneHop(x, dmac, smac, sum))
    ensures Checksum.ChecksumOf(IpHeader(OneHop(x, dmac, smac, sum))) == 0
  {
    hide Rewritten, Checksum.ChecksumOf, P.HeaderBytes, P.TransportBytes, DestinationOf, Be16;
    FieldsRead(data, len, x);
    RewriteIsFaithful(data, len, dmac, smac);
    var f, g := Rewritten(data, dmac, smac), P.FrameOf(x);
    P.BodyRead(x, g);
    hide P.PacketOk;
    sum := RewrittenFields(data, len, x, dmac, smac, f, g);
  }

  lemma RewrittenFields(data: seq<Byte>, len: int, x: P.Packet, dmac: Mac, smac: Mac, f: seq<Byte>, g: seq<Byte>) returns (sum: int)
    requires P.PacketOk(x) && x.ttl > 1 && |f| == |data| >= len >= 34 && g == P.FrameOf(x) && data[..len] == g
    requires f[..6] == dmac && f[6..12] == smac && f[22] == x.ttl - 1
    requires forall i {:trigger f[i]} :: 12 <= i < |data| && i !in {22, 24, 25} ==> f[i] == data[i]
    requires g[..34] == P.HeaderBytes(x) && |g| == 34 + |x.options| + |P.TransportBytes(x.body)|
    requires g[34..] == x.options + P.TransportBytes(x.body) && Checksum.ChecksumOf(f[14..14 + (20 + |x.options|)]) == 0
    ensures P.PacketOk(OneHop(x, dmac, smac, sum)) && f[..len] == P.FrameOf(OneHop(x, dmac, smac, sum))
    ensures Checksum.ChecksumOf(IpHeader(OneHop(x, dmac, smac, sum))) == 0
  {
    hide Checksum.ChecksumOf;
    sum := Be16(f[24], f[25]);
    assert data[..34] == g[..34];
    assert f[..34][..6] == f[..6] && f[..34][6..12] == f[6..12];
    HopHeader(x, dmac, smac, data[..34], f[..34]);
    var y := OneHop(x, dmac, smac, sum);
    hide P.HeaderBytes, P.TransportBytes, P.PacketOk, Be16;
    SameBehind(f, data, len, g, P.HeaderBytes(y), x.options, P.TransportBytes(x.body));
    assert f[14..34 + |x.options|] == f[..34][14..] + f[34..34 + |x.options|];
  }

  /** Behind the header nothing changes. */
  lemma SameBehind(f: seq<Byte>, data: seq<Byte>, len: int, g: seq<Byte>, h: seq<Byte>, o: seq<Byte>, t: seq<Byte>)
    requires |f| == |data| >= len >= 34 && data[..len] == g && |h| == 34 && |g| == 34 + |o| + |t| && g[34..] == o + t
    requires f[..34] == h && forall i {:trigger f[i]} :: 34 <= i < |data| ==> f[i] == data[i]
    ensures f[..len] == h + o + t && f[34..34 + |o|] == o
  {
    assert forall i :: 34 <= i < len ==> f[i] == g[i] == g[34..][i - 34];
    assert f[34..len] == o + t;
    assert f[..len] == f[..34] + f[34..len];
    assert f[34..34 + |o|] == f[34..len][..|o|];
  }

  // ---------------------------------------------------------------- forward_task

  /** There is a way to the destination: a network of the router, or a route. */
  ghost predicate Reaches(cfg: Config, dst: Ip) {
    OnLinkOfSome(cfg.ifs, dst) || exists i :: 0 <= i < |cfg.routes| && Route.Matches(cfg.routes[i], dst)
  }

  lemma SomeWayIff(cfg: Config, dst: Ip)
    requires Guides(cfg)
    ensures (exists k: Key :: GoesVia(cfg, dst, k.ip, k.ifidx)) <==> Reaches(cfg, dst)
  {
    hide OnLink, Route.LookupResult, Route.Matches;
    if OnLinkOfSome(cfg.ifs, dst) {
      var n: nat :| n < |cfg.ifs| && OnLink(cfg.ifs[n], dst);
      var i := FirstOnLink(cfg.ifs, dst, n);
      var k := Key(dst, cfg.ifs[i].ifindex);
      assert GoesVia(cfg, dst, k.ip, k.ifidx);
    } else {
      RouteFound(cfg, dst);
    }
  }

  /** What went on the wire is the packet one hop further, to this neighbour. */
  ghost predicate IsOneHop(w: Packet, x: P.Packet, dmac: Mac, it: Iface) {
    w.FrameOut? && w.ifidx == it.ifindex && exists sum: int :: OneHopBytes(w.bytes, x, dmac, it, sum)
  }

  ghost predicate OneHopBytes(bytes: seq<Byte>, x: P.Packet, dmac: Mac, it: Iface, sum: int) {
    && P.PacketOk(x) && x.ttl > 1 && P.PacketOk(OneHop(x, dmac, it.mac, sum)) && bytes == P.FrameOf(OneHop(x, dmac, it.mac, sum))
    && Checksum.ChecksumOf(IpHeader(OneHop(x, dmac, it.mac, sum))) == 0
  }

  lemma SentIsOneHop(f: Frame, x: P.Packet, mac: Mac, ifs: seq<Iface>)
    requires Holds(f.data, f.len, x) && FrameOk(f) && FirstByIndex(ifs, f.outIfidx) >= 0
    ensures var ws := PacketOf(f, mac, ifs); |ws| == 1 && IsOneHop(ws[0], x, mac, ifs[FirstByIndex(ifs, f.outIfidx)])
  {
    hide Rewritten, P.FrameOf, P.PacketOk, Checksum.ChecksumOf, IpHeader;
    var it := ifs[FirstByIndex(ifs, f.outIfidx)];
    var sum := RewrittenIsOneHop(f.data, f.len, x, mac, it.mac);
    assert OneHopBytes(Rewritten(f.data, mac, it.mac)[..f.len], x, mac, it, sum);
  }

  lemma DecidesIff(cfg: Config, data: seq<Byte>, len: int, x: P.Packet)
    requires Holds(data, len, x) && Guides(cfg)
    ensures (exists k :: Decides(cfg, data, len, k)) <==> Passes(cfg, len, x) && x.ttl > 1 && Reaches(cfg, x.dst)
  {
    AdmittedIff(cfg, data, len, x);
    FieldsRead(data, len, x);
    SomeWayIff(cfg, x.dst);
    hide Holds, Admitted, Passes, Guides, Reaches, GoesVia;
    if k: Key :| GoesVia(cfg, x.dst, k.ip, k.ifidx) {
      assert Decides(cfg, data, len, k) <==> Admitted(cfg, data, len) && data[22] > 1;
    }
  }

  /**
   forward_task on a packet: it goes on if and only if its lengths fit, the filter allows it, it is not for the router
   itself, it may take another hop and there is a way; it goes to a next hop that leads on; and when the
   MAC of that hop is cached, what is on the wire is the packet one hop further, and nothing else.
   */
  method Forwards(fw: Forwarder, blk: nat, ghost x: P.Packet) returns (ghost to: Option<Key>)
    requires fw.Valid() && blk in fw.pend.Outside() && blk < |fw.pend.pool.blocks| && fw.pend.pool.blocks[blk].next == -1
    requires Holds(fw.pend.pool.blocks[blk].data, fw.pend.pool.blocks[blk].len, x) && Guides(fw.Cfg())
    modifies fw, fw.pend`head, fw.pend`order, fw.pend`frames, fw.pend.nodes, fw.arp.entries
    modifies fw.pend.pool, fw.pend.pool.freeStack
    ensures fw.Valid()
    ensures to.Some? <==> Passes(old(fw.Cfg()), old(fw.pend.pool.blocks)[blk].len, x) && x.ttl > 1 && Reaches(old(fw.Cfg()), x.dst)
    ensures to.Some? ==> LeadsOn(old(fw.Cfg()), x.dst, to.value)
    ensures to.None? ==> fw.wire == old(fw.wire)
    ensures to.Some? && to.value in old(fw.arp.Contents()) ==>
              var i := FirstByIndex(fw.ifs, to.value.ifidx % 256);
              if i < 0 then fw.wire == old(fw.wire)
              else fw.wire != [] && fw.wire[..|fw.wire| - 1] == old(fw.wire)
                   && IsOneHop(fw.wire[|fw.wire| - 1], x, old(fw.arp.Contents())[to.value].mac, fw.ifs[i])
  {
    hide PT.Inv, AT.Inv, ParkedOk, PacketOk, Decides, PS.Enqueued, PacketOf, MarkedFrame, Requested, LeadsOn, ParkedAs, Guides, Passes, Reaches,
         IsOneHop, Holds;
    ghost var f, cfg, m, ifs := fw.pend.pool.blocks[blk], fw.Cfg(), fw.arp.Contents(), fw.ifs;
    HeldFits(f, x);
    ghost var t, freed;
    var asked;
    to, t, freed, asked := fw.ForwardTask(blk);
    DecidesIff(cfg, f.data, f.len, x);
    FieldsRead(f.data, f.len, x);
    if to.Some? && to.value in m {
      Sent(cfg, f, x, to.value, m[to.value].mac, ifs);
    }
  }

  lemma HeldFits(f: Frame, x: P.Packet)
    requires Holds(f.data, f.len, x)
    ensures |f.data| == MP_PAYLOAD && f.len <= MP_PAYLOAD
  {}

  lemma Sent(cfg: Config, f: Frame, x: P.Packet, k: Key, mac: Mac, ifs: seq<Iface>)
    requires Holds(f.data, f.len, x) && Decides(cfg, f.data, f.len, k)
    ensures var ws, i := PacketOf(MarkedFrame(f, k), mac, ifs), FirstByIndex(ifs, k.ifidx % 256);
            if i < 0 then ws == [] else |ws| == 1 && IsOneHop(ws[0], x, mac, ifs[i])
  {
    hide Holds, IsOneHop;
    var g := MarkedFrame(f, k);
    HeldFits(f, x);
    assert FrameOk(g);
    if FirstByIndex(ifs, k.ifidx % 256) >= 0 {
      SentIsOneHop(g, x, mac, ifs);
    }
  }
}
