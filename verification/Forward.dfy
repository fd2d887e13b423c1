/** The forwarding engine and the ARP protocol (src/forward.c, src/arp_proto.c). */
module Forward {
  import opened Basics
  import opened Net
  import opened IndexList
  import opened MemPool
  import opened ForwardSpec
  import AT = ArpTable
  import Firewall
  import PS = PendSpec
  import PT = PendTable
  import Route

  /** What pkt_send is given; a forwarded frame with the block it came from and the block's content before the rewrite. */
  datatype Packet =
    | FrameOut(orig: Frame, ifidx: int, dmac: Mac, smac: Mac, bytes: seq<Byte>)
    | ArpOut(ifidx: int, bytes: seq<Byte>)

  predicate FrameOk(f: Frame) {
    |f.data| == MP_PAYLOAD && f.len <= MP_PAYLOAD && Forwardable(f.data, f.len)
  }

  /** The frame passed forward_task and is marked for this next hop. */
  predicate MarkedFor(f: Frame, k: Key) {
    FrameOk(f) && f.nexthop == k.ip && f.outIfidx == k.ifidx % 256
  }

  ghost predicate ParkedOk(p: PS.Pend, blocks: seq<Frame>) {
    forall i, b {:trigger b in p[i].frames} :: 0 <= i < |p| && b in p[i].frames ==> b < |blocks| && MarkedFor(blocks[b], p[i].key)
  }

  lemma ParkedFrame(p: PS.Pend, blocks: seq<Frame>, b: nat, f: Frame)
    requires ParkedOk(p, blocks) && b < |blocks|
    requires forall i :: 0 <= i < |p| ==> b !in p[i].frames
    ensures ParkedOk(p, blocks[b := f])
  {}

  predicate PacketOk(w: Packet) {
    w.FrameOut? ==>
      FrameOk(w.orig) && w.ifidx == w.orig.outIfidx && w.bytes == Rewritten(w.orig.data, w.dmac, w.smac)[..w.orig.len]
  }

  /** The next hop forward_task writes into the block; the interface index is cut to a byte. */
  function MarkedFrame(f: Frame, k: Key): Frame {
    f.(outIfidx := k.ifidx % 256, nexthop := k.ip)
  }

  /** What forward_send puts on the wire for a frame: nothing when its interface is gone. */
  function PacketOf(f: Frame, mac: Mac, ifs: seq<Iface>): seq<Packet> {
    var i := FirstByIndex(ifs, f.outIfidx);
    if i < 0 || !FrameOk(f) then []
    else [FrameOut(f, f.outIfidx, mac, ifs[i].mac, Rewritten(f.data, mac, ifs[i].mac)[..f.len])]
  }

  /** The same for a chain of blocks, in order. */
  function PacketsOf(blocks: seq<Frame>, c: seq<nat>, mac: Mac, ifs: seq<Iface>): seq<Packet> {
    if c == [] then []
    else
      var last := c[|c| - 1];
      PacketsOf(blocks, c[..|c| - 1], mac, ifs) + if last < |blocks| then PacketOf(blocks[last], mac, ifs) else []
  }

  /** The caches differ in their time stamps only. */
  ghost predicate SameMacs(m: AT.Cache, n: AT.Cache) {
    m.Keys == n.Keys && forall k :: k in m ==> n[k].mac == m[k].mac
  }

  /** Interface i, or nobody if it is -1, answers for an address: its owner, or by proxy the exit of a gateway-less route. */
  ghost predicate AnswersFor(cfg: Config, tpa: Ip, proxy: bool, i: int) {
    && -1 <= i < |cfg.ifs|
    && if HasIp(cfg.ifs, tpa) then i >= 0 && cfg.ifs[i].ip == tpa && forall j :: 0 <= j < i ==> cfg.ifs[j].ip != tpa
       else if !proxy then i == -1
       else exists b :: Route.LookupResult(cfg.routes, tpa, cfg.clz0, b) && i == DirectExit(cfg, b)
  }

  function DirectExit(cfg: Config, b: int): int
    requires b < |cfg.routes|
  {
    if b >= 0 && cfg.routes[b].gw == 0 then FirstByIndex(cfg.ifs, cfg.routes[b].ifindex) else -1
  }

  const BCAST: Mac := [255, 255, 255, 255, 255, 255]
  const NO_MAC: Mac := [0, 0, 0, 0, 0, 0]

  /** An ARP packet of 42 bytes: Ethernet header, then hardware and protocol types, operation and the four addresses. */
  function ArpBytes(dst: Mac, src: Mac, oper: int, sha: Mac, spa: Ip, tha: Mac, tpa: Ip): (s: seq<Byte>)
    requires 0 <= oper < 0x1_0000
    ensures |s| == 42
  {
    dst + src + ToBytes16(0x0806) + ToBytes16(1) + ToBytes16(0x0800) + [6, 4] + ToBytes16(oper)
    + sha + ToBytes32(spa) + tha + ToBytes32(tpa)
  }

  /** The broadcast request for a key: nothing when its interface is gone. */
  function RequestOf(k: Key, ifs: seq<Iface>): seq<Packet> {
    var i := FirstByIndex(ifs, k.ifidx);
    if i < 0 then []
    else [ArpOut(k.ifidx, ArpBytes(BCAST, ifs[i].mac, 1, ifs[i].mac, ifs[i].ip, NO_MAC, k.ip))]
  }

  function Requested(asked: bool, k: Key, ifs: seq<Iface>): seq<Packet> {
    if asked then RequestOf(k, ifs) else []
  }

  /** The chain of a resolved key, sent to the MAC the cache has for it. */
  ghost function Flushed(blocks: seq<Frame>, k: Key, c: seq<nat>, m: AT.Cache, ifs: seq<Iface>): seq<Packet> {
    if k in m then PacketsOf(blocks, c, m[k].mac, ifs) else []
  }

  /** What the unlocked half of pend_tick puts on the wire for the nodes q: for each, in order, its request and its flush. */
  ghost function TickPackets(q: PS.Pend, asked: seq<bool>, blocks: seq<Frame>, m: AT.Cache, ifs: seq<Iface>): seq<Packet>
    requires |asked| == |q|
  {
    if q == [] then []
    else
      var n := q[|q| - 1];
      TickPackets(q[..|q| - 1], asked[..|q| - 1], blocks, m, ifs)
        + (Requested(asked[|q| - 1], n.key, ifs) + Flushed(blocks, n.key, n.frames, m, ifs))
  }

  lemma OneMoreNode(q: PS.Pend, i: nat, asked: seq<bool>, a: bool, blocks: seq<Frame>, m: AT.Cache, ifs: seq<Iface>)
    requires i < |q| && |asked| == i
    ensures TickPackets(q[..i + 1], asked + [a], blocks, m, ifs)
         == TickPackets(q[..i], asked, blocks, m, ifs) + (Requested(a, q[i].key, ifs) + Flushed(blocks, q[i].key, q[i].frames, m, ifs))
  {
    var t, u := q[..i + 1], asked + [a];
    assert t[..i] == q[..i] && u[..i] == asked && t[i] == q[i] && u[i] == a && |t| == i + 1;
    hide Requested, Flushed;
  }

  /** The parked frames are as they were. */
  ghost predicate Kept(p: PS.Pend, blocks: seq<Frame>, blocks': seq<Frame>) {
    forall i :: 0 <= i < |p| ==> KeptAt(p[i], blocks, blocks')
  }

  ghost predicate KeptAt(n: PS.Node, blocks: seq<Frame>, blocks': seq<Frame>) {
    forall b :: b in n.frames ==> b < |blocks| && b < |blocks'| && blocks'[b] == blocks[b]
  }

  ghost predicate InQueue(p: PS.Pend, b: nat) {
    exists i :: 0 <= i < |p| && b in p[i].frames
  }

  /** If it is parked, the frame is this one but for its link. */
  ghost predicate ParkedAs(p: PS.Pend, blocks: seq<Frame>, b: nat, f: Frame) {
    InQueue(p, b) ==> b < |blocks| && blocks[b] == f.(next := blocks[b].next)
  }

  lemma ParkedAsKept(p: PS.Pend, x: seq<Frame>, y: seq<Frame>, b: nat, f: Frame)
    requires ParkedAs(p, x, b, f) && Kept(p, x, y)
    ensures ParkedAs(p, y, b, f)
  {}

  lemma KeptAgain(done: PS.Pend, rest: PS.Pend, x: seq<Frame>, y: seq<Frame>, z: seq<Frame>)
    requires Kept(rest, x, y) && Kept(done + rest, y, z)
    ensures Kept(rest, x, z)
  {
    KeptPart(done, rest, y, z);
  }

  /** What happens to a chain that left does not matter to the others. */
  lemma KeptWithout(p: PS.Pend, x: seq<Frame>, y: seq<Frame>, c: seq<nat>)
    requires |x| == |y| && forall b :: 0 <= b < |y| && b !in c ==> y[b] == x[b]
    requires forall i, b {:trigger b in p[i].frames} :: 0 <= i < |p| && b in p[i].frames ==> b < |x| && b !in c
    ensures Kept(p, x, y)
  {}

  lemma SameKeys(m: AT.Cache, n: AT.Cache)
    requires SameMacs(m, n)
    ensures m.Keys == n.Keys && forall k :: k in m <==> k in n
  {}

  lemma SameToItself(m: AT.Cache)
    ensures SameMacs(m, m)
  {}

  lemma SameMacsThrough(m: AT.Cache, n: AT.Cache, o: AT.Cache)
    requires SameMacs(m, n) && SameMacs(n, o)
    ensures SameMacs(m, o)
  {}

  lemma KeptPart(a: PS.Pend, b: PS.Pend, x: seq<Frame>, y: seq<Frame>)
    requires Kept(a + b, x, y)
    ensures Kept(b, x, y)
  {
    var c := a + b;
    forall i | 0 <= i < |b| ensures KeptAt(b[i], x, y) {
      assert c[|a| + i] == b[i];
    }
  }

  lemma {:induction false} SamePackets(x: seq<Frame>, y: seq<Frame>, c: seq<nat>, mac: Mac, ifs: seq<Iface>)
    requires forall j :: 0 <= j < |c| ==> c[j] < |x| && c[j] < |y| && y[c[j]] == x[c[j]]
    ensures PacketsOf(x, c, mac, ifs) == PacketsOf(y, c, mac, ifs)
  {
    hide PacketOf;
    if c != [] {
      var t := c[..|c| - 1];
      assert forall j :: 0 <= j < |t| ==> t[j] == c[j];
      SamePackets(x, y, t, mac, ifs);
    }
  }

  lemma SameFlush(x: seq<Frame>, y: seq<Frame>, n: PS.Node, rest: PS.Pend, m: AT.Cache, m': AT.Cache, ifs: seq<Iface>)
    requires Kept([n] + rest, x, y) && SameMacs(m, m')
    ensures Flushed(x, n.key, n.frames, m, ifs) == Flushed(y, n.key, n.frames, m', ifs)
  {
    hide PacketsOf;
    forall j | 0 <= j < |n.frames| ensures n.frames[j] < |x| && n.frames[j] < |y| && y[n.frames[j]] == x[n.frames[j]] {
      assert ([n] + rest)[0] == n && n.frames[j] in n.frames;
    }
    if n.key in m {
      SamePackets(x, y, n.frames, m[n.key].mac, ifs);
    }
  }

  lemma SamePopped(x: seq<Frame>, y: seq<Frame>, p: PS.Pend, k: Key, m: AT.Cache, m': AT.Cache, ifs: seq<Iface>)
    requires Kept(p, x, y) && SameMacs(m, m')
    ensures Flushed(x, k, PS.Popped(p, k).1, m, ifs) == Flushed(y, k, PS.Popped(p, k).1, m', ifs)
  {
    hide PacketsOf;
    var i, c := PS.Pos(p, k), PS.Popped(p, k).1;
    if k in m {
      forall j | 0 <= j < |c| ensures c[j] < |x| && c[j] < |y| && y[c[j]] == x[c[j]] {
        assert KeptAt(p[i], x, y) && c[j] in p[i].frames;
      }
      SamePackets(x, y, c, m[k].mac, ifs);
    }
  }

  // ---- ARP frames

  predicate ArpOk(data: seq<Byte>, len: int)
    requires |data| == MP_PAYLOAD
  {
    len >= 42 && Be16(data[14], data[15]) == 1 && Be16(data[16], data[17]) == 0x0800 && data[18] == 6 && data[19] == 4
  }

  predicate IsRequest(data: seq<Byte>)
    requires |data| == MP_PAYLOAD
  {
    Be16(data[20], data[21]) == 1
  }

  function SenderOf(data: seq<Byte>, inIfidx: int): Key
    requires |data| == MP_PAYLOAD
  {
    Key(Be32(data[28], data[29], data[30], data[31]), inIfidx)
  }

  function TargetOf(data: seq<Byte>): Ip
    requires |data| == MP_PAYLOAD
  {
    Be32(data[38], data[39], data[40], data[41])
  }

  /** The address lies on the network of the interface it is keyed with. */
  predicate OnSubnetOf(ifs: seq<Iface>, k: Key) {
    var i := FirstByIndex(ifs, k.ifidx);
    i >= 0 && OnLink(ifs[i], k.ip)
  }

  predicate OnLinkOfSome(ifs: seq<Iface>, dst: Ip) {
    exists i :: 0 <= i < |ifs| && OnLink(ifs[i], dst)
  }

  /**
   What the next hop of a destination is. On a network of ours it is the destination itself, on that network. Behind it,
   with the first longest match for a guide, it is the gateway of the route if it has one, on the interface of the
   route, and never 0.0.0.0; and ARP can learn it if and only if that gateway is on the network of the interface.
   */
  ghost predicate LeadsOn(cfg: Config, dst: Ip, k: Key)
    requires Route.Contiguous(cfg.routes)
  {
    if OnLinkOfSome(cfg.ifs, dst) then
      k.ip == dst && (UniqueIndices(cfg.ifs) ==> OnSubnetOf(cfg.ifs, k))
    else
      exists b :: 0 <= b < |cfg.routes| && Route.LongestMatch(cfg.routes, dst, b) && FollowsRoute(cfg, dst, cfg.routes[b], k)
  }

  /** The routes are ones a lookup finds the longest match of. */
  ghost predicate Guides(cfg: Config) {
    Route.Contiguous(cfg.routes) && cfg.clz0 >= 32
  }

  /** A network of ours or a route has the destination. */
  predicate Leads(cfg: Config, dst: Ip) {
    OnLinkOfSome(cfg.ifs, dst) || exists i :: 0 <= i < |cfg.routes| && Route.Matches(cfg.routes[i], dst)
  }

  predicate FollowsRoute(cfg: Config, dst: Ip, r: Route.Route, k: Key) {
    && k.ifidx == r.ifindex && (dst != 0 ==> k.ip != 0)
    && (r.gw != 0 ==> k.ip == r.gw)
    && (OnSubnetOf(cfg.ifs, k) <==> r.gw != 0 && OnSubnetOf(cfg.ifs, Key(r.gw, r.ifindex)))
  }

  lemma {:induction false} FirstOnLink(ifs: seq<Iface>, dst: Ip, n: nat) returns (i: nat)
    requires n < |ifs| && OnLink(ifs[n], dst)
    ensures i <= n && OnLink(ifs[i], dst) && forall j :: 0 <= j < i ==> !OnLink(ifs[j], dst)
  {
    hide OnLink;
    i := n;
    if j: nat :| j < n && OnLink(ifs[j], dst) {
      i := FirstOnLink(ifs, dst, j);
    }
  }

  lemma DirectLeadsOn(cfg: Config, dst: Ip, k: Key, i: nat)
    requires Route.Contiguous(cfg.routes) && i < |cfg.ifs| && OnLink(cfg.ifs[i], dst) && k == Key(dst, cfg.ifs[i].ifindex)
    ensures LeadsOn(cfg, dst, k)
  {
    hide OnLink;
  }

  lemma RoutedLeadsOn(cfg: Config, dst: Ip, k: Key, b: nat)
    requires Guides(cfg) && !OnLinkOfSome(cfg.ifs, dst)
    requires b < |cfg.routes| && Route.LookupResult(cfg.routes, dst, cfg.clz0, b)
    requires k == Key(if cfg.routes[b].gw != 0 then cfg.routes[b].gw else dst, cfg.routes[b].ifindex)
    ensures LeadsOn(cfg, dst, k)
  {
    hide OnLink, Route.LookupResult, Route.LongestMatch;
    Route.LookupIsLongest(cfg.routes, dst, cfg.clz0, b);
    assert FollowsRoute(cfg, dst, cfg.routes[b], k);
  }

  /** There is a next hop exactly when a network of ours or a route has the destination, and it leads on. */
  lemma NextHopLeadsOn(cfg: Config, dst: Ip)
    requires Guides(cfg)
    ensures forall k: Key :: GoesVia(cfg, dst, k.ip, k.ifidx) ==> LeadsOn(cfg, dst, k)
    ensures (exists k: Key :: GoesVia(cfg, dst, k.ip, k.ifidx))
       <==> Leads(cfg, dst)
  {
    hide OnLink, LeadsOn, Route.LookupResult, Route.Matches;
    forall k: Key | GoesVia(cfg, dst, k.ip, k.ifidx) ensures LeadsOn(cfg, dst, k) {
      GoesSomewhere(cfg, dst, k);
    }
    if n: nat :| n < |cfg.ifs| && OnLink(cfg.ifs[n], dst) {
      var i := FirstOnLink(cfg.ifs, dst, n);
      var k := Key(dst, cfg.ifs[i].ifindex);
      assert GoesVia(cfg, dst, k.ip, k.ifidx);
    } else {
      RouteFound(cfg, dst);
    }
  }

  lemma GoesSomewhere(cfg: Config, dst: Ip, k: Key)
    requires Guides(cfg) && GoesVia(cfg, dst, k.ip, k.ifidx)
    ensures LeadsOn(cfg, dst, k)
  {
    hide OnLink, LeadsOn, Route.LookupResult;
    if OnLinkOfSome(cfg.ifs, dst) {
      var i: nat :| i < |cfg.ifs| && OnLink(cfg.ifs[i], dst) && k.ifidx == cfg.ifs[i].ifindex;
      DirectLeadsOn(cfg, dst, k, i);
    } else {
      var b: nat :| b < |cfg.routes| && Route.LookupResult(cfg.routes, dst, cfg.clz0, b) && k.ifidx == cfg.routes[b].ifindex
                    && k.ip == if cfg.routes[b].gw != 0 then cfg.routes[b].gw else dst;
      RoutedLeadsOn(cfg, dst, k, b);
    }
  }

  lemma RouteFound(cfg: Config, dst: Ip)
    requires Guides(cfg) && !OnLinkOfSome(cfg.ifs, dst)
    ensures (exists k: Key :: GoesVia(cfg, dst, k.ip, k.ifidx)) <==> exists i :: 0 <= i < |cfg.routes| && Route.Matches(cfg.routes[i], dst)
  {
    hide OnLink, LeadsOn, Route.LookupResult, Route.Matches;
    var b := Route.SomeLookup(cfg.routes, dst, cfg.clz0);
    Route.LookupIsLongest(cfg.routes, dst, cfg.clz0, b);
    if b >= 0 {
      var r := cfg.routes[b];
      var k := Key(if r.gw != 0 then r.gw else dst, r.ifindex);
      assert GoesVia(cfg, dst, k.ip, k.ifidx);
    } else {
      forall k: Key ensures !GoesVia(cfg, dst, k.ip, k.ifidx) {
        forall c: nat | c < |cfg.routes| && Route.LookupResult(cfg.routes, dst, cfg.clz0, c) ensures false {
          Route.LookupIsLongest(cfg.routes, dst, cfg.clz0, c);
        }
      }
    }
  }

  /** arp_respond's rewrite: an answer of `it` to the sender, everything after the ARP packet untouched. */
  function Reply(data: seq<Byte>, it: Iface): (r: seq<Byte>)
    requires |data| == MP_PAYLOAD
    ensures |r| == |data|
  {
    data[22..28] + it.mac + data[12..20] + ToBytes16(2) + it.mac + ToBytes32(it.ip) + data[22..28] + data[28..32] + data[42..]
  }

  /** A well-formed request becomes a well-formed ARP reply from `it` to the requester. */
  lemma {:induction false} ReplyIsArp(data: seq<Byte>, it: Iface)
    requires |data| == MP_PAYLOAD && ArpOk(data, 42) && Be16(data[12], data[13]) == 0x0806
    ensures Reply(data, it)[..42]
         == ArpBytes(data[22..28], it.mac, 2, it.mac, it.ip, data[22..28], SenderOf(data, 0).ip)
  {
    BytesOfBe32(data[28], data[29], data[30], data[31]);
    assert data[28..32] == ToBytes32(SenderOf(data, 0).ip);
    assert data[12..20] == ToBytes16(0x0806) + ToBytes16(1) + ToBytes16(0x0800) + [6, 4];
    FirstOf(data[22..28] + it.mac + data[12..20] + ToBytes16(2) + it.mac + ToBytes32(it.ip) + data[22..28] + data[28..32], data[42..]);
    hide ToBytes32, ToBytes16;
    assert data[22..28] + it.mac + (ToBytes16(0x0806) + ToBytes16(1) + ToBytes16(0x0800) + [6, 4])
        == data[22..28] + it.mac + ToBytes16(0x0806) + ToBytes16(1) + ToBytes16(0x0800) + [6, 4];
  }

  lemma NoPackets(blocks: seq<Frame>, mac: Mac, ifs: seq<Iface>)
    ensures PacketsOf(blocks, [], mac, ifs) == []
  {}

  lemma OneMorePacket(blocks: seq<Frame>, c: seq<nat>, j: nat, mac: Mac, ifs: seq<Iface>)
    requires j < |c| && c[j] < |blocks|
    ensures PacketsOf(blocks, c[..j + 1], mac, ifs) == PacketsOf(blocks, c[..j], mac, ifs) + PacketOf(blocks[c[j]], mac, ifs)
  {
    assert c[..j + 1][..j] == c[..j];
    hide PacketOf;
  }

  lemma FirstOf(a: seq<Byte>, b: seq<Byte>)
    ensures (a + b)[..|a|] == a
  {}

  class Forwarder {
    const pend: PT.Table
    const arp: AT.Table
    const routes: Route.Table
    const fw: Firewall.Table
    const ifs: seq<Iface>
    var now: U64
    var wire: seq<Packet>
    ghost var handed: seq<nat>      // the blocks given to forward_send, in order

    ghost predicate Valid()
      reads this, pend, pend.nodes, pend.pool, pend.pool.freeStack, arp, arp.entries, arp.bucket
      reads routes, routes.routes, fw, fw.rules
    {
      && pend.Valid() && arp.Valid() && routes.Valid() && fw.Valid() && now < U64_MAX
      && ParkedOk(pend.Contents(), pend.pool.blocks)
      && forall i :: 0 <= i < |wire| ==> PacketOk(wire[i])
    }

    ghost function Cfg(): Config
      reads routes, routes.routes, fw, fw.rules
      requires routes.Valid() && fw.Valid()
    {
      Config(ifs, routes.Contents(), fw.Contents(), routes.clz0)
    }

    constructor (pend: PT.Table, arp: AT.Table, routes: Route.Table, fw: Firewall.Table, ifs: seq<Iface>)
      requires pend.Valid() && pend.Contents() == [] && arp.Valid() && routes.Valid() && fw.Valid()
      ensures Valid() && wire == [] && handed == []
      ensures this.pend == pend && this.arp == arp && this.routes == routes && this.fw == fw && this.ifs == ifs
    {
      this.pend, this.arp, this.routes, this.fw, this.ifs := pend, arp, routes, fw, ifs;
      now := 0;
      wire := [];
      handed := [];
    }

    /** The clock never goes back. */
    method MonotonicNow() returns (t: U64)
      requires Valid()
      modifies this`now
      ensures Valid() && old(now) <= t == now
    {
      var later: U64 :| now <= later < U64_MAX;
      now := later;
      t := now;
    }

    /** forward_send: the caller's block is rewritten, sent if its interface is still there, and freed. */
    method ForwardSend(b: nat, mac: Mac)
      requires Valid() && b in pend.Outside() && b < |pend.pool.blocks| && FrameOk(pend.pool.blocks[b])
      modifies this`wire, this`handed, pend.pool`blocks, pend.pool`freeTop, pend.pool`heapLive, pend.pool.freeStack
      ensures Valid() && pend.Contents() == old(pend.Contents()) && pend.Outside() == old(pend.Outside()) - {b}
      ensures |pend.pool.blocks| == |old(pend.pool.blocks)|
      ensures forall c :: 0 <= c < |pend.pool.blocks| && c != b ==> pend.pool.blocks[c] == old(pend.pool.blocks)[c]
      ensures handed == old(handed) + [b] && pend.pool.freeTop >= old(pend.pool.freeTop)
      ensures wire == old(wire) + PacketOf(old(pend.pool.blocks)[b], mac, ifs)
    {
      hide AT.Table.Valid, AT.Table.Contents, PT.Table.Contents, PT.Table.Outside, PT.Table.Shape, Pool.Out, Pool.Valid;
      hide FrameOk, Rewritten, PT.Inv, AT.Inv, ParkedOk;
      pend.IsReady();
      var f := pend.pool.blocks[b];
      handed := handed + [b];
      var i := FirstByIndex(ifs, f.outIfidx);
      assert |f.data| == MP_PAYLOAD && f.len <= MP_PAYLOAD by { FrameShape(f); }
      if i >= 0 {
        var data := Rewritten(f.data, mac, ifs[i].mac);
        Unparked(b);
        ParkedFrame(pend.Contents(), pend.pool.blocks, b, f.(data := data));
        pend.WriteBlock(b, f.(data := data));
        wire := wire + [FrameOut(f, f.outIfidx, mac, ifs[i].mac, data[..f.len])];
      }
      pend.IsReady();
      pend.GiveBlock(b);
      pend.IsReady();
    }

    lemma FrameShape(f: Frame)
      requires FrameOk(f)
      ensures |f.data| == MP_PAYLOAD && f.len <= MP_PAYLOAD
    {}

    /** A block outside the table is in no chain of the queue. */
    lemma Unparked(b: nat)
      requires pend.Valid() && b in pend.Outside()
      ensures forall i :: 0 <= i < |pend.Contents()| ==> b !in pend.Contents()[i].frames
    {
      pend.OutsideIsUnparked(b);
      assert forall j :: 0 <= j < |pend.order| ==> pend.order[j] in pend.order;
    }

    lemma OutsideIsThere(b: nat)
      requires Valid() && b in pend.Outside()
      ensures b < |pend.pool.blocks|
    {
      hide AT.Inv, ParkedOk, PacketOk;
    }

    /** recvfrom into a block. */
    method Fill(b: nat, f: Frame)
      requires Valid() && b in pend.Outside() && b < |pend.pool.blocks| && |f.data| == MP_PAYLOAD
      modifies pend.pool`blocks
      ensures Valid() && pend.pool.blocks == old(pend.pool.blocks)[b := f]
      ensures pend.Outside() == old(pend.Outside()) && pend.Contents() == old(pend.Contents())
      ensures !InQueue(pend.Contents(), b)
    {
      hide PT.Inv, AT.Inv, ParkedOk, PacketOk;
      Unparked(b);
      ParkedFrame(pend.Contents(), pend.pool.blocks, b, f);
      pend.WriteBlock(b, f);
    }

    /** The draining loop of forward_flush_pending. */
    method SendChain(first: int, mac: Mac, ghost c: seq<nat>)
      requires Valid() && Linked(first, BlockNexts(pend.pool.blocks), c) && Distinct(c)
      requires Elements(c) <= pend.Outside() && forall j :: 0 <= j < |c| ==> FrameOk(pend.pool.blocks[c[j]])
      modifies this`wire, this`handed, pend.pool`blocks, pend.pool`freeTop, pend.pool`heapLive, pend.pool.freeStack
      ensures Valid() && pend.Contents() == old(pend.Contents()) && pend.Outside() == old(pend.Outside()) - Elements(c)
      ensures handed == old(handed) + c && wire == old(wire) + PacketsOf(old(pend.pool.blocks), c, mac, ifs)
      ensures pend.pool.freeTop >= old(pend.pool.freeTop) && |pend.pool.blocks| == |old(pend.pool.blocks)|
      ensures forall b :: 0 <= b < |pend.pool.blocks| && b !in c ==> pend.pool.blocks[b] == old(pend.pool.blocks)[b]
    {
      hide AT.Table.Valid, AT.Table.Contents, PT.Table.Contents, PT.Table.Outside, Pool.Out;
      hide FrameOk, PT.Inv, AT.Inv, ParkedOk, PacketOk, PacketOf, PacketsOf;
      NoPackets(pend.pool.blocks, mac, ifs);
      ghost var blocks := pend.pool.blocks;
      var chain := first;
      ghost var j := 0;
      while chain >= 0
        invariant j <= |c| && chain == At(c, j) && Valid()
        invariant pend.Contents() == old(pend.Contents()) && pend.Outside() == old(pend.Outside()) - Elements(c[..j])
        invariant handed == old(handed) + c[..j] && wire == old(wire) + PacketsOf(blocks, c[..j], mac, ifs)
        invariant |pend.pool.blocks| == |blocks| && forall b :: 0 <= b < |blocks| && b !in c[..j] ==> pend.pool.blocks[b] == blocks[b]
        invariant pend.pool.freeTop >= old(pend.pool.freeTop)
        decreases |c| - j
      {
        var b := chain;
        assert BlockNexts(blocks)[c[j]] == At(c, j + 1);
        chain := pend.pool.blocks[b].next;
        assert c[..j + 1] == c[..j] + [c[j]] && c[j] in Elements(c) && c[j] !in Elements(c[..j]);
        OneMorePacket(blocks, c, j, mac, ifs);
        PS.Assoc(old(wire), PacketsOf(blocks, c[..j], mac, ifs), PacketOf(blocks[b], mac, ifs));
        ForwardSend(b, mac);
        j := j + 1;
      }
      assert c[..|c|] == c;
    }

    /** The critical section of forward_flush_pending. */
    method TakeChain(k: Key) returns (chain: int, ghost c: seq<nat>)
      requires Valid()
      modifies pend`head, pend`order, pend`frames, pend.nodes
      ensures Valid() && (pend.Contents(), c) == PS.Popped(old(pend.Contents()), k)
      ensures Linked(chain, BlockNexts(pend.pool.blocks), c) && Distinct(c)
      ensures Elements(c) !! old(pend.Outside()) && pend.Outside() == old(pend.Outside()) + Elements(c)
      ensures forall j :: 0 <= j < |c| ==> c[j] < |pend.pool.blocks| && FrameOk(pend.pool.blocks[c[j]])
    {
      hide PT.Inv, FrameOk, AT.Inv;
      PoppedFrames(pend.Contents(), k, pend.pool.blocks);
      chain, c := pend.Pop(k);
    }

    /** arp_lookup at the current time. */
    method Resolve(k: Key) returns (hit: bool, mac: Mac)
      requires Valid()
      modifies this`now, arp.entries
      ensures Valid() && pend.Contents() == old(pend.Contents())
      ensures hit <==> k in old(arp.Contents())
      ensures hit ==> mac == old(arp.Contents())[k].mac
      ensures arp.Contents().Keys == old(arp.Contents()).Keys && SameMacs(old(arp.Contents()), arp.Contents())
    {
      hide PT.Inv, AT.Inv, PacketOk;
      var t := MonotonicNow();
      hit, mac := arp.Lookup(k, t);
    }

    /** forward_flush_pending: if the key is resolved, its chain leaves the queue and every frame of it is sent, once. */
    method FlushPending(k: Key)
      requires Valid()
      modifies this, pend`head, pend`order, pend`frames, pend.nodes, arp.entries
      modifies pend.pool`blocks, pend.pool`freeTop, pend.pool`heapLive, pend.pool.freeStack
      ensures Valid() && pend.Outside() == old(pend.Outside())
      ensures arp.Contents().Keys == old(arp.Contents()).Keys && SameMacs(old(arp.Contents()), arp.Contents())
      ensures Kept(pend.Contents(), old(pend.pool.blocks), pend.pool.blocks) && pend.pool.freeTop >= old(pend.pool.freeTop)
      ensures wire == old(wire) + Flushed(old(pend.pool.blocks), k, PS.Popped(old(pend.Contents()), k).1, old(arp.Contents()), ifs)
      ensures k in old(arp.Contents()) ==>
                && pend.Contents() == PS.Popped(old(pend.Contents()), k).0
                && handed == old(handed) + PS.Popped(old(pend.Contents()), k).1
      ensures k !in old(arp.Contents()) ==> pend.Contents() == old(pend.Contents()) && handed == old(handed)
    {
      hide PT.Inv, AT.Inv, ParkedOk, PacketOk, FrameOk, SameMacs, PacketsOf, PS.Popped, Kept;
      ParkedStays();
      var hit, mac := Resolve(k);
      if hit {
        var chain; ghost var c;
        chain, c := TakeChain(k);
        ParkedIsElsewhere(c);
        ghost var p, blocks := pend.Contents(), pend.pool.blocks;
        SendChain(chain, mac, c);
        KeptWithout(p, blocks, pend.pool.blocks, c);
      }
    }

    lemma ParkedStays()
      requires Valid()
      ensures Kept(pend.Contents(), pend.pool.blocks, pend.pool.blocks)
    {
      hide MarkedFor;
    }

    /** No chain in the queue shares a block with one outside. */
    lemma ParkedIsElsewhere(c: seq<nat>)
      requires Valid() && Elements(c) <= pend.Outside()
      ensures forall i, b {:trigger b in pend.Contents()[i].frames} ::
                0 <= i < |pend.Contents()| && b in pend.Contents()[i].frames ==> b < |pend.pool.blocks| && b !in c
    {
      hide PT.Inv, AT.Inv, PacketOk, MarkedFor;
      forall i, b | 0 <= i < |pend.Contents()| && b in pend.Contents()[i].frames ensures b < |pend.pool.blocks| && b !in c {
        if b in c {
          assert b in Elements(c);
          Unparked(b);
        }
      }
    }

    /** mp_alloc, where malloc may fail. */
    method Take() returns (b: int)
      requires Valid()
      modifies pend.pool
      ensures Valid() && pend.Contents() == old(pend.Contents())
      ensures b < 0 ==> pend.Outside() == old(pend.Outside()) && pend.pool.freeTop == 0
      ensures b >= 0 ==> b !in old(pend.Outside()) && pend.Outside() == old(pend.Outside()) + {b as nat}
      ensures old(pend.pool.freeTop) == pend.pool.freeTop + if 0 <= b < MP_COUNT then 1 else 0
      ensures Kept(pend.Contents(), old(pend.pool.blocks), pend.pool.blocks)
    {
      hide PT.Inv, AT.Inv, ParkedOk;
      var mallocOk := *;
      ghost var blocks := pend.pool.blocks;
      ParkedStays();
      b := pend.TakeBlock(mallocOk);
      ParkedKept(pend.Contents(), blocks, pend.pool.blocks);
    }

    /**
     arp_request: one broadcast request for the key, from a pool block that is back in the pool on return; the
     only thing that can stop it is a pool without a block.
     */
    method ArpRequest(k: Key) returns (asked: bool)
      requires Valid()
      modifies this`wire, pend.pool, pend.pool.freeStack
      ensures Valid() && pend.Contents() == old(pend.Contents()) && pend.Outside() == old(pend.Outside())
      ensures wire == old(wire) + Requested(asked, k, ifs) && pend.pool.freeTop == old(pend.pool.freeTop)
      ensures !asked ==> pend.pool.freeTop == 0
      ensures Kept(pend.Contents(), old(pend.pool.blocks), pend.pool.blocks)
    {
      hide AT.Table.Valid, AT.Table.Contents, PT.Table.Contents, Pool.Out;
      hide PT.Inv, AT.Inv, ParkedOk, MarkedFor, FrameOk, ArpBytes, Kept;
      asked := true;
      var i := FirstByIndex(ifs, k.ifidx);
      if i < 0 {
        ParkedStays();
        return;
      }
      var b := Take();
      asked := b >= 0;
      if b >= 0 {
        wire := wire + [ArpOut(k.ifidx, ArpBytes(BCAST, ifs[i].mac, 1, ifs[i].mac, ifs[i].ip, NO_MAC, k.ip))];
        Free(b);
      }
    }

    /** The locked half of pend_tick: the nodes left, in list order, are the ones to request and flush. */
    method RetryAll() returns (keys: seq<Key>, ghost t: U64)
      requires Valid()
      modifies this`now, pend`head, pend`order, pend`frames, pend.nodes
      modifies pend.pool`freeTop, pend.pool`heapLive, pend.pool.freeStack
      ensures Valid() && pend.Outside() == old(pend.Outside())
      ensures pend.Contents() == PS.Retried(old(pend.Contents()), t) && keys == PS.Keys(pend.Contents())
      ensures PS.Inv(pend.Contents()) && pend.pool.freeTop >= old(pend.pool.freeTop)
    {
      hide PT.Inv, AT.Inv, ParkedOk, PacketOk, PS.Retried, PS.Inv;
      var now_ := MonotonicNow();
      t := now_;
      RetriedFrames(pend.Contents(), t, pend.pool.blocks);
      keys := pend.Retry(now_);
      ContentsValid();
    }

    lemma ContentsValid()
      requires Valid()
      ensures PS.Inv(pend.Contents())
    {
      PT.QueueIsValid(pend.nodes[..], pend.head, pend.order, pend.frames, pend.pool.blocks, -1);
    }

    /** Before a turn of the unlocked half of pend_tick over q: `done` was looked at and stays, `rest` is ahead. */
    ghost predicate Ticking(q: PS.Pend, m: AT.Cache, done: PS.Pend, out: seq<nat>, rest: PS.Pend, blocks: seq<Frame>)
      reads this, pend, pend.nodes, pend.pool, pend.pool.freeStack, arp, arp.entries, arp.bucket
      reads routes, routes.routes, fw, fw.rules
    {
      && Valid() && pend.Contents() == done + rest && PS.TickProgress(q, m.Keys, done, out, rest)
      && SameMacs(m, arp.Contents()) && Kept(rest, blocks, pend.pool.blocks)
    }

    method RequestOne(k: Key, ghost q: PS.Pend, ghost m: AT.Cache, ghost done: PS.Pend, ghost out: seq<nat>, ghost rest: PS.Pend,
                      ghost blocks: seq<Frame>)
      returns (asked: bool)
      requires Valid() && Ticking(q, m, done, out, rest, blocks)
      modifies this`wire, pend.pool, pend.pool.freeStack
      ensures Valid() && Ticking(q, m, done, out, rest, blocks) && pend.Outside() == old(pend.Outside())
      ensures wire == old(wire) + Requested(asked, k, ifs)
      ensures pend.pool.freeTop == old(pend.pool.freeTop) && (!asked ==> pend.pool.freeTop == 0)
    {
      hide PT.Inv, AT.Inv, ParkedOk, PacketOk, PS.TickProgress, Kept, Requested, SameMacs;
      ghost var b := pend.pool.blocks;
      asked := ArpRequest(k);
      KeptAgain(done, rest, blocks, b, pend.pool.blocks);
    }

    method FlushOne(k: Key, ghost q: PS.Pend, ghost m: AT.Cache, ghost done: PS.Pend, ghost out: seq<nat>, ghost rest: PS.Pend,
                    ghost blocks: seq<Frame>)
      returns (ghost done': PS.Pend, ghost out': seq<nat>)
      requires Valid() && rest != [] && k == rest[0].key && Ticking(q, m, done, out, rest, blocks)
      modifies this, pend`head, pend`order, pend`frames, pend.nodes, arp.entries
      modifies pend.pool`blocks, pend.pool`freeTop, pend.pool`heapLive, pend.pool.freeStack
      ensures Valid() && Ticking(q, m, done', out', rest[1..], blocks) && pend.Outside() == old(pend.Outside())
      ensures (done', out') == if k in m then (done, out + rest[0].frames) else (done + [rest[0]], out)
      ensures handed == old(handed) + if k in m then rest[0].frames else []
      ensures wire == old(wire) + Flushed(blocks, k, rest[0].frames, m, ifs) && pend.pool.freeTop >= old(pend.pool.freeTop)
    {
      hide PT.Inv, AT.Inv, ParkedOk, PacketOk, PS.TickProgress, PS.Inv, PS.Popped, Kept, Flushed, SameMacs;
      ContentsValid();
      PS.PopNext(done, rest);
      PS.TickStep(q, m.Keys, done, out, rest);
      ghost var b, m1 := pend.pool.blocks, arp.Contents();
      assert [rest[0]] + rest[1..] == rest;
      SameFlush(blocks, b, rest[0], rest[1..], m, m1, ifs);
      SameKeys(m, m1);
      done', out' := if k in m then done else done + [rest[0]], if k in m then out + rest[0].frames else out;
      FlushPending(k);
      SameMacsThrough(m, m1, arp.Contents());
      KeptPart([rest[0]], rest[1..], blocks, b);
      KeptAgain(done', rest[1..], blocks, b, pend.pool.blocks);
    }

    /** One turn: request the key, and flush it if it is resolved by now. */
    method TickOne(k: Key, ghost q: PS.Pend, ghost m: AT.Cache, ghost done: PS.Pend, ghost out: seq<nat>, ghost rest: PS.Pend,
                   ghost blocks: seq<Frame>)
      returns (ghost done': PS.Pend, ghost out': seq<nat>, asked: bool)
      requires Valid() && rest != [] && k == rest[0].key && Ticking(q, m, done, out, rest, blocks)
      modifies this, pend`head, pend`order, pend`frames, pend.nodes, arp.entries
      modifies pend.pool, pend.pool.freeStack
      ensures Valid() && Ticking(q, m, done', out', rest[1..], blocks) && pend.Outside() == old(pend.Outside())
      ensures forall base :: old(handed) == base + out ==> handed == base + out'
      ensures wire == old(wire) + (Requested(asked, k, ifs) + Flushed(blocks, k, rest[0].frames, m, ifs))
      ensures pend.pool.freeTop >= old(pend.pool.freeTop) && (!asked ==> old(pend.pool.freeTop) == 0)
    {
      hide Ticking, Flushed, Requested, PT.Inv, AT.Inv;
      asked := RequestOne(k, q, m, done, out, rest, blocks);
      done', out' := FlushOne(k, q, m, done, out, rest, blocks);
      PS.Assoc(old(wire), Requested(asked, k, ifs), Flushed(blocks, k, rest[0].frames, m, ifs));
      forall base | old(handed) == base + out ensures handed == base + out' {
        PS.Assoc(base, out, rest[0].frames);
        assert base + out + [] == base + out;
      }
    }

    /** The unlocked half of pend_tick. */
    method FlushAll(keys: seq<Key>) returns (asked: seq<bool>)
      requires Valid() && keys == PS.Keys(pend.Contents())
      modifies this, pend`head, pend`order, pend`frames, pend.nodes, arp.entries
      modifies pend.pool, pend.pool.freeStack
      ensures Valid() && pend.Outside() == old(pend.Outside()) && SameMacs(old(arp.Contents()), arp.Contents())
      ensures pend.Contents() == PS.Unresolved(old(pend.Contents()), old(arp.Contents()).Keys)
      ensures handed == old(handed) + PS.Released(old(pend.Contents()), old(arp.Contents()).Keys)
      ensures |asked| == |keys| && (old(pend.pool.freeTop) > 0 ==> forall i :: 0 <= i < |asked| ==> asked[i])
      ensures wire == old(wire) + TickPackets(old(pend.Contents()), asked, old(pend.pool.blocks), old(arp.Contents()), ifs)
    {
      hide PT.Inv, AT.Inv, ParkedOk, PacketOk, PS.Unresolved, PS.Released, PS.TickProgress, TickPackets, Ticking, SameMacs;
      ghost var m, q, blocks := arp.Contents(), pend.Contents(), pend.pool.blocks;
      ghost var done, out := [], [];
      asked := [];
      TickBegins(q, m, blocks);
      for i := 0 to |keys|
        invariant Valid() && |asked| == i && Ticking(q, m, done, out, q[i..], blocks) && pend.Outside() == old(pend.Outside())
        invariant handed == old(handed) + out && pend.pool.freeTop >= old(pend.pool.freeTop)
        invariant wire == old(wire) + TickPackets(q[..i], asked, blocks, m, ifs)
        invariant old(pend.pool.freeTop) > 0 ==> forall j :: 0 <= j < i ==> asked[j]
      {
        assert q[i..][1..] == q[i + 1..];
        var a;
        done, out, a := TickOne(keys[i], q, m, done, out, q[i..], blocks);
        OneMoreNode(q, i, asked, a, blocks, m, ifs);
        PS.Assoc(old(wire), TickPackets(q[..i], asked, blocks, m, ifs), Requested(a, keys[i], ifs) + Flushed(blocks, keys[i], q[i].frames, m, ifs));
        asked := asked + [a];
      }
      TickEnds(q, m, done, out, blocks);
    }

    lemma TickBegins(q: PS.Pend, m: AT.Cache, blocks: seq<Frame>)
      requires Valid() && q == pend.Contents() && m == arp.Contents() && blocks == pend.pool.blocks
      ensures Ticking(q, m, [], [], q[0..], blocks) && TickPackets(q[..0], [], blocks, m, ifs) == []
    {
      hide PT.Inv, AT.Inv, ParkedOk, PacketOk;
      PS.TickStart(q, m.Keys);
      assert q[0..] == q;
      ParkedStays();
    }

    lemma TickEnds(q: PS.Pend, m: AT.Cache, done: PS.Pend, out: seq<nat>, blocks: seq<Frame>)
      requires Ticking(q, m, done, out, q[|q|..], blocks)
      ensures Valid() && pend.Contents() == PS.Unresolved(q, m.Keys) && out == PS.Released(q, m.Keys) && SameMacs(m, arp.Contents())
      ensures q[..|q|] == q
    {
      hide PT.Inv, AT.Inv, ParkedOk, PacketOk, PS.Unresolved, PS.Released;
      assert q[|q|..] == [];
      PS.TickEnd(q, m.Keys, done, out);
    }

    /**
     pend_tick, when nothing else runs: one request for each node that has a retry left, and behind it, if its
     key is resolved, its frames, each once and in order, with the MAC of the cache; afterwards no chain waits
     for a key the ARP table has. A request stays away only if the pool had no free block when the tick began.
     */
    method PendTick() returns (ghost t: U64, asked: seq<bool>)
      requires Valid()
      modifies this, pend`head, pend`order, pend`frames, pend.nodes, arp.entries
      modifies pend.pool, pend.pool.freeStack
      ensures Valid() && pend.Outside() == old(pend.Outside()) && SameMacs(old(arp.Contents()), arp.Contents())
      ensures pend.Contents() == PS.Unresolved(PS.Retried(old(pend.Contents()), t), arp.Contents().Keys)
      ensures handed == old(handed) + PS.Released(PS.Retried(old(pend.Contents()), t), arp.Contents().Keys)
      ensures forall i :: 0 <= i < |pend.Contents()| ==> pend.Contents()[i].key !in arp.Contents()
      ensures |asked| == |PS.Retried(old(pend.Contents()), t)|
      ensures old(pend.pool.freeTop) > 0 ==> forall i :: 0 <= i < |asked| ==> asked[i]
      ensures wire == old(wire)
                + TickPackets(PS.Retried(old(pend.Contents()), t), asked, old(pend.pool.blocks), old(arp.Contents()), ifs)
    {
      hide PT.Inv, AT.Inv, ParkedOk, PacketOk, PS.Retried, PS.Unresolved, PS.Released, PS.Inv, TickPackets, SameMacs;
      var keys;
      ghost var m := arp.Contents();
      keys, t := RetryAll();
      PS.UnresolvedHasNoResolved(pend.Contents(), m.Keys);
      asked := FlushAll(keys);
      SameKeys(m, arp.Contents());
    }

    /** Steps 1 to 3 of forward_task. */
    method Admit(data: seq<Byte>, len: nat) returns (ok: bool)
      requires Valid() && |data| == MP_PAYLOAD && len <= MP_PAYLOAD
      ensures ok == Admitted(Cfg(), data, len)
    {
      if len < 34 || data[14] / 16 != 4 { return false; }
      var ihl := data[14] % 16 * 4;
      if ihl < 20 { return false; }
      var tot := Be16(data[16], data[17]);
      if tot < ihl || tot > len { return false; }
      var dst := Be32(data[30], data[31], data[32], data[33]);
      var verdict := fw.Check(data[..len]);
      if verdict.Drop? { return false; }
      var broadcast := CheckBroadcast(ifs, dst);
      return !(HasIp(ifs, dst) || broadcast || IsMulticast(dst));
    }

    /** Step 4 of forward_task. */
    method NextHop(dst: Ip) returns (found: bool, k: Key)
      requires Valid()
      ensures found ==> GoesVia(Cfg(), dst, k.ip, k.ifidx)
      ensures !found ==> forall nexthop, ifidx :: !GoesVia(Cfg(), dst, nexthop, ifidx)
      ensures Guides(Cfg()) ==> (found <==> Leads(Cfg(), dst)) && (found ==> LeadsOn(Cfg(), dst, k))
    {
      hide OnLink, LeadsOn, Leads;
      if Guides(Cfg()) {
        NextHopLeadsOn(Cfg(), dst);
      }
      for i := 0 to |ifs|
        invariant forall j :: 0 <= j < i ==> !OnLink(ifs[j], dst)
      {
        if OnLink(ifs[i], dst) {
          return true, Key(dst, ifs[i].ifindex);
        }
      }
      var b := routes.Lookup(dst);
      if b < 0 {
        return false, Key(0, -1);
      }
      var rt := routes.routes[b];
      return true, Key(if rt.gw != 0 then rt.gw else dst, rt.ifindex);
    }

    /** Steps 1 to 5 of forward_task. */
    method Classify(data: seq<Byte>, len: nat) returns (ok: bool, k: Key)
      requires Valid() && |data| == MP_PAYLOAD && len <= MP_PAYLOAD
      ensures ok ==> Decides(Cfg(), data, len, k)
      ensures Guides(Cfg()) && ok ==> LeadsOn(Cfg(), DestinationOf(data), k)
      ensures !ok ==> forall l :: !Decides(Cfg(), data, len, l)
    {
      hide PT.Inv, AT.Inv, ParkedOk, PacketOk, HeaderOk, Admitted, GoesVia, LeadsOn, Leads;
      k := Key(0, -1);
      ok := Admit(data, len);
      if ok {
        ok, k := NextHop(DestinationOf(data));
      }
      if ok && data[22] <= 1 {
        ok := false;
      }
    }

    /**
     forward_task: the frame is freed, or sent (if its next hop is resolved), or parked and its next hop asked
     for. `to` is the next hop it was for, None when the frame was dropped before that.
     */
    method ForwardTask(blk: nat) returns (ghost to: Option<Key>, ghost t: U64, ghost freed: seq<nat>, asked: bool)
      requires Valid() && blk in pend.Outside() && blk < |pend.pool.blocks|
      requires pend.pool.blocks[blk].next == -1 && pend.pool.blocks[blk].len <= MP_PAYLOAD
      modifies this, pend`head, pend`order, pend`frames, pend.nodes, arp.entries
      modifies pend.pool, pend.pool.freeStack
      ensures Valid() && pend.Outside() == old(pend.Outside()) - {blk}
      ensures arp.Contents().Keys == old(arp.Contents()).Keys
      ensures var f := old(pend.pool.blocks[blk]);
              if to.Some? then Decides(Cfg(), f.data, f.len, to.value)
              else forall k :: !Decides(Cfg(), f.data, f.len, k)
      ensures Guides(Cfg()) && to.Some? ==> LeadsOn(Cfg(), DestinationOf(old(pend.pool.blocks[blk]).data), to.value)
      ensures if to.Some? && to.value !in old(arp.Contents()) then
                PS.Enqueued(old(pend.Contents()), to.value, blk, t, pend.Contents(), freed)
              else
                pend.Contents() == old(pend.Contents())
      ensures handed == old(handed) + if to.Some? && to.value in old(arp.Contents()) then [blk] else []
      ensures to.None? ==> wire == old(wire)
      ensures to.Some? && to.value in old(arp.Contents()) ==>
                wire == old(wire)
                  + PacketOf(MarkedFrame(old(pend.pool.blocks)[blk], to.value), old(arp.Contents())[to.value].mac, ifs)
      ensures to.Some? && to.value !in old(arp.Contents()) ==>
                wire == old(wire) + Requested(asked, to.value, ifs) && (!asked ==> pend.pool.freeTop == 0)
      ensures to.Some? && to.value !in old(arp.Contents()) ==>
                ParkedAs(pend.Contents(), pend.pool.blocks, blk, MarkedFrame(old(pend.pool.blocks)[blk], to.value))
    {
      hide AT.Table.Valid, AT.Table.Contents, PT.Table.Contents, Pool.Out;
      hide PT.Inv, AT.Inv, ParkedOk, PacketOk, Decides, PS.Enqueued, PacketOf, MarkedFrame, Requested, LeadsOn, ParkedAs;
      var f := pend.pool.blocks[blk];
      to, t, freed, asked := None, now, [], false;
      var ok, k := Classify(f.data, f.len);
      if ok {
        to := Some(k);
        t, freed, asked := Dispatch(blk, k);
      } else {
        pend.GiveBlock(blk);
      }
    }

    method Mark(blk: nat, k: Key)
      requires Valid() && blk in pend.Outside() && blk < |pend.pool.blocks|
      requires var f := pend.pool.blocks[blk];
               f.next == -1 && f.len <= MP_PAYLOAD && Decides(Cfg(), f.data, f.len, k)
      modifies pend.pool`blocks
      ensures Valid() && pend.Outside() == old(pend.Outside()) && pend.Contents() == old(pend.Contents())
      ensures var f := old(pend.pool.blocks)[blk];
              pend.pool.blocks == old(pend.pool.blocks)[blk := MarkedFrame(f, k)]
      ensures MarkedFor(pend.pool.blocks[blk], k) && pend.pool.blocks[blk].next == -1
    {
      hide PT.Inv, AT.Inv, PacketOk, HeaderOk, GoesVia, ParkedOk;
      var f := pend.pool.blocks[blk];
      var marked := MarkedFrame(f, k);
      assert MarkedFor(marked, k);
      Unparked(blk);
      ParkedFrame(pend.Contents(), pend.pool.blocks, blk, marked);
      pend.WriteBlock(blk, marked);
    }

    /**
     Step 6 of forward_task: send at once, or park and request; the request stays away only if the pool has no
     block left for it.
     */
    method Dispatch(blk: nat, k: Key) returns (ghost t: U64, ghost freed: seq<nat>, asked: bool)
      requires Valid() && blk in pend.Outside() && blk < |pend.pool.blocks|
      requires var f := pend.pool.blocks[blk];
               f.next == -1 && f.len <= MP_PAYLOAD && Decides(Cfg(), f.data, f.len, k)
      modifies this, pend`head, pend`order, pend`frames, pend.nodes, arp.entries
      modifies pend.pool, pend.pool.freeStack
      ensures Valid() && pend.Outside() == old(pend.Outside()) - {blk}
      ensures arp.Contents().Keys == old(arp.Contents()).Keys
      ensures if k !in old(arp.Contents()) then
                PS.Enqueued(old(pend.Contents()), k, blk, t, pend.Contents(), freed)
              else
                pend.Contents() == old(pend.Contents())
      ensures handed == old(handed) + if k in old(arp.Contents()) then [blk] else []
      ensures k in old(arp.Contents()) ==>
                wire == old(wire) + PacketOf(MarkedFrame(old(pend.pool.blocks)[blk], k), old(arp.Contents())[k].mac, ifs)
      ensures k !in old(arp.Contents()) ==>
                wire == old(wire) + Requested(asked, k, ifs) && (!asked ==> pend.pool.freeTop == 0)
      ensures k !in old(arp.Contents()) ==> ParkedAs(pend.Contents(), pend.pool.blocks, blk, MarkedFrame(old(pend.pool.blocks)[blk], k))
    {
      hide AT.Table.Valid, AT.Table.Contents, PT.Table.Contents, Pool.Out;
      hide PT.Inv, AT.Inv, PacketOk, Decides, PS.Enqueued, ParkedOk, MarkedFor, FrameOk, PacketOf, MarkedFrame, Requested, ParkedAs;
      Mark(blk, k);
      var hit, mac := Resolve(k);
      t, freed, asked := now, [], false;
      if hit {
        MarkedIsOk(pend.pool.blocks[blk], k);
        ForwardSend(blk, mac);
      } else {
        t, freed, asked := ParkAndRequest(blk, k);
      }
    }

    method ParkAndRequest(blk: nat, k: Key) returns (ghost t: U64, ghost freed: seq<nat>, asked: bool)
      requires Valid() && blk in pend.Outside() && blk < |pend.pool.blocks|
      requires pend.pool.blocks[blk].next == -1 && MarkedFor(pend.pool.blocks[blk], k)
      modifies this`now, this`wire, pend`head, pend`order, pend`frames, pend.nodes, pend.pool, pend.pool.freeStack
      ensures Valid() && pend.Outside() == old(pend.Outside()) - {blk}
      ensures PS.Enqueued(old(pend.Contents()), k, blk, t, pend.Contents(), freed)
      ensures wire == old(wire) + Requested(asked, k, ifs) && (!asked ==> pend.pool.freeTop == 0)
      ensures ParkedAs(pend.Contents(), pend.pool.blocks, blk, old(pend.pool.blocks)[blk])
    {
      hide PT.Inv, AT.Inv, PacketOk, PS.Enqueued, ParkedOk, MarkedFor, Requested, ParkedAs, Kept;
      ghost var f := pend.pool.blocks[blk];
      t, freed := Park(blk, k);
      ghost var blocks := pend.pool.blocks;
      asked := ArpRequest(k);
      ParkedAsKept(pend.Contents(), blocks, pend.pool.blocks, blk, f);
    }

    /** pend_enqueue of a marked frame. */
    method Park(blk: nat, k: Key) returns (ghost t: U64, ghost freed: seq<nat>)
      requires Valid() && blk in pend.Outside() && blk < |pend.pool.blocks|
      requires pend.pool.blocks[blk].next == -1 && MarkedFor(pend.pool.blocks[blk], k)
      modifies this`now, pend`head, pend`order, pend`frames, pend.nodes
      modifies pend.pool`freeTop, pend.pool`heapLive, pend.pool`blocks, pend.pool.freeStack
      ensures Valid() && pend.Outside() == old(pend.Outside()) - {blk}
      ensures PS.Enqueued(old(pend.Contents()), k, blk, t, pend.Contents(), freed)
      ensures ParkedAs(pend.Contents(), pend.pool.blocks, blk, old(pend.pool.blocks)[blk])
    {
      hide PT.Inv, AT.Inv, PacketOk, PS.Enqueued, ParkedOk;
      ghost var p, blocks := pend.Contents(), pend.pool.blocks;
      var now_ := MonotonicNow();
      t := now_;
      freed := pend.Enqueue(k, blk, now_);
      EnqueuedFrames(p, k, blk, t, pend.Contents(), freed, blocks, pend.pool.blocks);
    }

    /** Whom arp_handle_frame answers for: an interface of ours, or with proxy ARP the exit of a gateway-less route. */
    method Responder(tpa: Ip, proxy: bool) returns (i: int)
      requires Valid()
      ensures AnswersFor(Cfg(), tpa, proxy, i)
    {
      for j := 0 to |ifs|
        invariant forall l :: 0 <= l < j ==> ifs[l].ip != tpa
      {
        if ifs[j].ip == tpa { return j; }
      }
      if !proxy {
        return -1;
      }
      var b := routes.Lookup(tpa);
      if b < 0 || routes.routes[b].gw != 0 {
        assert b >= 0 ==> Cfg().routes[b] == routes.routes[b];
        assert DirectExit(Cfg(), b) == -1;
        return -1;
      }
      assert Cfg().routes[b] == routes.routes[b];
      i := FirstByIndex(ifs, routes.routes[b].ifindex);
      assert i == DirectExit(Cfg(), b);
    }

    /** The learning step of arp_handle_frame. */
    method Learn(k: Key, mac: Mac) returns (learned: bool)
      requires Valid()
      modifies this`now, arp`ch, arp`slot, arp.entries, arp.bucket
      ensures Valid() && pend.Contents() == old(pend.Contents())
      ensures learned <==> OnSubnetOf(ifs, k)
      ensures arp.Contents().Keys <= old(arp.Contents()).Keys + if learned then {k} else {}
      ensures learned ==> k in arp.Contents() && arp.Contents()[k].mac == mac
      ensures if learned then exists t: U64 :: AT.Learned(old(arp.Contents()), k, mac, t, arp.Contents()) else arp.Contents() == old(arp.Contents())
    {
      hide PT.Table.Shape, PT.Table.Outside, PT.Table.Contents, AT.Table.Valid, AT.Table.Contents, Pool.Valid, Pool.Out;
      hide PT.Inv, AT.Inv, PacketOk, ParkedOk;
      var i := FirstByIndex(ifs, k.ifidx);
      learned := i >= 0 && OnLink(ifs[i], k.ip);
      if learned {
        var t := MonotonicNow();
        arp.Insert(k, mac, t);
      }
    }

    /**
     arp_handle_frame: consumes the frame; learns a sender on the subnet of its own interface and nothing
     else; answers a request for an address it stands for, and then sends what waited for the sender.
     */
    method ArpHandleFrame(blk: nat, inIfidx: int, proxy: bool, ghost data: seq<Byte>, ghost len: nat)
      returns (learned: bool, replied: bool, ghost who: int)
      requires Valid() && blk in pend.Outside() && blk < |pend.pool.blocks|
      requires pend.pool.blocks[blk].data == data && pend.pool.blocks[blk].len == len <= MP_PAYLOAD == |data|
      modifies this, pend`head, pend`order, pend`frames, pend.nodes, arp`ch, arp`slot, arp.entries, arp.bucket
      modifies pend.pool, pend.pool.freeStack
      ensures Valid() && pend.Outside() == old(pend.Outside()) - {blk}
      ensures learned <==> ArpOk(data, len) && OnSubnetOf(ifs, SenderOf(data, inIfidx))
      ensures arp.Contents().Keys <= old(arp.Contents()).Keys + (if learned then {SenderOf(data, inIfidx)} else {})
      ensures learned ==> SenderOf(data, inIfidx) in arp.Contents() && arp.Contents()[SenderOf(data, inIfidx)].mac == data[22..28]
      ensures replied <==> ArpOk(data, len) && IsRequest(data) && who >= 0
      ensures ArpOk(data, len) && IsRequest(data) ==> AnswersFor(Cfg(), TargetOf(data), proxy, who)
      ensures replied ==>
                wire == old(wire) + ([ArpOut(inIfidx, Reply(data, ifs[who])[..len])]
                  + Flushed(old(pend.pool.blocks), SenderOf(data, inIfidx),
                            PS.Popped(old(pend.Contents()), SenderOf(data, inIfidx)).1, arp.Contents(), ifs))
      ensures !replied ==> wire == old(wire) && handed == old(handed) && pend.Contents() == old(pend.Contents())
      ensures !replied ==> pend.pool.blocks == old(pend.pool.blocks)
      ensures replied && learned ==>
                && pend.Contents() == PS.Popped(old(pend.Contents()), SenderOf(data, inIfidx)).0
                && handed == old(handed) + PS.Popped(old(pend.Contents()), SenderOf(data, inIfidx)).1
    {
      hide PT.Table.Shape, PT.Table.Outside, PT.Table.Contents, AT.Table.Valid, AT.Table.Contents, Pool.Valid, Pool.Out;
      hide PT.Inv, AT.Inv, ParkedOk, PacketOk, PS.Popped, OnSubnetOf, ArpOk, TargetOf, IsRequest, AnswersFor, Reply, Flushed;
      var f := pend.pool.blocks[blk];
      learned, replied, who := false, false, -1;
      if ArpOk(f.data, f.len) {
        learned, replied, who := HandleArp(blk, SenderOf(f.data, inIfidx), proxy);
      }
      Free(blk);
    }

    method Free(blk: nat)
      requires Valid() && blk in pend.Outside()
      modifies pend.pool`freeTop, pend.pool`heapLive, pend.pool.freeStack
      ensures Valid() && pend.Contents() == old(pend.Contents()) && pend.Outside() == old(pend.Outside()) - {blk}
      ensures pend.pool.freeTop == old(pend.pool.freeTop) + if blk < MP_COUNT then 1 else 0
    {
      hide PT.Inv, AT.Inv, ParkedOk, PacketOk;
      pend.GiveBlock(blk);
    }

    /** arp_handle_frame past the frame check. */
    method HandleArp(blk: nat, k: Key, proxy: bool) returns (learned: bool, replied: bool, ghost who: int)
      requires Valid() && blk in pend.Outside() && blk < |pend.pool.blocks| && pend.pool.blocks[blk].len <= MP_PAYLOAD
      modifies this, pend`head, pend`order, pend`frames, pend.nodes, arp`ch, arp`slot, arp.entries, arp.bucket
      modifies pend.pool`blocks, pend.pool`freeTop, pend.pool`heapLive, pend.pool.freeStack
      ensures Valid() && pend.Outside() == old(pend.Outside())
      ensures learned <==> OnSubnetOf(ifs, k)
      ensures arp.Contents().Keys <= old(arp.Contents()).Keys + (if learned then {k} else {})
      ensures learned ==> k in arp.Contents() && arp.Contents()[k].mac == old(pend.pool.blocks)[blk].data[22..28]
      ensures var f := old(pend.pool.blocks)[blk];
              && (replied <==> IsRequest(f.data) && who >= 0)
              && (IsRequest(f.data) ==> AnswersFor(Cfg(), TargetOf(f.data), proxy, who))
              && (replied ==>
                    wire == old(wire) + ([ArpOut(k.ifidx, Reply(f.data, ifs[who])[..f.len])]
                      + Flushed(old(pend.pool.blocks), k, PS.Popped(old(pend.Contents()), k).1, arp.Contents(), ifs)))
      ensures !replied ==> wire == old(wire) && handed == old(handed) && pend.Contents() == old(pend.Contents())
      ensures !replied ==> pend.pool.blocks == old(pend.pool.blocks)
      ensures replied && learned ==>
                && pend.Contents() == PS.Popped(old(pend.Contents()), k).0
                && handed == old(handed) + PS.Popped(old(pend.Contents()), k).1
    {
      hide PT.Inv, AT.Inv, ParkedOk, PacketOk, PS.Popped, OnSubnetOf, TargetOf, AnswersFor, Reply, Flushed;
      var f := pend.pool.blocks[blk];
      replied, who := false, -1;
      learned := Learn(k, f.data[22..28]);
      if IsRequest(f.data) {
        replied, who := Answer(blk, k, TargetOf(f.data), proxy);
      }
    }

    /** The request half of arp_handle_frame. */
    method Answer(blk: nat, k: Key, tpa: Ip, proxy: bool) returns (replied: bool, ghost who: int)
      requires Valid() && blk in pend.Outside() && blk < |pend.pool.blocks| && pend.pool.blocks[blk].len <= MP_PAYLOAD
      modifies this, pend`head, pend`order, pend`frames, pend.nodes, arp.entries
      modifies pend.pool`blocks, pend.pool`freeTop, pend.pool`heapLive, pend.pool.freeStack
      ensures Valid() && pend.Outside() == old(pend.Outside())
      ensures SameMacs(old(arp.Contents()), arp.Contents())
      ensures AnswersFor(Cfg(), tpa, proxy, who) && (replied <==> who >= 0)
      ensures replied ==> var f := old(pend.pool.blocks)[blk];
                wire == old(wire) + ([ArpOut(k.ifidx, Reply(f.data, ifs[who])[..f.len])]
                  + Flushed(old(pend.pool.blocks), k, PS.Popped(old(pend.Contents()), k).1, arp.Contents(), ifs))
      ensures !replied ==> wire == old(wire) && handed == old(handed) && pend.Contents() == old(pend.Contents())
      ensures !replied ==> pend.pool.blocks == old(pend.pool.blocks)
      ensures replied && k in old(arp.Contents()) ==>
                && pend.Contents() == PS.Popped(old(pend.Contents()), k).0
                && handed == old(handed) + PS.Popped(old(pend.Contents()), k).1
    {
      hide AT.Table.Valid, AT.Table.Contents, PT.Table.Contents, Pool.Out;
      hide PT.Inv, AT.Inv, ParkedOk, PacketOk, PS.Popped, Reply;
      var i := Responder(tpa, proxy);
      replied, who := i >= 0, i;
      hide AnswersFor, Flushed, SameMacs, Kept;
      SameToItself(arp.Contents());
      if replied {
        ghost var blocks, p, m := pend.pool.blocks, pend.Contents(), arp.Contents();
        Respond(blk, k.ifidx, ifs[i]);
        SamePopped(blocks, pend.pool.blocks, p, k, m, m, ifs);
        ghost var b := pend.pool.blocks;
        ParkedStays();
        FlushPending(k);
        SamePopped(b, b, p, k, m, arp.Contents(), ifs);
        PS.Assoc(old(wire), [ArpOut(k.ifidx, Reply(blocks[blk].data, ifs[who])[..blocks[blk].len])],
                 Flushed(b, k, PS.Popped(p, k).1, m, ifs));
      }
    }

    /** arp_respond: the request is turned into the reply in its own block, and sent. */
    method Respond(blk: nat, inIfidx: int, it: Iface)
      requires Valid() && blk in pend.Outside() && blk < |pend.pool.blocks| && pend.pool.blocks[blk].len <= MP_PAYLOAD
      modifies this`wire, pend.pool`blocks
      ensures Valid() && pend.Contents() == old(pend.Contents()) && pend.Outside() == old(pend.Outside())
      ensures var f := old(pend.pool.blocks)[blk];
              wire == old(wire) + [ArpOut(inIfidx, Reply(f.data, it)[..f.len])]
      ensures Kept(pend.Contents(), old(pend.pool.blocks), pend.pool.blocks)
    {
      hide PT.Inv, AT.Inv, ParkedOk, Reply, Kept;
      var f := pend.pool.blocks[blk];
      var g := f.(data := Reply(f.data, it));
      Unparked(blk);
      ParkedIsElsewhere([blk]);
      KeptWithout(pend.Contents(), pend.pool.blocks, pend.pool.blocks[blk := g], [blk]);
      ParkedFrame(pend.Contents(), pend.pool.blocks, blk, g);
      pend.WriteBlock(blk, g);
      wire := wire + [ArpOut(inIfidx, g.data[..f.len])];
    }
  }

  lemma MarkedIsOk(f: Frame, k: Key)
    requires MarkedFor(f, k)
    ensures FrameOk(f)
  {}

  lemma EnqueuedFrames(p: PS.Pend, k: Key, blk: nat, t: U64, p': PS.Pend, freed: seq<nat>, blocks: seq<Frame>, blocks': seq<Frame>)
    requires PS.Enqueued(p, k, blk, t, p', freed)
    requires ParkedOk(p, blocks) && blk < |blocks| && MarkedFor(blocks[blk], k)
    requires |blocks'| == |blocks| && forall b :: 0 <= b < |blocks| ==> blocks'[b] == blocks[b].(next := blocks'[b].next)
    ensures ParkedOk(p', blocks')
  {
    forall j, b | 0 <= j < |p'| && b in p'[j].frames ensures b < |blocks'| && MarkedFor(blocks'[b], p'[j].key) {
      EnqueuedFrame(p, k, blk, t, p', freed, j, b);
      if b != blk || p'[j].key != k {
        var i :| 0 <= i < |p| && b in p[i].frames && p[i].key == p'[j].key;
      }
      assert MarkedFor(blocks[b], p'[j].key);
    }
  }

  /** Every parked frame was parked before under the same key, or is the new one. */
  lemma EnqueuedFrame(p: PS.Pend, k: Key, blk: nat, t: U64, p': PS.Pend, freed: seq<nat>, j: nat, b: nat)
    requires PS.Enqueued(p, k, blk, t, p', freed) && j < |p'| && b in p'[j].frames
    ensures (b == blk && p'[j].key == k) || exists i :: 0 <= i < |p| && b in p[i].frames && p[i].key == p'[j].key
  {
    var o := PS.HowItWent(p, k, blk, t, p', freed);
    hide PS.Enqueued, PS.IsFreeSlot, PS.IsVictim;
    match o
    case Joined(i) => assert (b == blk && p'[j].key == k) || (b in p[j].frames && p[j].key == p'[j].key);
    case Took(s) => if j > 0 { assert p'[j] == p[j - 1]; }
    case Evicted(v) => if j > 0 { assert p'[j] == Without(p, v)[j - 1] == p[if j - 1 < v then j - 1 else j]; }
    case _ =>
  }

  lemma RetriedFrames(p: PS.Pend, t: U64, blocks: seq<Frame>)
    requires ParkedOk(p, blocks)
    ensures ParkedOk(PS.Retried(p, t), blocks)
  {
    hide MarkedFor;
    var q := PS.Retried(p, t);
    forall j, b | 0 <= j < |q| && b in q[j].frames ensures b < |blocks| && MarkedFor(blocks[b], q[j].key) {
      var i := PS.RetriedNode(p, t, j);
    }
  }

  lemma ParkedKept(p: PS.Pend, blocks: seq<Frame>, blocks': seq<Frame>)
    requires ParkedOk(p, blocks) && |blocks| <= |blocks'|
    requires forall i, b {:trigger b in p[i].frames} :: 0 <= i < |p| && b in p[i].frames && b < |blocks| ==>
               blocks'[b] == blocks[b].(next := blocks'[b].next)
    ensures ParkedOk(p, blocks')
  {}

  /** The frames of a popped chain are marked for its key, and the other chains are as they were. */
  lemma PoppedFrames(p: PS.Pend, k: Key, blocks: seq<Frame>)
    requires ParkedOk(p, blocks)
    ensures ParkedOk(PS.Popped(p, k).0, blocks)
    ensures forall j {:trigger PS.Popped(p, k).1[j]} :: 0 <= j < |PS.Popped(p, k).1| ==>
              PS.Popped(p, k).1[j] < |blocks| && MarkedFor(blocks[PS.Popped(p, k).1[j]], k)
  {
    hide MarkedFor;
    var q, c := PS.Popped(p, k).0, PS.Popped(p, k).1;
    var i := PS.Pos(p, k);
    if i >= 0 {
      forall j, b | 0 <= j < |q| && b in q[j].frames ensures b < |blocks| && MarkedFor(blocks[b], q[j].key) {
        assert q[j] == p[if j < i then j else j + 1];
      }
      forall j | 0 <= j < |c| ensures c[j] < |blocks| && MarkedFor(blocks[c[j]], k) {
        assert c[j] in p[i].frames;
      }
    }
  }
}
