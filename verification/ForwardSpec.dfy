/** What forward_task decides and what forward_send puts on the wire (src/forward.c), as values. */
module ForwardSpec {
  import opened Basics
  import opened Net
  import Checksum
  import Firewall
  import MemPool
  import Route

  datatype Config = Config(ifs: seq<Iface>, routes: seq<Route.Route>, rules: seq<Firewall.Rule>, clz0: int)

  /** The header test of forward_task, on the block buffer. */
  predicate HeaderOk(data: seq<Byte>, len: int)
    requires |data| == MemPool.MP_PAYLOAD
  {
    && len >= 34 && data[14] / 16 == 4
    && data[14] % 16 * 4 >= 20
    && data[14] % 16 * 4 <= Be16(data[16], data[17]) <= len
  }

  function DestinationOf(data: seq<Byte>): Ip
    requires |data| == MemPool.MP_PAYLOAD
  {
    Be32(data[30], data[31], data[32], data[33])
  }

  /** Frames addressed to the router itself, to a broadcast or to a multicast address are not forwarded. */
  predicate ForUs(cfg: Config, dst: Ip) {
    HasIp(cfg.ifs, dst) || IsBroadcast(cfg.ifs, dst) || IsMulticast(dst)
  }

  predicate OnLink(it: Iface, dst: Ip) {
    it.ip != 0 && dst & it.netmask == it.ip & it.netmask
  }

  /** An interface with an address reaches what shares the leading bits of it. */
  lemma OnLinkIs(it: Iface, dst: Ip, len: nat)
    requires len <= 32 && it.netmask == Mask(len)
    ensures OnLink(it, dst) <==> it.ip != 0 && Leading(dst, len) == Leading(it.ip, len)
  {
    hide Mask, Leading, OnLink, Agree;
    SameNetwork(dst, it.ip, len);
    if OnLink(it, dst) {
      OnLinkAgrees(it, dst);
    }
    if it.ip != 0 && Agree(dst, it.ip, it.netmask) {
      AgreesOnLink(it, dst);
    }
  }

  lemma OnLinkAgrees(it: Iface, dst: Ip)
    requires OnLink(it, dst)
    ensures it.ip != 0 && Agree(dst, it.ip, it.netmask)
  {}

  lemma AgreesOnLink(it: Iface, dst: Ip)
    requires it.ip != 0 && Agree(dst, it.ip, it.netmask)
    ensures OnLink(it, dst)
  {}

  /**
   What is not forwarded: the router's own addresses, 255.255.255.255, the last address of a network of the router,
   and 224.0.0.0 to 239.255.255.255.
   */
  lemma ForUsIs(cfg: Config, dst: Ip)
    ensures ForUs(cfg, dst) <==>
              || (exists i :: 0 <= i < |cfg.ifs| && cfg.ifs[i].ip == dst)
              || dst == 0xFFFF_FFFF
              || (exists i :: 0 <= i < |cfg.ifs| && IsLastOf(cfg.ifs[i], dst))
              || 0xE000_0000 <= dst <= 0xEFFF_FFFF
  {
    MulticastIs(dst);
    hide IsBroadcastOn, IsMulticast, IsLastOf;
    forall i | 0 <= i < |cfg.ifs| ensures IsBroadcastOn(cfg.ifs[i], dst) <==> IsLastOf(cfg.ifs[i], dst) {
      BroadcastIs(cfg.ifs[i], dst);
    }
  }

  lemma ConnectedMatches(it: Iface, dst: Ip)
    requires OnLink(it, dst)
    ensures Route.Matches(Route.ConnectedRoute(it), dst)
  {}

  lemma MatchIsOnLink(it: Iface, dst: Ip)
    requires it.ip != 0 && Route.Matches(Route.ConnectedRoute(it), dst)
    ensures OnLink(it, dst)
  {}

  /** The connected route of an interface matches what the interface reaches. */
  lemma ConnectedReaches(it: Iface, dst: Ip)
    requires it.ip != 0
    ensures Route.Matches(Route.ConnectedRoute(it), dst) <==> OnLink(it, dst)
  {
    hide OnLink, Route.Matches, Route.ConnectedRoute;
    if OnLink(it, dst) {
      ConnectedMatches(it, dst);
    }
    if Route.Matches(Route.ConnectedRoute(it), dst) {
      MatchIsOnLink(it, dst);
    }
  }

  /** Steps 1 to 3 of forward_task. */
  predicate Admitted(cfg: Config, data: seq<Byte>, len: int)
    requires |data| == MemPool.MP_PAYLOAD && len <= MemPool.MP_PAYLOAD
  {
    HeaderOk(data, len) && Firewall.Verdict(cfg.rules, data[..len]).Allow? && !ForUs(cfg, DestinationOf(data))
  }

  /** Step 4: the first interface on whose network the destination is, else the longest matching route. */
  ghost predicate GoesVia(cfg: Config, dst: Ip, nexthop: Ip, ifidx: int) {
    if exists i :: 0 <= i < |cfg.ifs| && OnLink(cfg.ifs[i], dst) then
      nexthop == dst
      && exists i :: 0 <= i < |cfg.ifs| && OnLink(cfg.ifs[i], dst) && ifidx == cfg.ifs[i].ifindex
           && forall j :: 0 <= j < i ==> !OnLink(cfg.ifs[j], dst)
    else
      exists b :: 0 <= b < |cfg.routes| && Route.LookupResult(cfg.routes, dst, cfg.clz0, b)
        && ifidx == cfg.routes[b].ifindex && nexthop == if cfg.routes[b].gw != 0 then cfg.routes[b].gw else dst
  }

  /** All of forward_task up to the ARP lookup: the frame is to go to this next hop. */
  ghost predicate Decides(cfg: Config, data: seq<Byte>, len: int, k: Key)
    requires |data| == MemPool.MP_PAYLOAD && len <= MemPool.MP_PAYLOAD
  {
    Admitted(cfg, data, len) && GoesVia(cfg, DestinationOf(data), k.ip, k.ifidx) && data[22] > 1
  }

  /** What every frame that gets past forward_task satisfies, whatever happens to the tables afterwards. */
  predicate Forwardable(data: seq<Byte>, len: int)
    requires |data| == MemPool.MP_PAYLOAD
  {
    HeaderOk(data, len) && data[22] > 1
  }

  function Decremented(b: Byte): Byte {
    if b == 0 then 255 else b - 1
  }

  /** forward_send's rewrite of the block: both MACs, TTL - 1, new header checksum. */
  function Rewritten(data: seq<Byte>, dmac: Mac, smac: Mac): (f: seq<Byte>)
    requires |data| == MemPool.MP_PAYLOAD
    ensures |f| == |data|
  {
    var f1: seq<Byte> := dmac + smac + data[12..];
    var f2: seq<Byte> := f1[22 := Decremented(f1[22])];
    Checksum.Recomputed(f2, 14, f2[14] % 16 * 4)
  }

  /**
   A rewritten frame is the original but for the two MACs, the TTL (exactly one less, at least 1)
   and the two checksum bytes; and its header checksum verifies.
   */
  lemma RewriteIsFaithful(data: seq<Byte>, len: int, dmac: Mac, smac: Mac)
    requires |data| == MemPool.MP_PAYLOAD && Forwardable(data, len)
    ensures var f := Rewritten(data, dmac, smac);
            && f[..6] == dmac && f[6..12] == smac
            && f[22] == data[22] - 1 && f[22] >= 1
            && (forall i {:trigger f[i]} :: 12 <= i < |data| && i !in {22, 24, 25} ==> f[i] == data[i])
            && Checksum.ChecksumOf(f[14..14 + data[14] % 16 * 4]) == 0
  {
    hide Checksum.ChecksumOf;
    var f1: seq<Byte> := dmac + smac + data[12..];
    var f2: seq<Byte> := f1[22 := Decremented(f1[22])];
    assert forall i :: 12 <= i < |data| ==> f1[i] == data[i];
    Checksum.RecomputedVerifies(f2, 14, f2[14] % 16 * 4);
  }
}
