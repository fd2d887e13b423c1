/** The routing table (src/route.c). */
module Route {
  import opened Basics
  import opened Net

  const MAX_ROUTE := 64

  datatype Route = Route(dest: Ip, mask: Ip, gw: Ip, ifindex: int, isStatic: bool)

  // ---------------------------------------------------------------- the table as a value

  /** The static routes (or the connected ones), in order. */
  function Only(s: seq<Route>, static_: bool): (r: seq<Route>)
    ensures |r| <= |s|
  {
    if s == [] then []
    else
      var last := s[|s| - 1];
      Only(s[..|s| - 1], static_) + if last.isStatic == static_ then [last] else []
  }

  predicate Derives(it: Iface) {
    it.ip != 0 && it.ifindex >= 0 && it.netmask != 0
  }

  function NetworkOf(it: Iface): Ip {
    it.ip & it.netmask
  }

  function ConnectedRoute(it: Iface): Route {
    Route(NetworkOf(it), it.netmask, 0, it.ifindex, false)
  }

  function ConnectedRoutes(ifs: seq<Iface>): seq<Route> {
    if ifs == [] then []
    else
      var last := ifs[|ifs| - 1];
      ConnectedRoutes(ifs[..|ifs| - 1]) + if Derives(last) then [ConnectedRoute(last)] else []
  }

  predicate HasNetwork(it: Iface) {
    it.ip != 0 && it.ifindex >= 0 && it.netmask != 0
  }

  /** The route r leads straight to the network of the interface. */
  predicate LeadsTo(r: Route, it: Iface) {
    r.dest == NetworkOf(it) && r.mask == it.netmask && r.gw == 0 && r.ifindex == it.ifindex && !r.isStatic
  }

  /** There is a connected route for exactly the interfaces with an address, an index and a mask. */
  lemma {:induction false} ConnectedIff(ifs: seq<Iface>, r: Route)
    ensures r in ConnectedRoutes(ifs) <==> exists i :: 0 <= i < |ifs| && HasNetwork(ifs[i]) && LeadsTo(r, ifs[i])
  {
    hide NetworkOf;
    if ifs != [] {
      var n := |ifs| - 1;
      ConnectedIff(ifs[..n], r);
      assert forall i :: 0 <= i < n ==> ifs[..n][i] == ifs[i];
      OneConnected(ifs[n], r);
    }
  }

  lemma OneConnected(it: Iface, r: Route)
    ensures Derives(it) && r == ConnectedRoute(it) <==> HasNetwork(it) && LeadsTo(r, it)
  {
    hide NetworkOf;
  }

  function Clip(s: seq<Route>): seq<Route> {
    if |s| <= MAX_ROUTE then s else s[..MAX_ROUTE]
  }

  /** route_derive_connected: the statics, then as many connected routes as fit. */
  function Rederived(s: seq<Route>, ifs: seq<Iface>): seq<Route> {
    Clip(Only(s, true) + ConnectedRoutes(ifs))
  }

  predicate Present(s: seq<Route>, dest: Ip, mask: Ip, gw: Ip, ifindex: int) {
    exists i :: 0 <= i < |s| && s[i].dest == dest && s[i].mask == mask && s[i].gw == gw && s[i].ifindex == ifindex
  }

  /** route_add. */
  function Added(s: seq<Route>, dest: Ip, mask: Ip, gw: Ip, ifindex: int): seq<Route> {
    if Present(s, dest, mask, gw, ifindex) || |s| >= MAX_ROUTE then s
    else s + [Route(dest, mask, gw, ifindex, true)]
  }

  lemma {:induction false} OnlyConcat(s: seq<Route>, t: seq<Route>, static_: bool)
    ensures Only(s + t, static_) == Only(s, static_) + Only(t, static_)
  {
    if t == [] {
      assert s + t == s;
    } else {
      assert (s + t)[..|s + t| - 1] == s + t[..|t| - 1];
      OnlyConcat(s, t[..|t| - 1], static_);
    }
  }

  lemma OnlyGrows(s: seq<Route>, i: nat, kind: bool)
    requires i < |s|
    ensures Only(s[..i + 1], kind) == Only(s[..i], kind) + if s[i].isStatic == kind then [s[i]] else []
  {
    assert s[..i + 1][..i] == s[..i];
  }

  /** The table while its entries of one kind move to the front: i of them are done, keep of them stayed. */
  ghost predicate Compacted(c: seq<Route>, s: seq<Route>, i: nat, keep: nat, kind: bool) {
    keep <= i <= |s| == |c| && c[..keep] == Only(s[..i], kind) && c[i..] == s[i..]
  }

  lemma CompactedGrows(c: seq<Route>, s: seq<Route>, i: nat, keep: nat, kind: bool)
    requires Compacted(c, s, i, keep, kind) && i < |s|
    ensures if c[i].isStatic == kind then Compacted(c[keep := c[i]], s, i + 1, keep + 1, kind) else Compacted(c, s, i + 1, keep, kind)
  {
    hide Only;
    OnlyGrows(s, i, kind);
    assert c[i] == c[i..][0] == s[i] && c[i + 1..] == c[i..][1..];
    assert c[keep := c[i]][..keep + 1] == c[..keep] + [c[i]];
  }

  lemma {:induction false} OnlyOfKind(s: seq<Route>, kind: bool)
    requires forall i :: 0 <= i < |s| ==> s[i].isStatic == kind
    ensures Only(s, kind) == s && Only(s, !kind) == []
  {
    if s != [] {
      OnlyOfKind(s[..|s| - 1], kind);
    }
  }

  lemma {:induction false} OnlyIsOfKind(s: seq<Route>, kind: bool)
    ensures forall i :: 0 <= i < |Only(s, kind)| ==> Only(s, kind)[i].isStatic == kind
  {
    if s != [] {
      OnlyIsOfKind(s[..|s| - 1], kind);
    }
  }

  lemma {:induction false} ConnectedAreNotStatic(ifs: seq<Iface>)
    ensures forall i :: 0 <= i < |ConnectedRoutes(ifs)| ==> !ConnectedRoutes(ifs)[i].isStatic
  {
    if ifs != [] {
      ConnectedAreNotStatic(ifs[..|ifs| - 1]);
    }
  }

  /** The connected routes that fit behind the statics. */
  function Fitting(st: seq<Route>, c: seq<Route>): (fit: seq<Route>)
    requires |st| <= MAX_ROUTE
    ensures Clip(st + c) == st + fit && fit <= c
  {
    if |st| + |c| <= MAX_ROUTE then c else c[..MAX_ROUTE - |st|]
  }

  /** Rebuilding the connected routes keeps every static one, and doing it twice changes nothing more. */
  lemma RederiveKeepsStatics(s: seq<Route>, ifs: seq<Iface>)
    requires |s| <= MAX_ROUTE
    ensures Only(Rederived(s, ifs), true) == Only(s, true)
    ensures Rederived(Rederived(s, ifs), ifs) == Rederived(s, ifs)
  {
    hide Only, ConnectedRoutes;
    OnlyIsOfKind(s, true);
    ConnectedAreNotStatic(ifs);
    StaticsOfSplit(Only(s, true), Fitting(Only(s, true), ConnectedRoutes(ifs)));
  }

  lemma StaticsOfSplit(st: seq<Route>, fit: seq<Route>)
    requires forall i :: 0 <= i < |st| ==> st[i].isStatic
    requires forall i :: 0 <= i < |fit| ==> !fit[i].isStatic
    ensures Only(st + fit, true) == st
  {
    OnlyConcat(st, fit, true);
    OnlyOfKind(st, true);
    OnlyOfKind(fit, false);
  }

  // ---------------------------------------------------------------- longest prefix

  predicate Matches(r: Route, dst: Ip) {
    InNet(dst, r.dest, r.mask)
  }

  ghost predicate Contiguous(s: seq<Route>) {
    forall i :: 0 <= i < |s| ==> IsMask(s[i].mask)
  }

  /** What the loop of route_lookup computes: the first match with the largest prefix_len. */
  ghost predicate LookupResult(s: seq<Route>, dst: Ip, clz0: int, best: int) {
    && -1 <= best < |s|
    && (best < 0 ==> forall i :: 0 <= i < |s| && Matches(s[i], dst) ==> PrefixLen(s[i].mask, clz0) <= -1)
    && (best >= 0 ==>
          && Matches(s[best], dst) && PrefixLen(s[best].mask, clz0) > -1
          && (forall i :: 0 <= i < |s| && Matches(s[i], dst) ==> PrefixLen(s[i].mask, clz0) <= PrefixLen(s[best].mask, clz0))
          && (forall i :: 0 <= i < best && Matches(s[i], dst) ==> PrefixLen(s[i].mask, clz0) < PrefixLen(s[best].mask, clz0)))
  }

  /** What a router wants: the first of the longest matching prefixes, and -1 only when nothing matches. */
  ghost predicate LongestMatch(s: seq<Route>, dst: Ip, best: int)
    requires Contiguous(s)
  {
    && -1 <= best < |s|
    && (best < 0 ==> forall i :: 0 <= i < |s| ==> !Matches(s[i], dst))
    && (best >= 0 ==>
          && Matches(s[best], dst)
          && (forall i :: 0 <= i < |s| && Matches(s[i], dst) ==> LengthOf(s[i].mask) <= LengthOf(s[best].mask))
          && (forall i :: 0 <= i < best && Matches(s[i], dst) ==> LengthOf(s[i].mask) < LengthOf(s[best].mask)))
  }

  lemma LengthOfMask(m: Ip, clz0: int)
    requires IsMask(m)
    ensures PrefixLen(m, clz0) == if LengthOf(m) == 32 then clz0 else LengthOf(m)
  {
    MaskIs(LengthOf(m));
    PrefixLenOfMask(LengthOf(m), clz0);
  }

  /** The lookup has an answer in every table. */
  lemma {:induction false} SomeLookup(s: seq<Route>, dst: Ip, clz0: int) returns (best: int)
    ensures LookupResult(s, dst, clz0, best)
  {
    hide PrefixLen, InNet;
    if s == [] {
      best := -1;
    } else {
      var t, last := s[..|s| - 1], s[|s| - 1];
      var b := SomeLookup(t, dst, clz0);
      assert forall i :: 0 <= i < |t| ==> s[i] == t[i];
      var least := if b < 0 then -1 else PrefixLen(t[b].mask, clz0);
      best := if Matches(last, dst) && PrefixLen(last.mask, clz0) > least then |t| else b;
    }
  }

  /** Longest-prefix lookup is right wherever __builtin_clz(0) is at least 32. */
  lemma LookupIsLongest(s: seq<Route>, dst: Ip, clz0: int, best: int)
    requires Contiguous(s) && clz0 >= 32 && LookupResult(s, dst, clz0, best)
    ensures LongestMatch(s, dst, best)
  {
    hide MaskFromPrefix, PrefixLen, LengthOf, InNet;
    forall i | 0 <= i < |s|
      ensures PrefixLen(s[i].mask, clz0) == if LengthOf(s[i].mask) == 32 then clz0 else LengthOf(s[i].mask)
    {
      LengthOfMask(s[i].mask, clz0);
    }
  }

  /** A /31 and a host route for the same address, the /31 first. */
  function HostRouteTable(): seq<Route> {
    [Route(0, MaskFromPrefix(31), 1, 0, true), Route(0, MaskFromPrefix(32), 2, 0, true)]
  }

  lemma HostRouteTableIsContiguous()
    ensures Contiguous(HostRouteTable())
    ensures LengthOf(HostRouteTable()[0].mask) == 31 && LengthOf(HostRouteTable()[1].mask) == 32
    ensures Matches(HostRouteTable()[0], 0) && Matches(HostRouteTable()[1], 0)
  {
    MaskIs(31);
    MaskIs(32);
    HostBitsOfMask(31);
    HostBitsOfMask(32);
    var s := HostRouteTable();
    assert IsMask(s[0].mask) && IsMask(s[1].mask);
    HostBitsOfMask(LengthOf(s[0].mask));
    HostBitsOfMask(LengthOf(s[1].mask));
  }

  /** With a smaller clz(0) the lookup can prefer the shorter prefix. */
  lemma HostRouteLoses(clz0: int)
    requires clz0 < 32
    ensures LookupResult(HostRouteTable(), 0, clz0, 0) && Contiguous(HostRouteTable())
    ensures !LongestMatch(HostRouteTable(), 0, 0)
  {
    hide MaskFromPrefix, PrefixLen, LengthOf, InNet;
    HostRouteTableIsContiguous();
    PrefixLenOfMask(31, clz0);
    PrefixLenOfMask(32, clz0);
  }

  ghost predicate AlwaysLongest(clz0: int) {
    forall s, dst, best :: Contiguous(s) && LookupResult(s, dst, clz0, best) ==> LongestMatch(s, dst, best)
  }

  /** route_lookup finds the longest prefix in every table exactly when clz(0) comes out as 32 or more. */
  lemma LookupIsLongestIff(clz0: int)
    ensures AlwaysLongest(clz0) <==> clz0 >= 32
  {
    if clz0 >= 32 {
      forall s, dst, best | Contiguous(s) && LookupResult(s, dst, clz0, best) ensures LongestMatch(s, dst, best) {
        LookupIsLongest(s, dst, clz0, best);
      }
    } else {
      HostRouteLoses(clz0);
    }
  }

  /** The chosen network lies inside every other network that holds the destination. */
  lemma LongestIsInnermost(s: seq<Route>, dst: Ip, best: int, i: nat, x: Ip)
    requires Contiguous(s) && LongestMatch(s, dst, best) && best >= 0
    requires i < |s| && Matches(s[i], dst) && Matches(s[best], x)
    ensures Matches(s[i], x)
  {
    NetsNest(dst, s[i].dest, s[i].mask, s[best].dest, s[best].mask, x);
  }

  // ---------------------------------------------------------------- the code

  class Table {
    const routes: array<Route>
    var n: nat
    const clz0: int       // what __builtin_clz(0) yields on this target

    ghost predicate Valid()
      reads this
    {
      routes.Length == MAX_ROUTE && n <= MAX_ROUTE
    }

    ghost function Contents(): seq<Route>
      reads this, routes
      requires Valid()
    {
      routes[..n]
    }

    constructor (clz0: int)
      ensures Valid() && Contents() == [] && fresh(routes) && this.clz0 == clz0
    {
      routes := new Route[MAX_ROUTE](_ => Route(0, 0, 0, 0, false));
      n := 0;
      this.clz0 := clz0;
    }

    /** The compaction loop of route_clear_static and route_derive_connected. */
    method Keep(static_: bool)
      requires Valid()
      modifies this`n, routes
      ensures Valid() && Contents() == Only(old(Contents()), static_)
    {
      ghost var s := Contents();
      assert s[..0] == [] && s[..|s|] == s;
      var keep := 0;
      for i := 0 to n
        invariant 0 <= keep <= i && n == |s| && Compacted(Contents(), s, i, keep, static_)
      {
        hide Only, Compacted;
        ghost var c := Contents();
        CompactedGrows(c, s, i, keep, static_);
        assert routes[i] == c[i];
        if routes[i].isStatic == static_ {
          routes[keep] := routes[i];
          assert Contents() == c[keep := c[i]];
          keep := keep + 1;
        }
      }
      assert routes[..keep] == Contents()[..keep];
      n := keep;
    }

    method ClearStatic()
      requires Valid()
      modifies this`n, routes
      ensures Valid() && Contents() == Only(old(Contents()), false)
    {
      Keep(false);
    }

    method DeriveConnected(ifs: seq<Iface>)
      requires Valid()
      modifies this`n, routes
      ensures Valid() && Contents() == Rederived(old(Contents()), ifs)
    {
      hide Only, ConnectedRoute, ConnectedRoutes, Clip;
      Keep(true);
      ghost var st := Contents();
      NoConnected(ifs);
      var i := 0;
      while i < |ifs| && n < MAX_ROUTE
        invariant 0 <= i <= |ifs| && Valid() && Contents() == st + ConnectedRoutes(ifs[..i])
      {
        hide Only, ConnectedRoute, ConnectedRoutes, Clip;
        var it := ifs[i];
        ConnectedGrow(ifs, i);
        if Derives(it) {
          Append(ConnectedRoute(it));
        }
        i := i + 1;
      }
      ClipAt(st, ifs, i);
    }

    method Append(r: Route)
      requires Valid() && n < MAX_ROUTE
      modifies this`n, routes
      ensures Valid() && Contents() == old(Contents()) + [r]
    {
      routes[n] := r;
      n := n + 1;
    }

    /** route_add: 0 unless the table is full. */
    method Add(dest: Ip, mask: Ip, gw: Ip, ifindex: int) returns (rc: int)
      requires Valid()
      modifies this`n, routes
      ensures Valid() && Contents() == Added(old(Contents()), dest, mask, gw, ifindex)
      ensures rc == if |old(Contents())| >= MAX_ROUTE && !Present(old(Contents()), dest, mask, gw, ifindex) then -1 else 0
    {
      for i := 0 to n
        invariant forall j :: 0 <= j < i ==>
          !(routes[j].dest == dest && routes[j].mask == mask && routes[j].gw == gw && routes[j].ifindex == ifindex)
      {
        if routes[i].dest == dest && routes[i].mask == mask && routes[i].gw == gw && routes[i].ifindex == ifindex {
          assert Contents()[i] == routes[i];
          return 0;
        }
      }
      assert !Present(Contents(), dest, mask, gw, ifindex);
      if n >= MAX_ROUTE {
        return -1;
      }
      Append(Route(dest, mask, gw, ifindex, true));
      return 0;
    }

    /** One step of the loop of route_del. */
    method MoveDown(i: int, ghost index: nat, ghost s: seq<Route>)
      requires Valid() && index <= i < n - 1 == |s| - 1 && Contents() == Closing(s, index, i)
      modifies routes
      ensures Contents() == Closing(s, index, i + 1)
    {
      hide Closing;
      CloseMoves(s, index, i);
      assert routes[i + 1] == Contents()[i + 1];
      ghost var before := Contents();
      routes[i] := routes[i + 1];
      assert Contents() == before[i := s[i + 1]];
    }

    /** route_del: removes exactly the route at the index, and refuses a connected one. */
    method Del(index: int) returns (rc: int)
      requires Valid()
      modifies this`n, routes
      ensures Valid()
      ensures rc == if index < 0 || index >= |old(Contents())| then -1 else if !old(Contents())[index].isStatic then -2 else 0
      ensures Contents() == if rc == 0 then old(Contents())[..index] + old(Contents())[index + 1..] else old(Contents())
    {
      if index < 0 || index >= n {
        return -1;
      }
      if !routes[index].isStatic {
        return -2;
      }
      hide Closing;
      ghost var s := Contents();
      CloseStarts(s, index);
      for i := index to n - 1
        invariant n == |s| && Contents() == Closing(s, index, i)
      {
        MoveDown(i, index, s);
      }
      CloseEnds(s, index);
      assert routes[..n - 1] == Contents()[..n - 1];
      n := n - 1;
      return 0;
    }

    /** route_lookup. */
    method Lookup(dst: Ip) returns (best: int)
      requires Valid()
      ensures LookupResult(Contents(), dst, clz0, best)
    {
      best := -1;
      var bestLen := -1;
      for i := 0 to n
        invariant -1 <= best < i && (best < 0 ==> bestLen == -1)
        invariant best >= 0 ==> Matches(routes[best], dst) && bestLen == PrefixLen(routes[best].mask, clz0) > -1
        invariant forall j :: 0 <= j < i && Matches(routes[j], dst) ==> PrefixLen(routes[j].mask, clz0) <= bestLen
        invariant forall j :: 0 <= j < best && Matches(routes[j], dst) ==> PrefixLen(routes[j].mask, clz0) < bestLen
      {
        if Matches(routes[i], dst) {
          var pl := PrefixLen(routes[i].mask, clz0);
          if pl > bestLen {
            best := i;
            bestLen := pl;
          }
        }
      }
    }
  }

  lemma NoConnected(ifs: seq<Iface>)
    ensures ConnectedRoutes(ifs[..0]) == []
  {}

  lemma ConnectedGrow(ifs: seq<Iface>, i: nat)
    requires i < |ifs|
    ensures ConnectedRoutes(ifs[..i + 1]) == ConnectedRoutes(ifs[..i]) + if Derives(ifs[i]) then [ConnectedRoute(ifs[i])] else []
  {
    assert ifs[..i + 1][..i] == ifs[..i];
  }

  lemma {:induction false} ConnectedPrefix(ifs: seq<Iface>, i: nat)
    requires i <= |ifs|
    ensures ConnectedRoutes(ifs[..i]) <= ConnectedRoutes(ifs)
  {
    if i < |ifs| {
      ConnectedPrefix(ifs[..|ifs| - 1], i);
      assert ifs[..|ifs| - 1][..i] == ifs[..i];
    } else {
      assert ifs[..i] == ifs;
    }
  }

  /** The loop of route_derive_connected may stop when the table is full. */
  lemma ClipAt(st: seq<Route>, ifs: seq<Iface>, i: nat)
    requires i <= |ifs| && |st + ConnectedRoutes(ifs[..i])| <= MAX_ROUTE
    requires i == |ifs| || |st + ConnectedRoutes(ifs[..i])| == MAX_ROUTE
    ensures Clip(st + ConnectedRoutes(ifs)) == st + ConnectedRoutes(ifs[..i])
  {
    ConnectedPrefix(ifs, i);
    if i == |ifs| {
      assert ifs[..i] == ifs;
    }
  }
}
