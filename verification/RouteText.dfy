/** Static routes as text: the [route] lines of config_save and their parser (src/config.c). */
module RouteText {
  import opened Basics
  import opened Net
  import opened Route
  import opened RuleText
  import opened Text

  /** iface_by_name. */
  function FirstByName(ifs: seq<Iface>, name: string): (i: int)
    ensures -1 <= i < |ifs|
    ensures i >= 0 ==> ifs[i].name == name && forall j :: 0 <= j < i ==> ifs[j].name != name
    ensures i < 0 ==> forall j :: 0 <= j < |ifs| ==> ifs[j].name != name
  {
    if ifs == [] then -1
    else if ifs[0].name == name then 0
    else
      var i := FirstByName(ifs[1..], name);
      assert forall j :: 0 < j < |ifs| ==> ifs[j] == ifs[1..][j - 1];
      if i < 0 then -1 else i + 1
  }

  function DevName(ifs: seq<Iface>, ifindex: int): string {
    if FirstByIndex(ifs, ifindex) >= 0 then ifs[FirstByIndex(ifs, ifindex)].name else "?"
  }

  function ViaWords(gw: Ip): seq<string> {
    if gw != 0 then ["via", IpToStr(gw)] else []
  }

  /** The words of a printed route; prefix_len of a host mask is what the compiler makes of it. */
  function RouteWords(r: Route, ifs: seq<Iface>, clz0: int): seq<string> {
    [Cidr(r.dest, PrefixLen(r.mask, clz0))] + ViaWords(r.gw) + ["dev", DevName(ifs, r.ifindex)]
  }

  function RouteLine(r: Route, ifs: seq<Iface>, clz0: int): string {
    Line(RouteWords(r, ifs, clz0))
  }

  /** The loop of parse_route_line over the words from i on: None when it drops the line. */
  function Options(ws: seq<string>, i: nat, gw: Ip, ifindex: int, ifs: seq<Iface>): Option<(Ip, int)>
    decreases |ws| - i
  {
    if i + 1 >= |ws| then Some((gw, ifindex))
    else if ws[i] == "via" then
      match StrToIp(ws[i + 1]) case None => None case Some(g) => Options(ws, i + 1, g, ifindex, ifs)
    else if ws[i] == "dev" then
      var k := FirstByName(ifs, ws[i + 1]);
      if k < 0 then None else Options(ws, i + 1, gw, ifs[k].ifindex, ifs)
    else Options(ws, i + 1, gw, ifindex, ifs)
  }

  /** parse_route_line on the words of the line. */
  function ParsedRoute(ws: seq<string>, ifs: seq<Iface>): Option<Route> {
    if ws == [] then None
    else match ParseCidr(ws[0])
      case None => None
      case Some(net) =>
        match Options(ws, 1, 0, -1, ifs)
        case None => None
        case Some(o) => if o.1 < 0 then None else Some(Route(net.0, net.1, o.0, o.1, true))
  }

  method ParseRoute(argv: seq<string>, ifs: seq<Iface>) returns (r: Option<Route>)
    ensures r == ParsedRoute(argv, ifs)
  {
    hide ParseCidr, StrToIp, FirstByName;
    if |argv| < 1 {
      return None;
    }
    var net := ParseCidr(argv[0]);
    if net.None? {
      return None;
    }
    var gw: Ip, ifindex := 0, -1;
    var i := 1;
    while i + 1 < |argv|
      invariant i >= 1 && Options(argv, 1, 0, -1, ifs) == Options(argv, i, gw, ifindex, ifs)
    {
      if argv[i] == "via" {
        var g := StrToIp(argv[i + 1]);
        if g.None? {
          return None;
        }
        gw := g.value;
      } else if argv[i] == "dev" {
        var k := FirstByName(ifs, argv[i + 1]);
        if k < 0 {
          return None;
        }
        ifindex := ifs[k].ifindex;
      }
      i := i + 1;
    }
    if ifindex < 0 {
      return None;
    }
    return Some(Route(net.value.0, net.value.1, gw, ifindex, true));
  }

  /** Interface names as the kernel allows them: one word of at most 15 characters. */
  predicate RealNames(ifs: seq<Iface>) {
    forall i :: 0 <= i < |ifs| ==> ShortWord(ifs[i].name, 15) && NUL !in ifs[i].name
  }

  /** Some interface has the index, and its name names no interface with another one. */
  ghost predicate Named(ifindex: int, ifs: seq<Iface>) {
    && ifindex >= 0 && FirstByIndex(ifs, ifindex) >= 0
    && ifs[FirstByName(ifs, DevName(ifs, ifindex))].ifindex == ifindex
  }

  /** The route can be written down: the compiler gives host masks their 32, and the interface can be named. */
  ghost predicate Savable(r: Route, ifs: seq<Iface>, clz0: int) {
    r.isStatic && IsMask(r.mask) && (r.mask == ALL_ONES ==> clz0 == 32) && Named(r.ifindex, ifs)
  }

  /** What the compiler makes of clz(0) is an int. */
  predicate IsInt(v: int) {
    -0x8000_0000 <= v < 0x8000_0000
  }

  lemma AddressIsNoOption(ip: Ip)
    ensures IpToStr(ip) != "via" && IpToStr(ip) != "dev"
  {
    IpIsDotted(ip);
    assert '.' !in "via" && '.' !in "dev";
  }

  /** A savable route is read back as it was. */
  lemma RouteReads(r: Route, ifs: seq<Iface>, clz0: int)
    requires Savable(r, ifs, clz0)
    ensures ParsedRoute(RouteWords(r, ifs, clz0), ifs) == Some(r)
  {
    hide *;
    SavableParts(r, ifs, clz0);
    DestReads(r.dest, r.mask, clz0);
    RouteShape(r, ifs, clz0);
    NamedIsFound(r.ifindex, ifs);
    OptionsRead(RouteWords(r, ifs, clz0), r.gw, DevName(ifs, r.ifindex), ifs);
    PartsRead(RouteWords(r, ifs, clz0), ifs, (r.dest, r.mask), (r.gw, r.ifindex));
  }

  lemma SavableParts(r: Route, ifs: seq<Iface>, clz0: int)
    requires Savable(r, ifs, clz0)
    ensures r == Route(r.dest, r.mask, r.gw, r.ifindex, true) && IsMask(r.mask) && (r.mask == ALL_ONES ==> clz0 == 32)
    ensures Named(r.ifindex, ifs) && r.ifindex >= 0
  {}

  lemma RouteShape(r: Route, ifs: seq<Iface>, clz0: int)
    ensures var ws := RouteWords(r, ifs, clz0);
            |ws| > 0 && ws[0] == Cidr(r.dest, PrefixLen(r.mask, clz0)) && ws[1..] == ViaWords(r.gw) + ["dev", DevName(ifs, r.ifindex)]
  {
    hide Cidr, PrefixLen, ViaWords, DevName;
    var a := Cidr(r.dest, PrefixLen(r.mask, clz0));
    assert RouteWords(r, ifs, clz0) == [a] + (ViaWords(r.gw) + ["dev", DevName(ifs, r.ifindex)]);
  }

  lemma NamedIsFound(ifindex: int, ifs: seq<Iface>)
    requires Named(ifindex, ifs)
    ensures var k := FirstByName(ifs, DevName(ifs, ifindex)); k >= 0 && ifs[k].ifindex == ifindex
  {}

  lemma PartsRead(ws: seq<string>, ifs: seq<Iface>, net: (Ip, Ip), o: (Ip, int))
    requires ws != [] && ParseCidr(ws[0]) == Some(net) && Options(ws, 1, 0, -1, ifs) == Some(o) && o.1 >= 0
    ensures ParsedRoute(ws, ifs) == Some(Route(net.0, net.1, o.0, o.1, true))
  {
    hide ParseCidr, Options;
  }

  lemma DestReads(dest: Ip, mask: Ip, clz0: int)
    requires IsMask(mask) && (mask == ALL_ONES ==> clz0 == 32)
    ensures ParseCidr(Cidr(dest, PrefixLen(mask, clz0))) == Some((dest, mask))
  {
    var len := LengthOf(mask);
    MaskIs(len);
    PrefixLenOfMask(len, clz0);
    hide ParseCidr, Cidr, PrefixLen, MaskFromPrefix, Mask;
    CidrRoundTrip(dest, len);
  }

  lemma LastOption(ws: seq<string>, i: nat, gw: Ip, ifs: seq<Iface>)
    requires i + 2 == |ws| && ws[i] == "dev"
    ensures var k := FirstByName(ifs, ws[i + 1]);
            Options(ws, i, gw, -1, ifs) == if k < 0 then None else Some((gw, ifs[k].ifindex))
  {}

  /** What the options of a printed route are read as. */
  lemma OptionsRead(ws: seq<string>, gw: Ip, name: string, ifs: seq<Iface>)
    requires |ws| > 0 && ws[1..] == ViaWords(gw) + ["dev", name]
    ensures var k := FirstByName(ifs, name);
            Options(ws, 1, 0, -1, ifs) == if k < 0 then None else Some((gw, ifs[k].ifindex))
  {
    hide IpToStr, StrToIp, FirstByName;
    if gw != 0 {
      IpRoundTrip(gw);
      AddressIsNoOption(gw);
      assert ws[1] == ws[1..][0] == "via" && ws[2] == ws[1..][1] == IpToStr(gw);
      assert ws[3] == ws[1..][2] == "dev" && ws[4] == ws[1..][3] == name && |ws| == 5;
      assert Options(ws, 1, 0, -1, ifs) == Options(ws, 2, gw, -1, ifs) == Options(ws, 3, gw, -1, ifs);
      LastOption(ws, 3, gw, ifs);
    } else {
      assert ws[1] == ws[1..][0] == "dev" && ws[2] == ws[1..][1] == name && |ws| == 3;
      LastOption(ws, 1, gw, ifs);
    }
  }

  // ---------------------------------------------------------------- how long

  /** Eight steps of prefix_len's count. */
  lemma HostBitsByte(m: Ip)
    ensures HostBits(m) <= 8 + HostBits(ByteLonger(m))
  {
    hide HostBits, Longer, ByteLonger;
    var a, b, c, d, e, f, g := Longer(m), Longer(Longer(m)), Longer(Longer(Longer(m))), m, m, m, m;
    d := Longer(c);
    e := Longer(d);
    f := Longer(e);
    g := Longer(f);
    EightLonger(m);
    HostBitsStep(m);
    HostBitsStep(a);
    HostBitsStep(b);
    HostBitsStep(c);
    HostBitsStep(d);
    HostBitsStep(e);
    HostBitsStep(f);
    HostBitsStep(g);
    NoHostBits();
  }

  lemma NoHostBits()
    ensures HostBits(ALL_ONES) == 0 && HostBits(Longer(ALL_ONES)) == 0
  {
    assert Longer(ALL_ONES) == ALL_ONES;
    HostBitsStep(ALL_ONES);
  }

  lemma EightLonger(m: Ip)
    ensures Longer(Longer(Longer(Longer(Longer(Longer(Longer(Longer(m)))))))) == ByteLonger(m)
  {}

  function ByteLonger(m: Ip): Ip {
    (m >> 8) | 0xFF00_0000
  }

  lemma FourBytes(m: Ip)
    ensures ByteLonger(ByteLonger(ByteLonger(ByteLonger(m)))) == ALL_ONES
  {}

  lemma HostBitsBound(mask: Ip)
    ensures HostBits(mask) <= 32
  {
    hide HostBits, ByteLonger, Longer;
    HostBitsByte(mask);
    HostBitsByte(ByteLonger(mask));
    HostBitsByte(ByteLonger(ByteLonger(mask)));
    HostBitsByte(ByteLonger(ByteLonger(ByteLonger(mask))));
    FourBytes(mask);
    NoHostBits();
  }

  lemma PrefixLenIsInt(mask: Ip, clz0: int)
    requires IsInt(clz0)
    ensures IsInt(PrefixLen(mask, clz0))
  {
    hide HostBits;
    HostBitsBound(mask);
  }

  lemma DecIntFits(v: int)
    requires IsInt(v)
    ensures |DecInt(v)| <= 11 && BlankFree(DecInt(v)) && '/' !in DecInt(v)
  {
    assert Pow10(10) == 10000000000;
    DecLen(if v < 0 then -v else v, 10);
    hide Dec;
  }

  lemma CidrFits(dest: Ip, len: int)
    requires IsInt(len)
    ensures ShortWord(Cidr(dest, len), 27)
  {
    IpIsDotted(dest);
    DecIntFits(len);
    hide IpToStr, DecInt;
  }

  /** A printed route, readable or not, is at most five words and 67 characters. */
  lemma RouteFits(r: Route, ifs: seq<Iface>, clz0: int)
    requires RealNames(ifs) && IsInt(clz0)
    ensures AreWords(RouteWords(r, ifs, clz0)) && 0 < |RouteWords(r, ifs, clz0)| <= 5
    ensures |RouteLine(r, ifs, clz0)| <= 67 && NoNewline(RouteLine(r, ifs, clz0))
  {
    PrefixLenIsInt(r.mask, clz0);
    CidrFits(r.dest, PrefixLen(r.mask, clz0));
    assert ShortWord("?", 15);
    var w, name := Cidr(r.dest, PrefixLen(r.mask, clz0)), DevName(ifs, r.ifindex);
    assert RouteWords(r, ifs, clz0) == [w] + ViaWords(r.gw) + ["dev", name];
    assert ShortWord(w, 27) && ShortWord(name, 15);
    hide *;
    ViaFits(r.gw);
    RoutePartsFit(w, ViaWords(r.gw), name);
    FitIsLine(RouteWords(r, ifs, clz0), 5, 68);
    LineOfRoute(r, ifs, clz0);
  }

  lemma RouteLineEnds(r: Route, ifs: seq<Iface>, clz0: int)
    requires RealNames(ifs) && IsInt(clz0)
    ensures RouteLine(r, ifs, clz0) != "" && !Blank(RouteLine(r, ifs, clz0)[|RouteLine(r, ifs, clz0)| - 1])
  {
    hide RouteWords;
    var ws := RouteWords(r, ifs, clz0);
    RouteFits(r, ifs, clz0);
    assert ws[|ws| - 1] != "" && BlankFree(ws[|ws| - 1]);
    LineEnds(ws);
  }

  lemma RouteLineNulFree(r: Route, ifs: seq<Iface>, clz0: int)
    requires RealNames(ifs)
    ensures NUL !in RouteLine(r, ifs, clz0)
  {
    var len := PrefixLen(r.mask, clz0);
    CidrNulFree(r.dest, 0);
    CidrNulFree(r.gw, 0);
    DigitsNulFree(if len < 0 then -len else len);
    hide IpToStr, Dec, PrefixLen, CidrToStr;
    assert NUL !in Cidr(r.dest, len) && NUL !in DevName(ifs, r.ifindex) && NulFree(ViaWords(r.gw));
    hide Cidr, DevName, ViaWords;
    LineNulFree(RouteWords(r, ifs, clz0));
  }

  lemma LineOfRoute(r: Route, ifs: seq<Iface>, clz0: int)
    ensures RouteLine(r, ifs, clz0) == Line(RouteWords(r, ifs, clz0))
  {}

  lemma RoutePartsFit(w: string, via: seq<string>, name: string)
    requires ShortWord(w, 27) && Fit(via, 2, 20) && ShortWord(name, 15)
    ensures Fit([w] + via + ["dev", name], 5, 68) && [w] + via + ["dev", name] != []
  {
    WordFits(w, 28);
    PairFits("dev", name, 20);
    hide Fit;
    FitConcat([w], 1, 28, via, 2, 20);
    FitConcat([w] + via, 3, 48, ["dev", name], 2, 20);
  }

  lemma FitIsLine(ws: seq<string>, n: nat, k: nat)
    requires Fit(ws, n, k) && ws != []
    ensures AreWords(ws) && |ws| <= n && |Line(ws)| < k && NoNewline(Line(ws))
  {
    LineSize(ws);
    LineHasNoNewline(ws);
  }

  lemma ViaFits(gw: Ip)
    ensures Fit(ViaWords(gw), 2, 20)
  {
    if gw != 0 {
      IpIsDotted(gw);
      hide IpToStr;
      PairFits("via", IpToStr(gw), 20);
    }
  }

  /** Every savable route is printed as a line that is split and parsed into the same route. */
  lemma RouteRoundTrip(r: Route, ifs: seq<Iface>, clz0: int)
    requires Savable(r, ifs, clz0) && RealNames(ifs) && IsInt(clz0)
    ensures ParsedRoute(FileArgv(RouteLine(r, ifs, clz0)), ifs) == Some(r)
  {
    hide ParsedRoute, RouteWords, FileArgv, Savable;
    RouteReads(r, ifs, clz0);
    LineIsRoute(r, ifs, clz0);
  }

  /** A host mask printed with another length is not read as a host mask. */
  lemma HostMaskIsLost(dest: Ip, len: int)
    requires IsInt(len) && len != 32
    ensures ParseCidr(Cidr(dest, len)).Some? ==> ParseCidr(Cidr(dest, len)).value.1 != ALL_ONES
  {
    if 0 <= len < 32 {
      CidrRoundTrip(dest, len);
      MaskIs(len);
      hide ParseCidr, Cidr, MaskFromPrefix, Mask;
    } else {
      IpIsDotted(dest);
      DecIntFits(len);
      NoPrefix(len);
      hide IpToStr, DecInt, PrefixOf, ParseCidr;
      BadLength(IpToStr(dest), DecInt(len));
    }
  }

  lemma BadLength(a: string, d: string)
    requires Dotted(a) && |a| <= 15 && |d| <= 11 && PrefixOf(d) == None
    ensures ParseCidr(a + "/" + d) == None
  {
    hide StrToIp, PrefixOf, MaskFromPrefix;
    var s := a + "/" + d;
    assert Clipped(s, 64) == s && s[|a|] == '/' && s[..|a|] == a && s[|a| + 1..] == d;
    IndexOfIs(s, '/', |a|);
  }

  lemma NoPrefix(len: int)
    requires IsInt(len) && !(0 <= len <= 32)
    ensures PrefixOf(DecInt(len)) == None
  {
    hide Read, Dec, Int32, Signed;
    IntStays(len);
    if len >= 0 {
      ReadDec(len, "");
      assert Dec(len) + "" == Dec(len);
    } else {
      ReadNegative(-len);
    }
  }

  lemma IntStays(v: int)
    requires IsInt(v)
    ensures v >= 0 ==> Int32(Signed(false, v)) == v
    ensures v < 0 ==> Int32(Signed(true, -v)) == v
  {}

  lemma ReadNegative(n: nat)
    ensures Read("-" + Dec(n)) == Number(true, n, "")
  {
    var d := Dec(n);
    var s := "-" + d;
    assert s[1..] == d && SkipSpace(s) == s && d[..|d|] == d;
    DigitsLenIs(d, |d|);
    ValueOfDec(n);
    hide Dec, Value;
    assert d[|d|..] == "";
  }

  /** A static route survives being printed, split and parsed if and only if it is savable. */
  lemma RouteSurvivesIff(r: Route, ifs: seq<Iface>, clz0: int)
    requires r.isStatic && IsMask(r.mask) && RealNames(ifs) && IsInt(clz0)
    ensures ParsedRoute(FileArgv(RouteLine(r, ifs, clz0)), ifs) == Some(r)
            <==> (r.mask == ALL_ONES ==> clz0 == 32) && Named(r.ifindex, ifs)
  {
    hide FileArgv, RouteWords, RouteLine, RealNames, Options, ParseCidr, Cidr;
    LineIsRoute(r, ifs, clz0);
    var ws := RouteWords(r, ifs, clz0);
    RouteShape(r, ifs, clz0);
    OptionsRead(ws, r.gw, DevName(ifs, r.ifindex), ifs);
    if r.mask == ALL_ONES && clz0 != 32 {
      assert PrefixLen(ALL_ONES, clz0) == clz0;
      HostMaskIsLost(r.dest, clz0);
    } else {
      DestReads(r.dest, r.mask, clz0);
    }
  }

  /** Whatever a printed route is read as can be written down. */
  lemma ReadIsSavable(r: Route, ifs: seq<Iface>, clz0: int)
    requires IsMask(r.mask) && RealNames(ifs) && IsInt(clz0) && UniqueIndices(ifs)
    ensures var q := ParsedRoute(FileArgv(RouteLine(r, ifs, clz0)), ifs); q.Some? ==> Savable(q.value, ifs, clz0)
  {
    hide *;
    var ws, name := RouteWords(r, ifs, clz0), DevName(ifs, r.ifindex);
    LineIsRoute(r, ifs, clz0);
    RouteShape(r, ifs, clz0);
    OptionsRead(ws, r.gw, name, ifs);
    MaskReads(r.dest, r.mask, clz0);
    if ParsedRoute(ws, ifs).Some? {
      PartsAre(ws, ifs);
      FoundIsNamed(name, ifs);
      PartsSavable(ParsedRoute(ws, ifs).value, ifs, clz0);
    }
  }

  lemma PartsAre(ws: seq<string>, ifs: seq<Iface>)
    requires ParsedRoute(ws, ifs).Some?
    ensures ws != [] && ParseCidr(ws[0]).Some? && Options(ws, 1, 0, -1, ifs).Some?
    ensures var q, net, o := ParsedRoute(ws, ifs).value, ParseCidr(ws[0]).value, Options(ws, 1, 0, -1, ifs).value;
            q == Route(net.0, net.1, o.0, o.1, true) && o.1 >= 0
  {
    hide ParseCidr, Options;
  }

  lemma PartsSavable(q: Route, ifs: seq<Iface>, clz0: int)
    requires q.isStatic && IsMask(q.mask) && (q.mask == ALL_ONES ==> clz0 == 32) && Named(q.ifindex, ifs)
    ensures Savable(q, ifs, clz0)
  {}

  lemma FoundIsNamed(name: string, ifs: seq<Iface>)
    requires UniqueIndices(ifs) && FirstByName(ifs, name) >= 0 && ifs[FirstByName(ifs, name)].ifindex >= 0
    ensures Named(ifs[FirstByName(ifs, name)].ifindex, ifs)
  {}

  lemma MaskReads(dest: Ip, mask: Ip, clz0: int)
    requires IsMask(mask) && IsInt(clz0)
    ensures var net := ParseCidr(Cidr(dest, PrefixLen(mask, clz0)));
            net.Some? ==> IsMask(net.value.1) && (net.value.1 == ALL_ONES ==> clz0 == 32)
  {
    CidrIsOk(Cidr(dest, PrefixLen(mask, clz0)));
    hide ParseCidr, Cidr, IsMask;
    if mask == ALL_ONES && clz0 != 32 {
      assert PrefixLen(ALL_ONES, clz0) == clz0;
      HostMaskIsLost(dest, clz0);
    } else {
      DestReads(dest, mask, clz0);
    }
  }

  lemma LineIsRoute(r: Route, ifs: seq<Iface>, clz0: int)
    requires RealNames(ifs) && IsInt(clz0)
    ensures FileArgv(RouteLine(r, ifs, clz0)) == RouteWords(r, ifs, clz0)
  {
    hide RouteWords, FileArgv;
    RouteFits(r, ifs, clz0);
    FileArgvOfLine(RouteWords(r, ifs, clz0));
  }
}
