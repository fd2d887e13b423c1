/**
 What an operator types and what comes of it: the words of rules and routes as the documentation writes them, the
 sections of the configuration file, and the packets a typed rule drops.
 */
module Entered {
  import opened Basics
  import opened Net
  import opened Text
  import opened Firewall
  import opened RuleText
  import C = ConfigFile
  import P = Packets
  import R = Route
  import T = RouteText

  // ---------------------------------------------------------------- numbers and addresses

  /** Numbers are decimal and addresses are written from their first byte on. */
  lemma Written()
    ensures Dec(1053) == "1053" && DecInt(-7) == "-7"
    ensures IpToStr(0xC0A8_01FE) == "192.168.1.254" && StrToIp("192.168.1.254") == Some(0xC0A8_01FE)
  {
    assert Dec(10) == Dec(1) + ['0'] == "10" && Dec(105) == Dec(10) + ['5'] == "105" && Dec(1053) == Dec(105) + ['3'] == "1053";
    Octets();
    hide Dec;
    IpRoundTrip(0xC0A8_01FE);
  }

  lemma Octets()
    ensures IpToStr(0xC0A8_01FE) == "192.168.1.254"
  {
    assert ToBytes32(0xC0A8_01FE) == [192, 168, 1, 254];
    hide ToBytes32;
    Octet(192, 19, 2, "192");
    Octet(168, 16, 8, "168");
    Octet(254, 25, 4, "254");
    assert Dec(1) == "1";
    hide Dec;
  }

  lemma Octet(n: nat, t: nat, u: nat, s: string)
    requires n == 10 * t + u && 10 <= t < 100 && u < 10
    requires s == ['0' + (t / 10) as char, '0' + (t % 10) as char, '0' + u as char]
    ensures Dec(n) == s
  {
    assert Dec(t) == Dec(t / 10) + ['0' + (t % 10) as char] && Dec(t / 10) == ['0' + (t / 10) as char];
  }

  /** Ports end at 65535, prefix lengths at 32 and the bytes of an address at 255. */
  lemma OutOfRange(n: nat, rest: string)
    requires n < 0x8000_0000
    ensures PortOf(Dec(n)).Some? <==> n <= 65535
    ensures PrefixOf(Dec(n)).Some? <==> n <= 32
    ensures ReadByte(Dec(n) + "." + rest, false).Some? <==> n <= 255
  {
    hide Dec, Read, PortOf, PrefixOf, ReadByte;
    PortBound(n);
    ReadDec(n, "");
    assert Dec(n) + "" == Dec(n);
    PrefixBound(Dec(n), n);
    ReadDec(n, "." + rest);
    assert Dec(n) + ("." + rest) == Dec(n) + "." + rest;
    OctetBound(Dec(n) + "." + rest, n, "." + rest);
  }

  lemma PortBound(n: nat)
    requires n < 0x8000_0000
    ensures PortOf(Dec(n)).Some? <==> n <= 65535
  {
    AtoiOfDec(n);
    hide Dec, Atoi;
  }

  lemma PrefixBound(s: string, n: nat)
    requires n < 0x8000_0000 && Read(s) == Number(false, n, "")
    ensures PrefixOf(s).Some? <==> n <= 32
  {
    hide Read;
    assert Int32(n) == n;
  }

  lemma OctetBound(s: string, n: nat, rest: string)
    requires n < 0x8000_0000 && Read(s) == Number(false, n, rest) && rest != "" && rest[0] == '.'
    ensures ReadByte(s, false).Some? <==> n <= 255
  {
    hide Read;
  }

  /** 10.0.0.0/8 is the eight leading bits. */
  lemma Prefix()
    ensures ParseCidr(Cidr(0x0A00_0000, 8)) == Some((0x0A00_0000, 0xFF00_0000))
  {
    CidrRoundTrip(0x0A00_0000, 8);
  }

  // ---------------------------------------------------------------- rules

  predicate IsAction(word: string, a: Action) {
    (word == "drop" && a == Drop) || (word == "allow" && a == Allow)
  }

  predicate IsProto(word: string, p: int) {
    (word == "tcp" && p == 6) || (word == "udp" && p == 17) || (word == "icmp" && p == 1) || (word == "any" && p == -1)
  }

  function NetworkWords(src: Ip, p: nat, dst: Ip, q: nat): seq<string> {
    ["ip", Cidr(src, p), Cidr(dst, q)]
  }

  function OtherWords(name: string, sport: nat, dport: nat, k: string): seq<string> {
    ["proto", name] + (["sport", Dec(sport)] + (["dport", Dec(dport)] + ["keyword", "\"" + k + "\""]))
  }

  /** The networks, the protocol, both ports and the keyword of a rule, as they are typed. */
  lemma RuleReads(word: string, a: Action, src: Ip, p: nat, dst: Ip, q: nat, name: string, proto: int, sport: nat, dport: nat, k: string)
    requires IsAction(word, a) && IsProto(name, proto) && p <= 32 && q <= 32 && sport <= 65535 && dport <= 65535 && |k| <= 63
    ensures Parsed([word] + (NetworkWords(src, p, dst, q) + OtherWords(name, sport, dport, k))) ==
            Some(Rule(a, Masked(src, Mask(p)), Mask(p), Masked(dst, Mask(q)), Mask(q), proto, sport, dport, k))
  {
    hide Mask, Masked, Clauses, IsProto, NetworkWords, OtherWords, Parsed, IsAction;
    var tail := OtherWords(name, sport, dport, k);
    var r := ANY_RULE.(action := a);
    NetworksRead(src, p, dst, q, tail, r);
    var r1 := r.(sip := Masked(src, Mask(p)), sipMask := Mask(p), dip := Masked(dst, Mask(q)), dipMask := Mask(q));
    TailReads(name, proto, sport, dport, k, r1);
    ActionReads(word, a, NetworkWords(src, p, dst, q) + tail);
  }

  lemma ActionReads(word: string, a: Action, ws: seq<string>)
    requires IsAction(word, a)
    ensures Parsed([word] + ws) == Clauses(ws, ANY_RULE.(action := a))
  {
    hide Clauses;
    ParsedFrom([word] + ws, a);
    assert ([word] + ws)[1..] == ws;
  }

  lemma MaskedIs(ip: Ip, m: Ip)
    ensures Masked(ip, m) == ip & m
  {}

  lemma CidrIsAddress(ip: Ip, len: nat)
    requires len <= 32
    ensures LooksLikeAddress(Cidr(ip, len)) && Cidr(ip, len) != "any" && ParseCidr(Cidr(ip, len)) == Some((ip, Mask(len)))
  {
    hide Cidr, ParseCidr, Mask, MaskFromPrefix;
    CidrRoundTrip(ip, len);
    MaskIs(len);
    NoDotInAny(Cidr(ip, len));
  }

  lemma NoDotInAny(w: string)
    requires '.' in w
    ensures w != "any" && LooksLikeAddress(w)
  {
    assert '.' !in "any";
  }

  lemma NetworkReads(ip: Ip, len: nat, r: Rule)
    requires len <= 32
    ensures WithSource(r, Cidr(ip, len)) == Some(r.(sip := Masked(ip, Mask(len)), sipMask := Mask(len)))
    ensures WithDest(r, Cidr(ip, len)) == Some(r.(dip := Masked(ip, Mask(len)), dipMask := Mask(len)))
    ensures LooksLikeAddress(Cidr(ip, len))
  {
    hide Cidr, ParseCidr, Mask, Masked, LooksLikeAddress;
    CidrIsAddress(ip, len);
  }

  lemma NetworksRead(src: Ip, p: nat, dst: Ip, q: nat, rest: seq<string>, r: Rule)
    requires p <= 32 && q <= 32
    ensures Clauses(NetworkWords(src, p, dst, q) + rest, r) ==
            Clauses(rest, r.(sip := Masked(src, Mask(p)), sipMask := Mask(p), dip := Masked(dst, Mask(q)), dipMask := Mask(q)))
  {
    var r1 := r.(sip := Masked(src, Mask(p)), sipMask := Mask(p));
    NetworkReads(src, p, r);
    NetworkReads(dst, q, r1);
    hide Cidr, Mask, Masked, WithSource, WithDest, LooksLikeAddress;
    IpClauseReads(Cidr(src, p), Cidr(dst, q), rest, r, r1, r1.(dip := Masked(dst, Mask(q)), dipMask := Mask(q)));
  }

  lemma IpClauseReads(a: string, b: string, rest: seq<string>, r: Rule, r1: Rule, r2: Rule)
    requires WithSource(r, a) == Some(r1) && WithDest(r1, b) == Some(r2) && LooksLikeAddress(b)
    ensures Clauses(["ip", a, b] + rest, r) == Clauses(rest, r2)
  {
    hide WithSource, WithDest, LooksLikeAddress;
    var ws := ["ip", a, b] + rest;
    assert ws[0] == "ip" && ws[1] == a && ws[2] == b && ws[3..] == rest;
    ClausesStep(ws, r);
  }

  lemma TailReads(name: string, proto: int, sport: nat, dport: nat, k: string, r: Rule)
    requires IsProto(name, proto) && sport <= 65535 && dport <= 65535 && |k| <= 63
    ensures Clauses(OtherWords(name, sport, dport, k), r) == Some(r.(proto := proto, sport := sport, dport := dport, keyword := k))
  {
    hide Dec, Clauses, OtherClause, IsProto;
    var w := ["keyword", "\"" + k + "\""];
    var d := ["dport", Dec(dport)] + w;
    var s := ["sport", Dec(sport)] + d;
    var r1 := r.(proto := proto);
    var r2 := r1.(sport := sport);
    var r3 := r2.(dport := dport);
    ProtoClause(name, proto, r);
    PairReads("proto", name, s, r);
    PortClauses(sport, r1);
    PairReads("sport", Dec(sport), d, r1);
    PortClauses(dport, r2);
    PairReads("dport", Dec(dport), w, r2);
    KeywordClause(k, r3);
  }

  lemma ProtoClause(name: string, proto: int, r: Rule)
    requires IsProto(name, proto)
    ensures OtherClause("proto", name, r) == Some(r.(proto := proto)) && "proto" != "ip"
  {}

  lemma PortClauses(port: nat, r: Rule)
    requires port <= 65535
    ensures OtherClause("sport", Dec(port), r) == Some(r.(sport := port)) && "sport" != "ip"
    ensures OtherClause("dport", Dec(port), r) == Some(r.(dport := port)) && "dport" != "ip"
  {
    PortReads(port);
    hide Dec, PortOf;
  }

  lemma KeywordClause(k: string, r: Rule)
    requires |k| <= 63
    ensures Clauses(["keyword", "\"" + k + "\""], r) == Some(r.(keyword := k))
  {
    QuotesGo(k);
    hide Unquoted;
    PairReads("keyword", "\"" + k + "\"", [], r);
    assert ["keyword", "\"" + k + "\""] + [] == ["keyword", "\"" + k + "\""];
  }

  lemma QuotesGo(k: string)
    requires |k| <= 63
    ensures Unquoted("\"" + k + "\"") == k
  {
    var s := "\"" + k + "\"";
    assert s[1..] == k + "\"";
  }

  /** One address, and nothing else. */
  lemma SourceReads(src: Ip)
    ensures Parsed(["drop", "ip", IpToStr(src)]) == Some(Rule(Drop, src, ALL_ONES, 0, 0, -1, -1, -1, ""))
  {
    HostRoundTrip(src);
    hide IpToStr, ParseCidr, Masked;
    AllOfIt(src);
    assert '.' !in "any";
    var ws := ["drop", "ip", IpToStr(src)];
    ParsedFrom(ws, Drop);
    assert ws[1..] == ["ip", IpToStr(src)] && ws[1..][2..] == [];
  }

  lemma AllOfIt(ip: Ip)
    ensures Masked(ip, ALL_ONES) == ip
  {}

  lemma InNetOfOne(a: Ip, b: Ip)
    ensures InNet(a, b, ALL_ONES) <==> a == b
  {}

  /** A rule typed with the address of a host drops the packets of that host, and no others. */
  method DropsHost(src: Ip, x: P.Packet) returns (action: Action)
    requires P.PacketOk(x)
    ensures action == if x.src == src then Drop else Allow
  {
    hide Parsed, P.PacketOk, InNet, IpToStr;
    SourceReads(src);
    InNetOfOne(x.src, src);
    var r := ParseRule(["drop", "ip", IpToStr(src)]);
    var t := new Table();
    var rc := t.Add(r.value);
    assert t.Contents() == [r.value];
    action := P.CheckOne(t, r.value, x);
  }

  /** A rule typed with a protocol and a port drops what goes to that port, and nothing else. */
  method DropsPort(port: nat, x: P.Packet) returns (action: Action)
    requires P.PacketOk(x) && port <= 65535
    ensures action == if x.body.Tcp? && x.body.dport == port then Drop else Allow
  {
    hide Parsed, P.PacketOk, InNet, Dec;
    PortRuleReads(port);
    var r := ParseRule(["drop", "proto", "tcp", "dport", Dec(port)]);
    var t := new Table();
    var rc := t.Add(r.value);
    assert t.Contents() == [r.value];
    action := P.CheckOne(t, r.value, x);
    TcpIs(x);
  }

  lemma TcpIs(x: P.Packet)
    requires P.PacketOk(x)
    ensures x.proto == 6 <==> x.body.Tcp?
  {}

  lemma PortRuleReads(port: nat)
    requires port <= 65535
    ensures Parsed(["drop", "proto", "tcp", "dport", Dec(port)]) == Some(Rule(Drop, 0, 0, 0, 0, 6, -1, port, ""))
  {
    PortReads(port);
    hide Dec, PortOf;
    var d := ["dport", Dec(port)];
    var ws := ["drop", "proto", "tcp", "dport", Dec(port)];
    ParsedFrom(ws, Drop);
    assert ws[1..] == ["proto", "tcp"] + d;
    var r := ANY_RULE.(action := Drop);
    PairReads("proto", "tcp", d, r);
    PairReads("dport", Dec(port), [], r.(proto := 6));
    assert d + [] == d;
  }

  // ---------------------------------------------------------------- routes

  /** A route by way of a gateway, as it is typed. */
  lemma RouteReads(dest: Ip, p: nat, gw: Ip, ifs: seq<Iface>, i: nat)
    requires p <= 32 && gw != 0 && NamesFirst(ifs, i)
    ensures T.ParsedRoute([Cidr(dest, p), "via", IpToStr(gw), "dev", ifs[i].name], ifs) ==
            Some(R.Route(dest, Mask(p), gw, ifs[i].ifindex, true))
  {
    hide Cidr, ParseCidr, Mask, MaskFromPrefix, IpToStr, T.Options, T.ParsedRoute, T.FirstByName;
    CidrRoundTrip(dest, p);
    MaskIs(p);
    FoundByName(ifs, i);
    var ws := [Cidr(dest, p), "via", IpToStr(gw), "dev", ifs[i].name];
    assert ws[1..] == ["via", IpToStr(gw)] + ["dev", ifs[i].name];
    T.OptionsRead(ws, gw, ifs[i].name, ifs);
    T.PartsRead(ws, ifs, (dest, Mask(p)), (gw, ifs[i].ifindex));
  }

  /** And one without. */
  lemma DirectRouteReads(dest: Ip, p: nat, ifs: seq<Iface>, i: nat)
    requires p <= 32 && NamesFirst(ifs, i)
    ensures T.ParsedRoute([Cidr(dest, p), "dev", ifs[i].name], ifs) == Some(R.Route(dest, Mask(p), 0, ifs[i].ifindex, true))
  {
    hide Cidr, ParseCidr, Mask, MaskFromPrefix, IpToStr, T.Options, T.ParsedRoute, T.FirstByName;
    CidrRoundTrip(dest, p);
    MaskIs(p);
    FoundByName(ifs, i);
    var ws := [Cidr(dest, p), "dev", ifs[i].name];
    assert ws[1..] == [] + ["dev", ifs[i].name];
    T.OptionsRead(ws, 0, ifs[i].name, ifs);
    T.PartsRead(ws, ifs, (dest, Mask(p)), (0, ifs[i].ifindex));
  }

  /** Interface i is the first of its name, and known to the kernel. */
  predicate NamesFirst(ifs: seq<Iface>, i: nat) {
    i < |ifs| && ifs[i].ifindex >= 0 && forall j :: 0 <= j < i ==> ifs[j].name != ifs[i].name
  }

  lemma FoundByName(ifs: seq<Iface>, i: nat)
    requires NamesFirst(ifs, i)
    ensures T.FirstByName(ifs, ifs[i].name) == i
  {}

  /**
   The destination of a route is kept as it is typed: bits behind the prefix make a route that no address matches.
   It matches some address if and only if there are none.
   */
  lemma HostBitsMatchNothing(r: R.Route)
    ensures (exists a :: R.Matches(r, a)) <==> r.dest & r.mask == r.dest
  {
    if r.dest & r.mask == r.dest {
      assert R.Matches(r, r.dest);
    }
    forall a | R.Matches(r, a) ensures r.dest & r.mask == r.dest {
      MatchIsMasked(a, r.dest, r.mask);
    }
  }

  lemma MatchIsMasked(a: Ip, dest: Ip, mask: Ip)
    requires InNet(a, dest, mask)
    ensures dest & mask == dest
  {}

  // ---------------------------------------------------------------- the sections of the file

  /** A line the loader takes as it is. */
  predicate IsEntry(l: string) {
    C.OneLine(l) && l != "" && !Blank(l[0]) && l[|l| - 1] != '\r' && l[0] !in {'[', '#', '/'}
  }

  lemma EntryReads(l: string)
    requires IsEntry(l)
    ensures C.Stripped(l + "\n") == l && C.SkipSlash(C.SkipIndent(l)) == l && l != "" && l[0] != '[' && l[0] != '#'
  {
    C.StrippedLine(l);
    C.PlainStart(l);
  }

  lemma EntryLoads(st: C.Load, l: string, ifs: seq<Iface>)
    requires IsEntry(l)
    ensures C.LoadLine(st, l + "\n", ifs) ==
            if st.section == "filter" then st.(rules := C.AddRule(st.rules, C.FilterOf(l)))
            else if st.section == "firewall" then st.(rules := C.AddRule(st.rules, Parsed(FileArgv(l))))
            else if st.section == "route" then st.(routes := C.AddRoute(st.routes, T.ParsedRoute(FileArgv(l), ifs)))
            else st
  {
    EntryReads(l);
    hide C.Stripped, C.SkipIndent, C.SkipSlash, Parsed, FileArgv, T.ParsedRoute, C.FilterOf, C.AddRule, C.AddRoute, IsEntry;
  }

  /** Remarks and empty lines say nothing, and blanks in front of a line neither. */
  lemma RemarksSayNothing(st: C.Load, remark: string, ifs: seq<Iface>)
    requires C.Plain(remark)
    ensures C.LoadLine(st, "#" + remark + "\n", ifs) == st && C.LoadLine(st, "\n", ifs) == st
  {
    hide C.Stripped;
    EmptyLine();
    RemarkStripped(remark);
  }

  lemma RemarkStripped(remark: string)
    requires C.Plain(remark)
    ensures var t := C.Stripped("#" + remark + "\n"); t != "" && t[0] == '#'
  {
    var l := "#" + remark;
    assert l[0] == '#' && C.Plain(l);
    assert (l + "\n")[..|l|] == l;
    assert C.Cut(l + "\n") == l + "\n" && C.Chopped(l + "\n", '\n') == l;
    hide C.Cut;
    if l[|l| - 1] == '\r' {
      assert C.Chopped(l, '\r')[0] == '#';
    }
  }

  lemma IndentsSayNothing(st: C.Load, l: string, ifs: seq<Iface>)
    requires IsEntry(l)
    ensures C.LoadLine(st, " " + l + "\n", ifs) == C.LoadLine(st, "\t" + l + "\n", ifs) == C.LoadLine(st, l + "\n", ifs)
  {
    hide C.LoadLine;
    EntryReads(l);
    Indented(' ', l);
    Indented('\t', l);
    assert [' '] + l == " " + l && ['\t'] + l == "\t" + l;
    SameStripped(st, " " + l + "\n", l + "\n", ifs);
    SameStripped(st, "\t" + l + "\n", l + "\n", ifs);
  }

  lemma SameStripped(st: C.Load, a: string, b: string, ifs: seq<Iface>)
    requires C.Stripped(a) == C.Stripped(b)
    ensures C.LoadLine(st, a, ifs) == C.LoadLine(st, b, ifs)
  {
    hide C.Stripped;
  }

  lemma Indented(c: char, l: string)
    requires (c == ' ' || c == '\t') && IsEntry(l)
    ensures C.Stripped([c] + l + "\n") == l
  {
    var s := [c] + l;
    C.PlainStart(l);
    assert (s + "\n")[..|s|] == s && s[1..] == l && s[|s| - 1] == l[|l| - 1];
    assert C.Plain(s);
    assert C.Cut(s + "\n") == s + "\n";
    hide C.Cut;
  }

  lemma HeadLoads(st: C.Load, head: string, name: string, ifs: seq<Iface>)
    requires C.Stripped(head + "\n") == head && head != "" && head[0] == '[' && C.SectionName(head[1..]) == name
    ensures C.LoadLine(st, head + "\n", ifs) == st.(section := name)
  {
    hide C.Stripped, C.SectionName;
  }

  lemma EmptyLoads(st: C.Load, ifs: seq<Iface>)
    ensures C.LoadLine(st, "\n", ifs) == st
  {
    hide C.Stripped;
    EmptyLine();
  }

  lemma HeadsLoad(st: C.Load, ifs: seq<Iface>)
    ensures C.LoadLine(st, "[firewall]\n", ifs) == st.(section := "firewall")
    ensures C.LoadLine(st, "[route]\n", ifs) == st.(section := "route")
    ensures C.LoadLine(st, "[filter]\n", ifs) == st.(section := "filter")
  {
    hide C.Stripped, C.SectionName, C.LoadLine;
    FirewallHead();
    RouteHead();
    FilterHead();
    HeadLoads(st, "[firewall]", "firewall", ifs);
    HeadLoads(st, "[route]", "route", ifs);
    HeadLoads(st, "[filter]", "filter", ifs);
  }

  /** [firewall] takes rules, [route] takes routes, and the old [filter] takes addresses to drop. */
  lemma SectionsTake(st: C.Load, rule: string, route: string, ifs: seq<Iface>)
    requires IsEntry(rule) && IsEntry(route)
    ensures C.LoadLines(st, ["[firewall]\n", rule + "\n", "\n", "[route]\n", route + "\n"], ifs) ==
            C.Load("route", C.AddRule(st.rules, Parsed(FileArgv(rule))), C.AddRoute(st.routes, T.ParsedRoute(FileArgv(route), ifs)))
    ensures C.LoadLines(st, ["[filter]\n", rule + "\n"], ifs) == C.Load("filter", C.AddRule(st.rules, C.FilterOf(rule)), st.routes)
  {
    hide Parsed, FileArgv, T.ParsedRoute, C.FilterOf, C.AddRule, C.AddRoute, IsEntry, C.LoadLine, C.LoadLines;
    FiveLines(st, "[firewall]\n", rule + "\n", "\n", "[route]\n", route + "\n", ifs);
    TwoLines(st, "[filter]\n", rule + "\n", ifs);
    HeadsLoad(st, ifs);
    EntryLoads(st.(section := "firewall"), rule, ifs);
    EntryLoads(st.(section := "filter"), rule, ifs);
    var mid := C.Load("firewall", C.AddRule(st.rules, Parsed(FileArgv(rule))), st.routes);
    EmptyLoads(mid, ifs);
    HeadsLoad(mid, ifs);
    EntryLoads(mid.(section := "route"), route, ifs);
  }

  lemma FirewallHead()
    ensures C.Stripped("[firewall]" + "\n") == "[firewall]" && "[firewall]" + "\n" == "[firewall]\n" && C.SectionName("[firewall]"[1..]) == "firewall"
  {
    hide C.Stripped, C.SectionName;
    HeadIs("[firewall]", "firewall");
    assert "[firewall]" + "\n" == "[firewall]\n";
  }

  lemma RouteHead()
    ensures C.Stripped("[route]" + "\n") == "[route]" && "[route]" + "\n" == "[route]\n" && C.SectionName("[route]"[1..]) == "route"
  {
    hide C.Stripped, C.SectionName;
    HeadIs("[route]", "route");
    assert "[route]" + "\n" == "[route]\n";
  }

  lemma FilterHead()
    ensures C.Stripped("[filter]" + "\n") == "[filter]" && "[filter]" + "\n" == "[filter]\n" && C.SectionName("[filter]"[1..]) == "filter"
  {
    hide C.Stripped, C.SectionName;
    HeadIs("[filter]", "filter");
    assert "[filter]" + "\n" == "[filter]\n";
  }

  lemma EmptyLine()
    ensures C.Stripped("\n") == ""
  {
    assert "" + "\n" == "\n" && ("" + "\n")[..0] == "";
    assert C.Cut("\n") == "\n";
  }

  lemma HeadIs(head: string, name: string)
    requires head == "[" + name + "]" && |name| <= 15 && ']' !in name && C.Plain(name)
    ensures C.Stripped(head + "\n") == head && C.SectionName(head[1..]) == name
  {
    assert C.Plain(head);
    C.StrippedLine(head);
    assert head[1..] == name + "]" && (name + "]")[..|name|] == name;
    IndexOfIs(head[1..], ']', |name|);
  }

  lemma FiveLines(st: C.Load, a: string, b: string, c: string, d: string, e: string, ifs: seq<Iface>)
    ensures C.LoadLines(st, [a, b, c, d, e], ifs) ==
            C.LoadLine(C.LoadLine(C.LoadLine(C.LoadLine(C.LoadLine(st, a, ifs), b, ifs), c, ifs), d, ifs), e, ifs)
  {
    hide C.LoadLine;
    TwoLines(st, a, b, ifs);
    C.LoadSnoc(st, [a, b], c, ifs);
    C.LoadSnoc(st, [a, b] + [c], d, ifs);
    C.LoadSnoc(st, [a, b] + [c] + [d], e, ifs);
    assert [a, b] + [c] + [d] + [e] == [a, b, c, d, e];
  }

  lemma TwoLines(st: C.Load, a: string, b: string, ifs: seq<Iface>)
    ensures C.LoadLines(st, [a, b], ifs) == C.LoadLine(C.LoadLine(st, a, ifs), b, ifs)
  {
    hide C.LoadLine;
    assert C.LoadLines(st, [], ifs) == st;
    C.LoadSnoc(st, [], a, ifs);
    C.LoadSnoc(st, [] + [a], b, ifs);
    assert [] + [a] + [b] == [a, b];
  }

  /** The old way to drop a host or a network. */
  lemma FilterReads(src: Ip, p: nat)
    requires p <= 32
    ensures C.FilterOf("drop ip " + Cidr(src, p)) == Some(Rule(Drop, src & Mask(p), Mask(p), 0, 0, -1, -1, -1, ""))
  {
    CidrRoundTrip(src, p);
    MaskIs(p);
    MaskedIs(src, Mask(p));
    hide Cidr, ParseCidr, Mask, MaskFromPrefix, Masked;
    BehindIp(Cidr(src, p));
  }

  lemma NotYet(s: string)
    requires |s| >= 3 && s[0] != 'i'
    ensures C.AfterIp(s) == C.AfterIp(s[1..])
  {
    assert s[..3][0] == s[0];
  }

  lemma BehindIp(a: string)
    ensures C.AfterIp("drop ip " + a) == Some(a)
  {
    var s := "drop ip " + a;
    assert s[0] == 'd' && s[1] == 'r' && s[2] == 'o' && s[3] == 'p' && s[4] == ' ';
    NotYet(s);
    NotYet(s[1..]);
    NotYet(s[2..]);
    NotYet(s[3..]);
    NotYet(s[4..]);
    assert s[1..][1..] == s[2..] && s[2..][1..] == s[3..] && s[3..][1..] == s[4..] && s[4..][1..] == s[5..];
    assert s[5..] == "ip " + a && ("ip " + a)[..3] == "ip " && ("ip " + a)[3..] == a;
  }
}
