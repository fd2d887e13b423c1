/**
 Firewall rules as text: the printer of config_save (src/config.c), the parser shared with the terminal
 (src/firewall.c), and the round trip of the [firewall] section.
 */
module RuleText {
  import opened Basics
  import opened Firewall
  import opened Net
  import opened Text

  // ---------------------------------------------------------------- networks

  function IndexOf(s: string, c: char): (k: nat)
    ensures k <= |s| && (k < |s| ==> s[k] == c) && c !in s[..k]
  {
    if s == "" || s[0] == c then 0
    else
      var k := 1 + IndexOf(s[1..], c);
      assert s[..k] == [s[0]] + s[1..][..k - 1];
      k
  }

  lemma {:induction false} IndexOfIs(s: string, c: char, k: nat)
    requires k <= |s| && c !in s[..k] && (k < |s| ==> s[k] == c)
    ensures IndexOf(s, c) == k
  {
    if k > 0 {
      assert s[0] in s[..k];
      assert s[1..][..k - 1] == s[..k][1..];
      IndexOfIs(s[1..], c, k - 1);
    }
  }

  /** A copy into a buffer of n bytes. */
  function Clipped(s: string, n: nat): string
    requires n > 0
  {
    if |s| < n then s else s[..n - 1]
  }

  /** parse_cidr: the address, and the mask of the length behind the slash or of 32. */
  function ParseCidr(s: string): Option<(Ip, Ip)> {
    var b := Clipped(s, 64);
    var k := IndexOf(b, '/');
    var len := if k == |b| then Some(32) else PrefixOf(b[k + 1..]);
    if len.None? then None
    else match StrToIp(b[..k])
      case None => None
      case Some(ip) => Some((ip, MaskFromPrefix(len.value)))
  }

  function PrefixOf(s: string): (len: Option<int>)
    ensures len.Some? ==> 0 <= len.value <= 32
  {
    match Read(s)
    case NoNumber => None
    case Number(neg, mag, _) => var v := Int32(Signed(neg, mag)); if v < 0 || v > 32 then None else Some(v)
  }

  /** cidr_to_str, and the "%s/%d" of the route lines. */
  function Cidr(ip: Ip, len: int): string {
    IpToStr(ip) + "/" + DecInt(len)
  }

  function CidrToStr(ip: Ip, mask: Ip): string {
    if mask == ALL_ONES then IpToStr(ip) else Cidr(ip, PrefixLen(mask, 32))
  }

  /** What the digits of an address look like. */
  predicate Dotted(s: string) {
    s != "" && forall i :: 0 <= i < |s| ==> Digit(s[i]) || s[i] == '.'
  }

  lemma IpIsDotted(ip: Ip)
    ensures Dotted(IpToStr(ip)) && '.' in IpToStr(ip) && |IpToStr(ip)| <= 15
  {
    var b := ToBytes32(ip);
    hide ToBytes32, Dec;
    ByteIsShort(b[0]);
    ByteIsShort(b[1]);
    ByteIsShort(b[2]);
    ByteIsShort(b[3]);
    assert IpToStr(ip)[|Dec(b[0])|] == '.';
  }

  lemma ByteIsShort(b: Byte)
    ensures |Dec(b)| <= 3
  {
    assert Pow10(3) == 1000;
    DecLen(b, 3);
  }

  lemma LenIsShort(len: nat)
    requires len <= 32
    ensures |Dec(len)| <= 2
  {
    assert Pow10(2) == 100;
    DecLen(len, 2);
  }

  /** A printed network with a length is read back. */
  lemma CidrRoundTrip(ip: Ip, len: nat)
    requires len <= 32
    ensures ParseCidr(Cidr(ip, len)) == Some((ip, MaskFromPrefix(len)))
    ensures |Cidr(ip, len)| <= 18 && '.' in Cidr(ip, len) && BlankFree(Cidr(ip, len))
  {
    hide IpToStr, Dec, StrToIp, PrefixOf, MaskFromPrefix;
    IpIsDotted(ip);
    LenIsShort(len);
    IpRoundTrip(ip);
    PrefixOfDec(len);
    CidrShape(IpToStr(ip), Dec(len));
  }

  lemma PrefixOfDec(len: nat)
    requires len <= 32
    ensures PrefixOf(Dec(len)) == Some(len)
  {
    ReadDec(len, "");
    hide Read, Dec;
    assert Dec(len) + "" == Dec(len);
    assert Int32(Signed(false, len)) == len;
  }

  lemma CidrShape(a: string, d: string)
    requires Dotted(a) && '.' in a && |a| <= 15 && AllDigits(d) && |d| <= 2
    ensures var s := a + "/" + d;
            Clipped(s, 64) == s && IndexOf(s, '/') == |a| < |s| <= 18 && s[..|a|] == a && s[|a| + 1..] == d
            && '.' in s && BlankFree(s)
  {
    var s := a + "/" + d;
    assert s[|a|] == '/' && s[..|a|] == a;
    IndexOfIs(s, '/', |a|);
  }

  lemma HostRoundTrip(ip: Ip)
    ensures ParseCidr(IpToStr(ip)) == Some((ip, ALL_ONES))
    ensures |IpToStr(ip)| <= 15 && '.' in IpToStr(ip) && BlankFree(IpToStr(ip))
  {
    var s := IpToStr(ip);
    IpIsDotted(ip);
    IpRoundTrip(ip);
    hide IpToStr, StrToIp, Read;
    assert s[..|s|] == s;
    IndexOfIs(s, '/', |s|);
  }

  /** A printed network, /32 or shorter, is read back with its mask. */
  lemma NetworkRoundTrip(ip: Ip, mask: Ip)
    requires IsMask(mask)
    ensures ParseCidr(CidrToStr(ip, mask)) == Some((ip, mask))
    ensures |CidrToStr(ip, mask)| <= 18 && '.' in CidrToStr(ip, mask) && BlankFree(CidrToStr(ip, mask))
  {
    var len := LengthOf(mask);
    MaskIs(len);
    PrefixLenOfMask(len, 32);
    hide IpToStr, ParseCidr, Cidr, PrefixLen, MaskFromPrefix, Mask;
    if mask == ALL_ONES {
      HostRoundTrip(ip);
    } else {
      CidrRoundTrip(ip, len);
    }
  }

  // ---------------------------------------------------------------- one rule

  const KEYWORD_MAX := 63

  const ANY_RULE := Rule(Allow, 0, 0, 0, 0, PROTO_ANY, -1, -1, "")

  /** The strings a keyword argument stands for: one quote off each end, at most 63 characters. */
  function Unquoted(s: string): (k: string)
    ensures |k| <= KEYWORD_MAX
  {
    var t := if s != "" && s[0] == '"' then s[1..] else s;
    var u := if t != "" && t[|t| - 1] == '"' then t[..|t| - 1] else t;
    Clipped(u, KEYWORD_MAX + 1)
  }

  function Quoted(k: string): string {
    "\"" + k + "\""
  }

  function ProtoName(p: int): string {
    if p == PROTO_TCP then "tcp" else if p == PROTO_UDP then "udp" else "icmp"
  }

  predicate ProtoOk(p: int) {
    p == PROTO_ANY || p == PROTO_ICMP || p == PROTO_TCP || p == PROTO_UDP
  }

  function ProtoOf(s: string): (p: Option<int>)
    ensures p.Some? ==> ProtoOk(p.value)
  {
    if s == "tcp" then Some(PROTO_TCP)
    else if s == "udp" then Some(PROTO_UDP)
    else if s == "icmp" then Some(PROTO_ICMP)
    else if s == "any" then Some(PROTO_ANY)
    else None
  }

  function PortOf(s: string): (p: Option<int>)
    ensures p.Some? ==> 0 <= p.value <= 65535
  {
    if 0 <= Atoi(s) <= 65535 then Some(Atoi(s)) else None
  }

  /** A word that is taken for a second address. */
  predicate LooksLikeAddress(w: string) {
    '.' in w || '/' in w || w == "any"
  }

  function Masked(ip: Ip, mask: Ip): Ip {
    ip & mask
  }

  /** The source of an `ip` clause: a mask of 0 for `any`, whatever address was there before. */
  function WithSource(r: Rule, w: string): Option<Rule> {
    if w == "any" then Some(r.(sipMask := 0))
    else match ParseCidr(w)
      case None => None
      case Some(net) => Some(r.(sip := Masked(net.0, net.1), sipMask := net.1))
  }

  function WithDest(r: Rule, w: string): Option<Rule> {
    if w == "any" then Some(r.(dipMask := 0))
    else match ParseCidr(w)
      case None => None
      case Some(net) => Some(r.(dip := Masked(net.0, net.1), dipMask := net.1))
  }

  function IpClause(ws: seq<string>, r: Rule): (c: Option<(Rule, nat)>)
    requires |ws| >= 2
    ensures c.Some? ==> 2 <= c.value.1 <= |ws|
  {
    match WithSource(r, ws[1])
    case None => None
    case Some(r1) =>
      if |ws| > 2 && LooksLikeAddress(ws[2]) then
        match WithDest(r1, ws[2])
        case None => None
        case Some(r2) => Some((r2, 3))
      else Some((r1, 2))
  }

  function OtherClause(name: string, arg: string, r: Rule): Option<Rule> {
    if name == "proto" then match ProtoOf(arg) case None => None case Some(p) => Some(r.(proto := p))
    else if name == "sport" then match PortOf(arg) case None => None case Some(p) => Some(r.(sport := p))
    else if name == "dport" then match PortOf(arg) case None => None case Some(p) => Some(r.(dport := p))
    else if name == "keyword" then Some(r.(keyword := Unquoted(arg)))
    else None
  }

  /** One clause: the rule with it, and how many words it took. */
  function Clause(ws: seq<string>, r: Rule): (c: Option<(Rule, nat)>)
    requires ws != []
    ensures c.Some? ==> 2 <= c.value.1 <= |ws|
  {
    if |ws| < 2 then None
    else if ws[0] == "ip" then IpClause(ws, r)
    else match OtherClause(ws[0], ws[1], r) case None => None case Some(q) => Some((q, 2))
  }

  function Clauses(ws: seq<string>, r: Rule): Option<Rule> {
    if ws == [] then Some(r)
    else
      var c := Clause(ws, r);
      if c.None? then None else Clauses(ws[c.value.1..], c.value.0)
  }

  function ActionOf(s: string): Option<Action> {
    if s == "drop" then Some(Drop) else if s == "allow" then Some(Allow) else None
  }

  function Parsed(ws: seq<string>): Option<Rule> {
    if ws == [] || ActionOf(ws[0]).None? then None
    else Clauses(ws[1..], ANY_RULE.(action := ActionOf(ws[0]).value))
  }

  lemma ParsedFrom(ws: seq<string>, a: Action)
    requires ws != [] && ActionOf(ws[0]) == Some(a)
    ensures Parsed(ws) == Clauses(ws[1..], ANY_RULE.(action := a))
  {}

  lemma ClausesStep(ws: seq<string>, r: Rule)
    ensures Clauses(ws, r) == if ws == [] then Some(r) else var c := Clause(ws, r);
                                if c.None? then None else Clauses(ws[c.value.1..], c.value.0)
  {
    hide Clause;
  }

  /** fw_parse_rule. */
  method ParseRule(argv: seq<string>) returns (r: Option<Rule>)
    ensures r == Parsed(argv)
  {
    if |argv| < 1 {
      return None;
    }
    var rule := ANY_RULE;
    if argv[0] == "drop" {
      rule := rule.(action := Drop);
    } else if argv[0] == "allow" {
      rule := rule.(action := Allow);
    } else {
      return None;
    }
    assert ActionOf(argv[0]) == Some(rule.action);
    hide Clauses, Clause, Parsed, ActionOf;
    ParsedFrom(argv, rule.action);
    var i := 1;
    while i < |argv|
      invariant 1 <= i <= |argv| && Parsed(argv) == Clauses(argv[i..], rule)
    {
      ClausesStep(argv[i..], rule);
      var ok, next;
      ok, rule, next := ParseClause(argv, i, rule);
      if !ok {
        return None;
      }
      assert argv[i..][next - i..] == argv[next..];
      i := next;
    }
    ClausesStep(argv[i..], rule);
    return Some(rule);
  }

  /** The body of the token loop, which starts at a keyword of the language and ends past its arguments. */
  method ParseClause(argv: seq<string>, at: nat, r0: Rule) returns (ok: bool, r: Rule, next: int)
    requires at < |argv|
    ensures ok == Clause(argv[at..], r0).Some?
    ensures ok ==> at < next <= |argv| && Clause(argv[at..], r0) == Some((r, next - at))
  {
    hide ParseCidr, Atoi, LooksLikeAddress, Unquoted;
    var i, tok := at, argv[at];
    r := r0;
    if i + 1 >= |argv| {
      return false, r, i;
    }
    i := i + 1;
    if tok == "ip" {
      var src := WithSource(r, argv[i]);
      if src.None? {
        return false, r, i;
      }
      r := src.value;
      if i + 1 < |argv| && LooksLikeAddress(argv[i + 1]) {
        i := i + 1;
        var dst := WithDest(r, argv[i]);
        if dst.None? {
          return false, r, i;
        }
        r := dst.value;
      }
    } else if tok == "proto" {
      var p := ProtoOf(argv[i]);
      if p.None? {
        return false, r, i;
      }
      r := r.(proto := p.value);
    } else if tok == "sport" {
      var p := PortOf(argv[i]);
      if p.None? {
        return false, r, i;
      }
      r := r.(sport := p.value);
    } else if tok == "dport" {
      var p := PortOf(argv[i]);
      if p.None? {
        return false, r, i;
      }
      r := r.(dport := p.value);
    } else if tok == "keyword" {
      r := r.(keyword := Unquoted(argv[i]));
    } else {
      return false, r, i;
    }
    return true, r, i + 1;
  }

  // ---------------------------------------------------------------- what the parser makes

  predicate NetworkOk(ip: Ip, mask: Ip) {
    mask == 0 || Masked(ip, mask) == ip
  }

  ghost predicate RuleOk(r: Rule) {
    && IsMask(r.sipMask) && IsMask(r.dipMask) && NetworkOk(r.sip, r.sipMask) && NetworkOk(r.dip, r.dipMask)
    && ProtoOk(r.proto)
    && -1 <= r.sport <= 65535 && -1 <= r.dport <= 65535 && |r.keyword| <= KEYWORD_MAX
  }

  lemma PrefixMaskIsMask(len: int)
    requires 0 <= len <= 32
    ensures IsMask(MaskFromPrefix(len))
  {
    MaskIs(len);
  }

  lemma MaskedIsOk(ip: Ip, mask: Ip)
    ensures NetworkOk(Masked(ip, mask), mask)
  {}

  lemma ZeroIsMask()
    ensures IsMask(0)
  {
    assert Mask(0) == 0;
  }

  lemma CidrIsOk(s: string)
    ensures ParseCidr(s).Some? ==> IsMask(ParseCidr(s).value.1)
  {
    hide StrToIp, PrefixOf, Mask, MaskFromPrefix, IsMask;
    var b := Clipped(s, 64);
    var k := IndexOf(b, '/');
    PrefixMaskIsMask(32);
    if k < |b| && PrefixOf(b[k + 1..]).Some? {
      PrefixMaskIsMask(PrefixOf(b[k + 1..]).value);
    }
  }

  lemma SourceIsOk(r: Rule, w: string)
    requires RuleOk(r)
    ensures WithSource(r, w).Some? ==> RuleOk(WithSource(r, w).value)
    ensures WithDest(r, w).Some? ==> RuleOk(WithDest(r, w).value)
  {
    hide ParseCidr, IsMask, NetworkOk, Masked;
    ZeroIsMask();
    assert NetworkOk(r.sip, 0) && NetworkOk(r.dip, 0) by { AnyIsOk(r.sip); AnyIsOk(r.dip); }
    CidrIsOk(w);
    if ParseCidr(w).Some? {
      MaskedIsOk(ParseCidr(w).value.0, ParseCidr(w).value.1);
    }
  }

  lemma AnyIsOk(ip: Ip)
    ensures NetworkOk(ip, 0)
  {}

  lemma OtherIsOk(name: string, arg: string, r: Rule)
    requires RuleOk(r)
    ensures OtherClause(name, arg, r).Some? ==> RuleOk(OtherClause(name, arg, r).value)
  {
    hide ProtoOf, PortOf, ProtoOk, Unquoted, RuleOk;
    ReadProtoIsOk(arg);
    if OtherClause(name, arg, r).Some? {
      if name == "proto" {
        WithOk(r, ProtoOf(arg).value, r.sport, r.dport, r.keyword);
      } else if name == "sport" {
        WithOk(r, r.proto, PortOf(arg).value, r.dport, r.keyword);
      } else if name == "dport" {
        WithOk(r, r.proto, r.sport, PortOf(arg).value, r.keyword);
      } else {
        WithOk(r, r.proto, r.sport, r.dport, Unquoted(arg));
      }
    }
  }

  lemma ReadProtoIsOk(arg: string)
    ensures ProtoOf(arg).Some? ==> ProtoOk(ProtoOf(arg).value)
  {}

  lemma WithOk(r: Rule, proto: int, sport: int, dport: int, keyword: string)
    requires RuleOk(r) && (proto == r.proto || ProtoOk(proto)) && (sport == r.sport || 0 <= sport <= 65535)
    requires (dport == r.dport || 0 <= dport <= 65535) && (keyword == r.keyword || |keyword| <= KEYWORD_MAX)
    ensures RuleOk(r.(proto := proto, sport := sport, dport := dport, keyword := keyword))
  {
    hide ProtoOk, IsMask, NetworkOk;
  }

  lemma ClauseIsOk(ws: seq<string>, r: Rule)
    requires ws != [] && RuleOk(r)
    ensures Clause(ws, r).Some? ==> RuleOk(Clause(ws, r).value.0)
  {
    hide WithSource, WithDest, LooksLikeAddress, OtherClause, RuleOk;
    if |ws| >= 2 {
      OtherIsOk(ws[0], ws[1], r);
      SourceIsOk(r, ws[1]);
      if WithSource(r, ws[1]).Some? && |ws| > 2 {
        SourceIsOk(WithSource(r, ws[1]).value, ws[2]);
      }
    }
  }

  lemma {:induction false} ClausesAreOk(ws: seq<string>, r: Rule)
    requires RuleOk(r)
    ensures Clauses(ws, r).Some? ==> RuleOk(Clauses(ws, r).value)
  {
    hide Clause, RuleOk;
    if ws != [] {
      ClauseIsOk(ws, r);
      if Clause(ws, r).Some? {
        ClausesAreOk(ws[Clause(ws, r).value.1..], Clause(ws, r).value.0);
      }
    }
  }

  /** Every rule the parser accepts has contiguous masks, addresses inside them, real ports and a short keyword. */
  lemma ParsedIsOk(ws: seq<string>)
    ensures Parsed(ws).Some? ==> RuleOk(Parsed(ws).value)
  {
    hide Clauses;
    ZeroIsMask();
    if ws != [] && ActionOf(ws[0]).Some? {
      ClausesAreOk(ws[1..], ANY_RULE.(action := ActionOf(ws[0]).value));
    }
  }

  // ---------------------------------------------------------------- printing

  function ActionWord(a: Action): string {
    if a == Drop then "drop" else "allow"
  }

  function SourceWord(ip: Ip, mask: Ip): string {
    if mask != 0 then CidrToStr(ip, mask) else "any"
  }

  function DestWords(ip: Ip, mask: Ip): (ws: seq<string>)
    ensures |ws| <= 1
  {
    if mask != 0 then [CidrToStr(ip, mask)] else []
  }

  predicate NoAddress(sipMask: Ip, dipMask: Ip) {
    sipMask == 0 && dipMask == 0
  }

  function IpWords(sip: Ip, sipMask: Ip, dip: Ip, dipMask: Ip): seq<string> {
    if NoAddress(sipMask, dipMask) then [] else ["ip", SourceWord(sip, sipMask)] + DestWords(dip, dipMask)
  }

  function ProtoWords(p: int): seq<string> {
    if p != PROTO_ANY then ["proto", ProtoName(p)] else []
  }

  function PortWords(name: string, port: int): seq<string> {
    if port >= 0 then [name, Dec(port)] else []
  }

  function KeywordWords(k: string): seq<string> {
    if k != "" then ["keyword", Quoted(k)] else []
  }

  function TailWords(r: Rule): seq<string> {
    ProtoWords(r.proto) + (PortWords("sport", r.sport) + (PortWords("dport", r.dport) + KeywordWords(r.keyword)))
  }

  /** The words of a printed rule. */
  function RuleWords(r: Rule): seq<string> {
    [ActionWord(r.action)] + (IpWords(r.sip, r.sipMask, r.dip, r.dipMask) + TailWords(r))
  }

  function RuleLine(r: Rule): string {
    Line(RuleWords(r))
  }

  /** A line with more words behind it. */
  function Then(s: string, ws: seq<string>): string {
    if ws == [] then s else s + " " + Line(ws)
  }

  lemma ThenLine(a: seq<string>, b: seq<string>)
    requires a != []
    ensures Then(Line(a), b) == Line(a + b)
  {
    LineConcat(a, b);
    if b == [] {
      assert a + b == a;
    }
  }

  /** One optional snprintf of fw_rule_to_line: a space, the name of the clause and its argument. */
  method Print(buf: string, yes: bool, name: string, arg: string, ghost ws: seq<string>) returns (buf': string)
    requires ws != [] && buf == Line(ws)
    ensures buf' == Line(ws + if yes then [name, arg] else [])
  {
    buf' := if yes then buf + " " + name + " " + arg else buf;
    ThenLine(ws, if yes then [name, arg] else []);
    TwoWords(buf, name, arg);
  }

  lemma TwoWords(s: string, a: string, b: string)
    ensures Then(s, [a, b]) == s + " " + a + " " + b
  {
    assert Line([b]) == b && Line([a, b]) == a + " " + b;
    assert s + " " + (a + " " + b) == s + " " + a + " " + b;
  }

  /** fw_rule_to_line, in a buffer that is long enough. */
  method RuleToLine(r: Rule) returns (buf: string)
    ensures buf == RuleLine(r)
  {
    hide CidrToStr, Quoted, Dec, Line, Then, IpWords, ProtoName, ActionWord;
    ghost var w0 := [ActionWord(r.action)];
    LineOfOne(ActionWord(r.action));
    buf := ActionWord(r.action);
    buf := PrintIp(r, buf, w0);
    ghost var w1 := w0 + IpWords(r.sip, r.sipMask, r.dip, r.dipMask);
    buf := Print(buf, r.proto != PROTO_ANY, "proto", ProtoName(r.proto), w1);
    ghost var w2 := w1 + ProtoWords(r.proto);
    buf := Print(buf, r.sport >= 0, "sport", if r.sport >= 0 then Dec(r.sport) else "", w2);
    ghost var w3 := w2 + PortWords("sport", r.sport);
    buf := Print(buf, r.dport >= 0, "dport", if r.dport >= 0 then Dec(r.dport) else "", w3);
    ghost var w4 := w3 + PortWords("dport", r.dport);
    buf := Print(buf, r.keyword != "", "keyword", Quoted(r.keyword), w4);
    SixParts(w0, IpWords(r.sip, r.sipMask, r.dip, r.dipMask), ProtoWords(r.proto), PortWords("sport", r.sport),
             PortWords("dport", r.dport), KeywordWords(r.keyword));
  }

  lemma SixParts(a: seq<string>, b: seq<string>, c: seq<string>, d: seq<string>, e: seq<string>, f: seq<string>)
    ensures a + b + c + d + e + f == a + (b + (c + (d + (e + f))))
  {}

  lemma LineOfOne(w: string)
    ensures Line([w]) == w
  {}

  /** The ` ip ` clause of fw_rule_to_line. */
  method PrintIp(r: Rule, s: string, ghost ws: seq<string>) returns (buf: string)
    requires ws != [] && s == Line(ws)
    ensures buf == Line(ws + IpWords(r.sip, r.sipMask, r.dip, r.dipMask))
  {
    hide CidrToStr, Line, Then;
    buf := s;
    if r.sipMask == 0 && r.dipMask == 0 {
      assert ws + [] == ws;
      return;
    }
    var src := SourceWord(r.sip, r.sipMask);
    buf := Print(buf, true, "ip", src, ws);
    if r.dipMask != 0 {
      var dst := CidrToStr(r.dip, r.dipMask);
      buf := buf + " " + dst;
      OneMoreWord(ws + ["ip", src], dst);
      assert ws + (["ip", src] + [dst]) == ws + ["ip", src] + [dst];
    } else {
      assert ["ip", src] + [] == ["ip", src];
    }
  }

  lemma OneMoreWord(ws: seq<string>, w: string)
    requires ws != []
    ensures Line(ws + [w]) == Line(ws) + " " + w
  {
    LineConcat(ws, [w]);
  }

  // ---------------------------------------------------------------- printing and reading back

  /** Addresses behind a mask of 0 are not printed. */
  function Normal(r: Rule): Rule {
    r.(sip := if r.sipMask == 0 then 0 else r.sip, dip := if r.dipMask == 0 then 0 else r.dip)
  }

  lemma NormalMatches(r: Rule, f: seq<Byte>)
    ensures Matches(Normal(r), f) == Matches(r, f)
  {
    hide InNet, PortsOk, KeywordOk, HasIpHeader, Address;
    assert PortsSame(r, f);
  }

  /** Ports and keyword do not look at addresses. */
  predicate PortsSame(r: Rule, f: seq<Byte>)
    ensures PortsSame(r, f)
  {
    HasIpHeader(f) ==> PortsOk(Normal(r), f) == PortsOk(r, f) && KeywordOk(Normal(r), f) == KeywordOk(r, f)
  }

  /** The words behind an address list do not look like another address. */
  predicate StartsClause(ws: seq<string>) {
    ws == [] || ws[0] == "proto" || ws[0] == "sport" || ws[0] == "dport" || ws[0] == "keyword"
  }

  lemma ClauseIsNoAddress(ws: seq<string>)
    requires StartsClause(ws)
    ensures ws != [] ==> !LooksLikeAddress(ws[0])
  {}

  lemma IpReads(sip: Ip, sipMask: Ip, dip: Ip, dipMask: Ip, rest: seq<string>, r: Rule)
    requires IsMask(sipMask) && IsMask(dipMask) && NetworkOk(sip, sipMask) && NetworkOk(dip, dipMask)
    requires r.sip == r.sipMask == r.dip == r.dipMask == 0 && StartsClause(rest)
    ensures Clauses(IpWords(sip, sipMask, dip, dipMask) + rest, r) ==
            Clauses(rest, Normal(r.(sip := sip, sipMask := sipMask, dip := dip, dipMask := dipMask)))
  {
    var ws := IpWords(sip, sipMask, dip, dipMask);
    if NoAddress(sipMask, dipMask) {
      assert ws + rest == rest;
    } else {
      var r1 := r.(sip := if sipMask == 0 then 0 else sip, sipMask := sipMask);
      SourceReads(r, sip, sipMask);
      DestReads(r1, dip, dipMask);
      ClauseIsNoAddress(rest);
      var r2 := Normal(r.(sip := sip, sipMask := sipMask, dip := dip, dipMask := dipMask));
      assert r2 == r1.(dip := if dipMask == 0 then 0 else dip, dipMask := dipMask);
      AddressesRead(SourceWord(sip, sipMask), DestWords(dip, dipMask), rest, r, r1, r2);
    }
  }

  lemma AddressesRead(src: string, dst: seq<string>, rest: seq<string>, r: Rule, r1: Rule, r2: Rule)
    requires WithSource(r, src) == Some(r1) && |dst| <= 1
    requires if dst == [] then r2 == r1 else LooksLikeAddress(dst[0]) && WithDest(r1, dst[0]) == Some(r2)
    requires rest != [] ==> !LooksLikeAddress(rest[0])
    ensures Clauses(["ip", src] + dst + rest, r) == Clauses(rest, r2)
  {
    hide WithSource, WithDest, LooksLikeAddress;
    var ws := ["ip", src] + dst + rest;
    assert ws[0] == "ip" && ws[1] == src;
    if dst != [] {
      assert ws[2] == dst[0] && ws[3..] == rest;
    } else {
      assert ws[2..] == rest;
    }
  }

  lemma SourceReads(r: Rule, ip: Ip, mask: Ip)
    requires IsMask(mask) && NetworkOk(ip, mask) && r.sip == 0
    ensures WithSource(r, SourceWord(ip, mask)) == Some(r.(sip := if mask == 0 then 0 else ip, sipMask := mask))
  {
    hide ParseCidr, CidrToStr, Masked, IsMask;
    if mask != 0 {
      NetworkRoundTrip(ip, mask);
      assert '.' !in "any";
    }
  }

  lemma DestReads(r: Rule, ip: Ip, mask: Ip)
    requires IsMask(mask) && NetworkOk(ip, mask) && r.dip == r.dipMask == 0
    ensures var dst := DestWords(ip, mask);
            var q := r.(dip := if mask == 0 then 0 else ip, dipMask := mask);
            if dst == [] then q == r else LooksLikeAddress(dst[0]) && WithDest(r, dst[0]) == Some(q)
  {
    hide ParseCidr, CidrToStr, Masked, IsMask;
    if mask != 0 {
      NetworkRoundTrip(ip, mask);
      assert '.' !in "any";
    }
  }

  lemma PairReads(name: string, arg: string, rest: seq<string>, r: Rule)
    requires name != "ip" && OtherClause(name, arg, r).Some?
    ensures Clauses([name, arg] + rest, r) == Clauses(rest, OtherClause(name, arg, r).value)
  {
    hide OtherClause;
    var ws := [name, arg] + rest;
    assert ws[0] == name && ws[1] == arg && ws[2..] == rest;
  }

  lemma ProtoReads(p: int, rest: seq<string>, r: Rule)
    requires ProtoOk(p) && r.proto == PROTO_ANY
    ensures Clauses(ProtoWords(p) + rest, r) == Clauses(rest, r.(proto := p))
  {
    if p == PROTO_ANY {
      assert [] + rest == rest;
    } else {
      assert ProtoOf(ProtoName(p)) == Some(p);
      PairReads("proto", ProtoName(p), rest, r);
    }
  }

  lemma PortReads(port: int)
    requires 0 <= port <= 65535
    ensures PortOf(Dec(port)) == Some(port)
  {
    AtoiOfDec(port);
    hide Dec;
  }

  lemma SportReads(port: int, rest: seq<string>, r: Rule)
    requires -1 <= port <= 65535 && r.sport == -1
    ensures Clauses(PortWords("sport", port) + rest, r) == Clauses(rest, r.(sport := port))
  {
    hide Dec, PortOf;
    if port < 0 {
      assert [] + rest == rest;
    } else {
      PortReads(port);
      PairReads("sport", Dec(port), rest, r);
    }
  }

  lemma DportReads(port: int, rest: seq<string>, r: Rule)
    requires -1 <= port <= 65535 && r.dport == -1
    ensures Clauses(PortWords("dport", port) + rest, r) == Clauses(rest, r.(dport := port))
  {
    hide Dec, PortOf;
    if port < 0 {
      assert [] + rest == rest;
    } else {
      PortReads(port);
      PairReads("dport", Dec(port), rest, r);
    }
  }

  lemma UnquotedQuoted(k: string)
    requires |k| <= KEYWORD_MAX
    ensures Unquoted(Quoted(k)) == k
  {
    var q := Quoted(k);
    assert q[0] == '"' && q[1..] == k + "\"" && (k + "\"")[..|k|] == k;
  }

  lemma KeywordReads(k: string, r: Rule)
    requires |k| <= KEYWORD_MAX && r.keyword == ""
    ensures Clauses(KeywordWords(k), r) == Some(r.(keyword := k))
  {
    if k != "" {
      UnquotedQuoted(k);
      hide Unquoted, Quoted;
      PairReads("keyword", Quoted(k), [], r);
      assert ["keyword", Quoted(k)] + [] == ["keyword", Quoted(k)];
    }
  }

  lemma TailReads(t: Rule, r: Rule)
    requires RuleOk(t) && r.proto == PROTO_ANY && r.sport == r.dport == -1 && r.keyword == ""
    ensures Clauses(TailWords(t), r) == Some(r.(proto := t.proto, sport := t.sport, dport := t.dport, keyword := t.keyword))
    ensures StartsClause(TailWords(t))
  {
    var k := KeywordWords(t.keyword);
    var d := PortWords("dport", t.dport) + k;
    var q := PortWords("sport", t.sport) + d;
    TailStarts(t);
    hide Clauses, IsMask, NetworkOk;
    ProtoReads(t.proto, q, r);
    SportReads(t.sport, d, r.(proto := t.proto));
    DportReads(t.dport, k, r.(proto := t.proto, sport := t.sport));
    KeywordReads(t.keyword, r.(proto := t.proto, sport := t.sport, dport := t.dport));
  }

  lemma TailStarts(t: Rule)
    ensures StartsClause(TailWords(t))
  {
    hide Dec, ProtoName, Quoted;
  }

  lemma RuleReads(r: Rule)
    requires RuleOk(r)
    ensures Parsed(RuleWords(r)) == Some(Normal(r))
  {
    var a := ANY_RULE.(action := r.action);
    var b := a.(sip := r.sip, sipMask := r.sipMask, dip := r.dip, dipMask := r.dipMask);
    var ws := RuleWords(r);
    assert ActionOf(ActionWord(r.action)) == Some(r.action);
    assert ws[1..] == IpWords(r.sip, r.sipMask, r.dip, r.dipMask) + TailWords(r);
    TailReads(r, Normal(b));
    IpReads(r.sip, r.sipMask, r.dip, r.dipMask, TailWords(r), a);
    hide Clauses, IpWords, TailWords, IsMask, NetworkOk;
  }

  // ---------------------------------------------------------------- on one line

  function Size(ws: seq<string>): nat {
    if ws == [] then 0 else |ws[0]| + 1 + Size(ws[1..])
  }

  lemma {:induction false} LineSize(ws: seq<string>)
    ensures |Line(ws)| + (if ws == [] then 0 else 1) == Size(ws)
  {
    if ws != [] {
      LineSize(ws[1..]);
    }
  }

  lemma {:induction false} SizeConcat(a: seq<string>, b: seq<string>)
    ensures Size(a + b) == Size(a) + Size(b)
  {
    if a == [] {
      assert a + b == b;
    } else {
      assert (a + b)[1..] == a[1..] + b;
      SizeConcat(a[1..], b);
    }
  }

  predicate NoNewline(s: string) {
    forall i :: 0 <= i < |s| ==> s[i] != '\n'
  }

  lemma {:induction false} LineHasNoNewline(ws: seq<string>)
    requires AreWords(ws)
    ensures NoNewline(Line(ws))
  {
    if ws != [] {
      LineHasNoNewline(ws[1..]);
      assert BlankFree(ws[0]);
      assert forall i :: 0 <= i < |ws[0]| ==> !Blank(ws[0][i]);
    }
  }

  /** Words, at most n of them, with at most k characters, spaces included. */
  predicate Fit(ws: seq<string>, n: nat, k: nat) {
    AreWords(ws) && |ws| <= n && Size(ws) <= k
  }

  lemma FitConcat(a: seq<string>, n: nat, k: nat, b: seq<string>, m: nat, l: nat)
    requires Fit(a, n, k) && Fit(b, m, l)
    ensures Fit(a + b, n + m, k + l)
  {
    SizeConcat(a, b);
  }

  lemma WordFits(w: string, k: nat)
    requires w != "" && BlankFree(w) && |w| < k
    ensures Fit([w], 1, k)
  {
    assert [w][1..] == [];
    assert Size([w]) == |w| + 1;
  }

  lemma PairFits(a: string, b: string, k: nat)
    requires AreWords([a, b]) && |a| + |b| + 2 <= k
    ensures Fit([a, b], 2, k)
  {
    assert [a, b][0] == a && [a, b][1] == b;
    WordFits(a, |a| + 1);
    WordFits(b, k - |a| - 1);
    assert [a] + [b] == [a, b];
    FitConcat([a], 1, |a| + 1, [b], 1, k - |a| - 1);
  }

  lemma IpFits(sip: Ip, sipMask: Ip, dip: Ip, dipMask: Ip)
    requires IsMask(sipMask) && IsMask(dipMask)
    ensures Fit(IpWords(sip, sipMask, dip, dipMask), 3, 41)
  {
    AddressesFit(sip, sipMask);
    AddressesFit(dip, dipMask);
    hide SourceWord, DestWords, NoAddress, Fit, IsMask;
    if NoAddress(sipMask, dipMask) {
      NothingFits();
    } else {
      PairFits("ip", SourceWord(sip, sipMask), 22);
      DestFits(DestWords(dip, dipMask));
      FitConcat(["ip", SourceWord(sip, sipMask)], 2, 22, DestWords(dip, dipMask), 1, 19);
    }
  }

  predicate ShortWord(w: string, k: nat) {
    w != "" && BlankFree(w) && |w| <= k
  }

  lemma AddressesFit(ip: Ip, mask: Ip)
    requires IsMask(mask)
    ensures ShortWord(SourceWord(ip, mask), 18)
    ensures forall i :: 0 <= i < |DestWords(ip, mask)| ==> ShortWord(DestWords(ip, mask)[i], 18)
  {
    AddressFits(ip, mask);
    assert ShortWord("any", 18);
    hide CidrToStr, ParseCidr, IsMask, ShortWord;
  }

  lemma AddressFits(ip: Ip, mask: Ip)
    requires IsMask(mask)
    ensures ShortWord(CidrToStr(ip, mask), 18)
  {
    NetworkRoundTrip(ip, mask);
    hide CidrToStr, ParseCidr, IsMask;
  }

  lemma NothingFits()
    ensures Fit([], 3, 41)
  {}

  lemma DestFits(dst: seq<string>)
    requires |dst| <= 1 && forall i :: 0 <= i < |dst| ==> ShortWord(dst[i], 18)
    ensures Fit(dst, 1, 19)
  {
    if dst != [] {
      WordFits(dst[0], 19);
      assert dst == [dst[0]];
    }
  }

  lemma PortFits(name: string, port: int)
    requires name == "sport" || name == "dport"
    requires -1 <= port <= 65535
    ensures Fit(PortWords(name, port), 2, 12)
  {
    if port >= 0 {
      assert Pow10(5) == 100000;
      DecLen(port, 5);
      hide Dec;
      DigitsAreWord(Dec(port));
      PairFits(name, Dec(port), 12);
    }
  }

  lemma DigitsAreWord(s: string)
    requires s != "" && AllDigits(s)
    ensures AreWords([s])
  {
    assert forall i :: 0 <= i < |s| ==> Digit(s[i]);
  }

  lemma TailFits(r: Rule)
    requires RuleOk(r) && BlankFree(r.keyword)
    ensures Fit(TailWords(r), 8, 109)
  {
    var k := KeywordWords(r.keyword);
    var d, q := PortWords("dport", r.dport), PortWords("sport", r.sport);
    PortFits("sport", r.sport);
    PortFits("dport", r.dport);
    KeywordFits(r.keyword);
    ProtoFits(r.proto);
    hide PortWords, KeywordWords, ProtoWords, Fit;
    FitConcat(d, 2, 12, k, 2, 74);
    FitConcat(q, 2, 12, d + k, 4, 86);
    FitConcat(ProtoWords(r.proto), 2, 11, q + (d + k), 6, 98);
  }

  lemma ProtoFits(p: int)
    ensures Fit(ProtoWords(p), 2, 11)
  {
    if p != PROTO_ANY {
      PairFits("proto", ProtoName(p), 11);
    }
  }

  lemma KeywordFits(k: string)
    requires BlankFree(k) && |k| <= KEYWORD_MAX
    ensures Fit(KeywordWords(k), 2, 74)
  {
    if k != "" {
      assert forall i :: 1 <= i <= |k| ==> Quoted(k)[i] == k[i - 1];
      PairFits("keyword", Quoted(k), 74);
    }
  }

  /** A printed rule is at most 12 words and 155 characters: the 256 bytes of the code are enough. */
  lemma RuleFits(r: Rule)
    requires RuleOk(r) && BlankFree(r.keyword)
    ensures AreWords(RuleWords(r)) && |RuleWords(r)| <= 12 && |RuleLine(r)| <= 155 && NoNewline(RuleLine(r))
  {
    var a, b, c := [ActionWord(r.action)], IpWords(r.sip, r.sipMask, r.dip, r.dipMask), TailWords(r);
    IpFits(r.sip, r.sipMask, r.dip, r.dipMask);
    TailFits(r);
    WordFits(ActionWord(r.action), 6);
    hide IpWords, TailWords;
    FitConcat(b, 3, 41, c, 8, 109);
    FitConcat(a, 1, 6, b + c, 11, 150);
    LineSize(RuleWords(r));
    LineHasNoNewline(RuleWords(r));
  }

  /** With a blank in the keyword the words are not words, but the line is as short. */
  lemma RuleLineFits(r: Rule)
    requires RuleOk(r) && NoNewline(r.keyword)
    ensures |RuleLine(r)| <= 155 && NoNewline(RuleLine(r))
  {
    hide RuleWords, RuleOk, Fit;
    if r.keyword == "" {
      RuleFits(r);
    } else {
      BareRule(r);
      var head := RuleWords(r.(keyword := ""));
      FitIsShort(head, 10, 82);
      OneMoreWord(head, "keyword");
      OneMoreWord(head + ["keyword"], Quoted(r.keyword));
      assert head + ["keyword", Quoted(r.keyword)] == head + ["keyword"] + [Quoted(r.keyword)];
      assert NoNewline("keyword") && NoNewline(" ");
    }
  }

  lemma {:induction false} LineEnds(ws: seq<string>)
    requires ws != [] && ws[|ws| - 1] != ""
    ensures var w, l := ws[|ws| - 1], Line(ws); l != "" && l[|l| - 1] == w[|w| - 1]
  {
    if |ws| > 1 {
      LineEnds(ws[1..]);
    }
  }

  /** A printed rule does not end in a blank, whatever its keyword. */
  lemma RuleLineEnds(r: Rule)
    requires RuleOk(r)
    ensures RuleLine(r) != "" && !Blank(RuleLine(r)[|RuleLine(r)| - 1])
  {
    var ws := RuleWords(r);
    if r.keyword == "" {
      RuleFits(r);
      assert ws[|ws| - 1] != "" && BlankFree(ws[|ws| - 1]);
    } else {
      BareRule(r);
      assert ws[|ws| - 1] == Quoted(r.keyword);
    }
    hide RuleWords, RuleOk;
    LineEnds(ws);
  }

  // ---------------------------------------------------------------- no NUL

  predicate NulFree(ws: seq<string>) {
    forall i :: 0 <= i < |ws| ==> NUL !in ws[i]
  }

  lemma {:induction false} LineNulFree(ws: seq<string>)
    requires NulFree(ws)
    ensures NUL !in Line(ws)
  {
    if |ws| > 1 {
      LineNulFree(ws[1..]);
    }
  }

  lemma DigitsNulFree(n: nat)
    ensures NUL !in Dec(n)
  {
    var d := Dec(n);
    assert forall i :: 0 <= i < |d| ==> Digit(d[i]);
    hide Dec;
  }

  lemma CidrNulFree(ip: Ip, mask: Ip)
    ensures NUL !in IpToStr(ip) && NUL !in CidrToStr(ip, mask)
  {
    IpIsDotted(ip);
    var len := PrefixLen(mask, 32);
    DigitsNulFree(if len < 0 then -len else len);
    hide IpToStr, Dec, PrefixLen;
    var a := IpToStr(ip);
    assert forall i :: 0 <= i < |a| ==> Digit(a[i]) || a[i] == '.';
  }

  lemma IpNulFree(sip: Ip, sipMask: Ip, dip: Ip, dipMask: Ip)
    ensures NulFree(IpWords(sip, sipMask, dip, dipMask))
  {
    CidrNulFree(sip, sipMask);
    CidrNulFree(dip, dipMask);
    hide CidrToStr, IpToStr;
  }

  lemma PortNulFree(name: string, port: int)
    requires NUL !in name
    ensures NulFree(PortWords(name, port))
  {
    if port >= 0 { DigitsNulFree(port); }
    hide Dec;
  }

  lemma OthersNulFree(r: Rule)
    requires NUL !in r.keyword
    ensures NulFree(ProtoWords(r.proto)) && NulFree(KeywordWords(r.keyword)) && NUL !in ActionWord(r.action)
  {}

  lemma JoinNulFree(a: seq<string>, b: seq<string>)
    requires NulFree(a) && NulFree(b)
    ensures NulFree(a + b)
  {}

  /** A printed rule is a C string if its keyword is one. */
  lemma RuleLineNulFree(r: Rule)
    requires NUL !in r.keyword
    ensures NUL !in RuleLine(r)
  {
    IpNulFree(r.sip, r.sipMask, r.dip, r.dipMask);
    PortNulFree("sport", r.sport);
    PortNulFree("dport", r.dport);
    OthersNulFree(r);
    var b, c, d, e, f := IpWords(r.sip, r.sipMask, r.dip, r.dipMask), ProtoWords(r.proto), PortWords("sport", r.sport),
      PortWords("dport", r.dport), KeywordWords(r.keyword);
    assert NulFree([ActionWord(r.action)]);
    hide IpWords, ProtoWords, PortWords, KeywordWords, NulFree, ActionWord;
    JoinNulFree(e, f);
    JoinNulFree(d, e + f);
    JoinNulFree(c, d + (e + f));
    JoinNulFree(b, c + (d + (e + f)));
    JoinNulFree([ActionWord(r.action)], b + (c + (d + (e + f))));
    LineNulFree(RuleWords(r));
  }

  /** Two addresses, a protocol, two ports of five digits and a keyword of 63 characters make a long line. */
  predicate IsLong(r: Rule) {
    r.sipMask != 0 && r.dipMask != 0 && r.proto != PROTO_ANY && r.sport >= 10000 && r.dport >= 10000 && |r.keyword| == KEYWORD_MAX
  }

  lemma LongLine(r: Rule)
    requires IsLong(r)
    ensures |RuleLine(r)| >= 131
  {
    hide CidrToStr, ProtoName, Quoted, Dec, IpWords, ProtoWords, PortWords, KeywordWords, Size, ActionWord;
    var a, b := [ActionWord(r.action)], IpWords(r.sip, r.sipMask, r.dip, r.dipMask);
    var c, d, e, f := ProtoWords(r.proto), PortWords("sport", r.sport), PortWords("dport", r.dport), KeywordWords(r.keyword);
    LongParts(r);
    SizeConcat(e, f);
    SizeConcat(d, e + f);
    SizeConcat(c, d + (e + f));
    SizeConcat(b, c + (d + (e + f)));
    SizeConcat(a, b + (c + (d + (e + f))));
    LineSize(RuleWords(r));
  }

  lemma LongParts(r: Rule)
    requires IsLong(r)
    ensures Size([ActionWord(r.action)]) >= 5 && Size(IpWords(r.sip, r.sipMask, r.dip, r.dipMask)) >= 19
    ensures Size(ProtoWords(r.proto)) >= 10 && Size(KeywordWords(r.keyword)) >= 74
    ensures Size(PortWords("sport", r.sport)) >= 12 && Size(PortWords("dport", r.dport)) >= 12
  {
    hide CidrToStr, Dec, Size, Quoted;
    LongAddress(r.sip, r.sipMask);
    LongAddress(r.dip, r.dipMask);
    assert Pow10(4) == 10000;
    DecAtLeast(r.sport, 4);
    DecAtLeast(r.dport, 4);
    SizeOfOne(ActionWord(r.action));
    SizeOfTwo("ip", CidrToStr(r.sip, r.sipMask));
    SizeOfOne(CidrToStr(r.dip, r.dipMask));
    SizeConcat(["ip", CidrToStr(r.sip, r.sipMask)], [CidrToStr(r.dip, r.dipMask)]);
    SizeOfTwo("proto", ProtoName(r.proto));
    SizeOfTwo("sport", Dec(r.sport));
    SizeOfTwo("dport", Dec(r.dport));
    SizeOfTwo("keyword", Quoted(r.keyword));
    assert |Quoted(r.keyword)| == KEYWORD_MAX + 2 by { QuotedSize(r.keyword); }
  }

  lemma QuotedSize(k: string)
    ensures |Quoted(k)| == |k| + 2
  {}

  lemma SizeOfOne(a: string)
    ensures Size([a]) == |a| + 1
  {
    assert [a][1..] == [];
  }

  lemma SizeOfTwo(a: string, b: string)
    ensures Size([a, b]) == |a| + |b| + 2
  {
    assert [a, b][1..] == [b];
    SizeOfOne(b);
  }

  lemma LongAddress(ip: Ip, mask: Ip)
    ensures |CidrToStr(ip, mask)| >= 7
  {
    hide ToBytes32, Dec, DecInt, PrefixLen;
    assert |IpToStr(ip)| >= 7;
  }

  lemma {:induction false} DecAtLeast(n: nat, k: nat)
    requires n >= Pow10(k)
    ensures |Dec(n)| >= k + 1
    decreases k
  {
    if k > 0 {
      assert n >= 10 by { TenPowers(k); }
      assert n / 10 >= Pow10(k - 1);
      DecAtLeast(n / 10, k - 1);
    }
  }

  lemma TenPowers(k: nat)
    requires k > 0
    ensures Pow10(k) >= 10
  {
    if k > 1 { TenPowers(k - 1); }
  }

  lemma FitIsShort(ws: seq<string>, n: nat, k: nat)
    requires Fit(ws, n, k) && ws != []
    ensures |Line(ws)| < k && NoNewline(Line(ws))
  {
    LineSize(ws);
    LineHasNoNewline(ws);
  }

  /** A rule without its keyword clause. */
  lemma BareRule(r: Rule)
    requires RuleOk(r)
    ensures var head := RuleWords(r.(keyword := ""));
            && Fit(head, 10, 82) && head != [] && |r.keyword| <= KEYWORD_MAX
            && (r.keyword != "" ==> RuleWords(r) == head + ["keyword", Quoted(r.keyword)])
  {
    hide IpWords, ProtoWords, PortWords, IsMask, NetworkOk, ProtoOk, Fit;
    var a, b := [ActionWord(r.action)], IpWords(r.sip, r.sipMask, r.dip, r.dipMask);
    var c, d, e := ProtoWords(r.proto), PortWords("sport", r.sport), PortWords("dport", r.dport);
    WordFits(ActionWord(r.action), 6);
    IpFits(r.sip, r.sipMask, r.dip, r.dipMask);
    ProtoFits(r.proto);
    PortFits("sport", r.sport);
    PortFits("dport", r.dport);
    FitConcat(a, 1, 6, b, 3, 41);
    FitConcat(a + b, 4, 47, c, 2, 11);
    FitConcat(a + b + c, 6, 58, d, 2, 12);
    FitConcat(a + b + c + d, 8, 70, e, 2, 12);
    SixParts(a, b, c, d, e, KeywordWords(r.keyword));
    SixParts(a, b, c, d, e, []);
    var head := a + b + c + d + e;
    assert head + [] == head && |head| >= |a|;
    assert RuleWords(r.(keyword := "")) == head;
  }

  /** The words of a line of the configuration: the 16th is all the rest. */
  function FileArgv(line: string): seq<string> {
    Words(line, 16)
  }

  lemma FileArgvOfLine(ws: seq<string>)
    requires AreWords(ws) && |ws| <= 16
    ensures FileArgv(Line(ws)) == ws
  {
    WordsOfLine(ws, 16);
  }

  /**
   Every rule the parser accepts, unless its keyword has a blank in it, is printed as a line that is split
   and parsed again into a rule with the same action for exactly the same frames.
   */
  lemma RuleRoundTrip(ws: seq<string>)
    requires Parsed(ws).Some? && BlankFree(Parsed(ws).value.keyword)
    ensures var r := Parsed(ws).value;
            var again := Parsed(FileArgv(RuleLine(r)));
            again.Some? && again.value.action == r.action && forall f :: Matches(again.value, f) == Matches(r, f)
  {
    hide Parsed, Matches, RuleOk, FileArgv, RuleWords;
    var r := Parsed(ws).value;
    ParsedIsOk(ws);
    RuleReads(r);
    RuleFits(r);
    FileArgvOfLine(RuleWords(r));
    forall f ensures Matches(Normal(r), f) == Matches(r, f) {
      NormalMatches(r, f);
    }
  }

  // ---------------------------------------------------------------- keywords with blanks

  lemma FirstWord(w: string, u: string, max: nat)
    requires w != "" && BlankFree(w) && max > 1
    ensures Words(w + " " + u, max) == [w] + Words(u, max - 1)
  {
    hide Words, WordLen, Trimmed, BlankFree;
    assert w + (" " + u) == w + " " + u;
    WordThenBlank(w, " " + u);
    FirstOfWords(w + " " + u, w, " " + u, max);
    BlankInFront(u, max - 1);
  }

  function LineAnd(ws: seq<string>, t: string): string {
    if ws == [] then t else Line(ws) + " " + t
  }

  lemma LineAndSplits(ws: seq<string>, t: string)
    ensures LineAnd(ws, t) == if ws == [] then t else ws[0] + " " + LineAnd(ws[1..], t)
  {
    if |ws| == 1 {
      assert ws[1..] == [];
    } else if |ws| > 1 {
      var w, l := ws[0], Line(ws[1..]);
      assert (w + " " + l) + " " + t == w + " " + (l + " " + t);
    }
  }

  lemma ConsConcat(w: string, rest: seq<string>, more: seq<string>, ws: seq<string>)
    requires ws == [w] + rest
    ensures [w] + (rest + more) == ws + more
  {}

  /** Splitting a line of words with something behind them. */
  lemma {:induction false} WordsOfLineAnd(ws: seq<string>, t: string, max: nat)
    requires AreWords(ws) && |ws| < max
    ensures Words(LineAnd(ws, t), max) == ws + Words(t, max - |ws|)
  {
    hide Words, LineAnd, AreWords, BlankFree;
    LineAndSplits(ws, t);
    if ws == [] {
      assert [] + Words(t, max) == Words(t, max);
    } else {
      var w, rest := ws[0], ws[1..];
      HeadAndRest(ws);
      WordsOfLineAnd(rest, t, max - 1);
      FirstWord(w, LineAnd(rest, t), max);
      ConsConcat(w, rest, Words(t, max - |ws|), ws);
    }
  }

  lemma HeadAndRest(ws: seq<string>)
    requires AreWords(ws) && ws != []
    ensures ws[0] != "" && BlankFree(ws[0]) && AreWords(ws[1..]) && ws == [ws[0]] + ws[1..]
  {
    hide BlankFree;
  }

  /** Every word is cut out of the string; one with blanks in it runs to the end of the string. */
  lemma {:induction false} WordsAreParts(s: string, max: nat, i: nat)
    requires i < |Words(s, max)|
    ensures |Words(s, max)[i]| <= |s|
    ensures !BlankFree(Words(s, max)[i]) ==> Words(s, max)[i][|Words(s, max)[i]| - 1] == s[|s| - 1]
    decreases max
  {
    var t := Trimmed(s);
    TrimmedIsTail(s);
    if max > 1 && i > 0 {
      WordsAreParts(t[WordLen(t)..], max - 1, i - 1);
    }
  }

  lemma {:induction false} TrimmedIsTail(s: string)
    ensures |Trimmed(s)| <= |s| && Trimmed(s) == s[|s| - |Trimmed(s)|..]
    ensures s != "" && Blank(s[0]) ==> |Trimmed(s)| < |s|
  {
    if s != "" && Blank(s[0]) {
      TrimmedIsTail(s[1..]);
    }
  }

  lemma {:induction false} KeywordIsFromWords(ws: seq<string>, r: Rule)
    requires Clauses(ws, r).Some?
    ensures var k := Clauses(ws, r).value.keyword; k == r.keyword || exists i :: 0 <= i < |ws| && k == Unquoted(ws[i])
    decreases |ws|
  {
    if ws != [] {
      var (q, n) := Clause(ws, r).value;
      ClauseKeyword(ws, r);
      hide Clause, Unquoted;
      KeywordIsFromWords(ws[n..], q);
      var k := Clauses(ws, r).value.keyword;
      if k != q.keyword {
        var i :| 0 <= i < |ws[n..]| && k == Unquoted(ws[n..][i]);
        assert ws[n..][i] == ws[n + i];
      }
    }
  }

  lemma ClauseKeyword(ws: seq<string>, r: Rule)
    requires ws != [] && Clause(ws, r).Some?
    ensures var k := Clause(ws, r).value.0.keyword; k == r.keyword || (|ws| > 1 && k == Unquoted(ws[1]))
  {
    hide ParseCidr, LooksLikeAddress, PortOf, ProtoOf, Unquoted;
  }

  lemma UnquotedIsPart(s: string)
    ensures |Unquoted(s)| <= |s| && (BlankFree(s) ==> BlankFree(Unquoted(s)))
    ensures s != "" && s[|s| - 1] == '"' ==> |Unquoted(s)| < |s|
  {}

  /** No word of the printed rule spells a keyword that has a blank. */
  lemma BlankKeywordIsLost(k: string, m: nat, i: nat)
    requires !BlankFree(k) && m > 1 && i < |Words(Quoted(k), m)|
    ensures Unquoted(Words(Quoted(k), m)[i]) != k
  {
    hide Words, Unquoted;
    var q := Quoted(k);
    var w := Words(q, m)[i];
    UnquotedIsPart(w);
    assert q[0] == '"' && q[|q| - 1] == '"';
    if !BlankFree(w) {
      LaterWord(q, m, i);
    }
  }

  /** A word with blanks in it is the rest of the string behind a first word and a blank. */
  lemma LaterWord(q: string, m: nat, i: nat)
    requires 0 < i < |Words(q, m)| && q != "" && !Blank(q[0]) && !BlankFree(Words(q, m)[i])
    ensures |Words(q, m)[i]| + 1 < |q| && Words(q, m)[i][|Words(q, m)[i]| - 1] == q[|q| - 1]
  {
    var n := WordLen(q);
    assert n >= 1;
    var rest := q[n..];
    assert Words(q, m)[i] == Words(rest, m - 1)[i - 1];
    WordsAreParts(rest, m - 1, i - 1);
    TailIsShorter(rest, m - 1, i - 1);
  }

  lemma TailIsShorter(s: string, max: nat, i: nat)
    requires i < |Words(s, max)| && s != "" && Blank(s[0])
    ensures |Words(s, max)[i]| < |s|
  {
    TrimmedIsTail(s);
    var t := Trimmed(s);
    assert Trimmed(t) == t;
    assert Words(t, max) == Words(s, max);
    WordsAreParts(t, max, i);
  }

  lemma BlankFreeHead(r: Rule)
    requires RuleOk(r)
    ensures RuleOk(r.(keyword := "")) && |RuleWords(r.(keyword := ""))| <= 10
    ensures AreWords(RuleWords(r.(keyword := "")))
    ensures r.keyword != "" ==> RuleWords(r) == RuleWords(r.(keyword := "")) + ["keyword", Quoted(r.keyword)]
  {
    BareRule(r);
    hide RuleWords;
  }

  /** What a printed rule with a blank in its keyword is split into. */
  lemma BlankKeywordSplits(r: Rule, head: seq<string>)
    requires RuleOk(r) && r.keyword != "" && head == RuleWords(r.(keyword := "")) + ["keyword"]
    ensures |head| <= 11 && AreWords(head) && FileArgv(RuleLine(r)) == head + Words(Quoted(r.keyword), 16 - |head|)
  {
    hide RuleWords, RuleOk, Quoted, Words, Line, AreWords;
    BlankFreeHead(r);
    var q := Quoted(r.keyword);
    assert RuleWords(r) == head + [q];
    OneMoreWord(head, q);
    HeadIsWords(RuleWords(r.(keyword := "")));
    WordsOfLineAnd(head, q, 16);
  }

  lemma HeadIsWords(ws: seq<string>)
    requires AreWords(ws)
    ensures AreWords(ws + ["keyword"])
  {}

  lemma NoWordSpells(head: seq<string>, k: string, m: nat)
    requires AreWords(head) && m > 1 && !BlankFree(k)
    ensures var ws := head + Words(Quoted(k), m); forall i :: 0 <= i < |ws| ==> Unquoted(ws[i]) != k
  {
    hide Words, Quoted, Unquoted;
    var ws := head + Words(Quoted(k), m);
    forall i: nat | i < |ws| ensures Unquoted(ws[i]) != k {
      if i < |head| {
        assert BlankFree(head[i]);
        UnquotedIsPart(ws[i]);
      } else {
        BlankKeywordIsLost(k, m, i - |head|);
      }
    }
  }

  lemma BlankKeywordBreaks(r: Rule)
    requires RuleOk(r) && !BlankFree(r.keyword)
    ensures Parsed(FileArgv(RuleLine(r))) != Some(Normal(r))
  {
    hide RuleWords, IsMask, NetworkOk, Quoted, Words, FileArgv, Unquoted, RuleLine, Clauses, RuleOk, Normal;
    var head := RuleWords(r.(keyword := "")) + ["keyword"];
    var k, ws := r.keyword, FileArgv(RuleLine(r));
    BlankKeywordSplits(r, head);
    NoWordSpells(head, k, 16 - |head|);
    NormalKeyword(r);
    if Parsed(ws).Some? {
      KeywordIsFromWords(ws[1..], ANY_RULE.(action := ActionOf(ws[0]).value));
      assert forall i: nat :: i < |ws[1..]| ==> ws[1..][i] == ws[i + 1];
    }
  }

  lemma NormalKeyword(r: Rule)
    ensures Normal(r).keyword == r.keyword
  {}

  /** A rule survives being printed, split and parsed exactly when its keyword has no blank. */
  lemma RuleSurvivesIff(r: Rule)
    requires RuleOk(r)
    ensures Parsed(FileArgv(RuleLine(r))) == Some(Normal(r)) <==> BlankFree(r.keyword)
  {
    hide Parsed, FileArgv, RuleWords;
    if BlankFree(r.keyword) {
      RuleReads(r);
      RuleFits(r);
      FileArgvOfLine(RuleWords(r));
    } else {
      BlankKeywordBreaks(r);
    }
  }

  // ---------------------------------------------------------------- such keywords can be entered

  function Ports(n: nat): (ws: seq<string>)
    ensures |ws| == 2 * n
  {
    if n == 0 then [] else ["sport", "1"] + Ports(n - 1)
  }

  /** A line of 15 words, the last of which is `keyword`: what follows is one word, blanks and all. */
  function LongHead(n: nat): seq<string> {
    ["drop", "ip", "any", "any"] + (Ports(n) + ["keyword"])
  }

  lemma {:induction false} PortsAreWords(n: nat)
    ensures AreWords(Ports(n))
  {
    if n > 0 {
      PortsAreWords(n - 1);
    }
  }

  lemma {:induction false} PortsRead(n: nat, rest: seq<string>, r: Rule)
    requires n > 0
    ensures Clauses(Ports(n) + rest, r) == Clauses(rest, r.(sport := 1))
  {
    hide Clause;
    var ws := Ports(n) + rest;
    OnePortReads(ws, r);
    assert ws[2..] == Ports(n - 1) + rest;
    if n > 1 {
      PortsRead(n - 1, rest, r.(sport := 1));
    } else {
      assert Ports(0) + rest == rest;
    }
  }

  lemma OnePortReads(ws: seq<string>, r: Rule)
    requires |ws| >= 2 && ws[0] == "sport" && ws[1] == "1"
    ensures Clause(ws, r) == Some((r.(sport := 1), 2))
  {
    AtoiOfDec(1);
    assert Dec(1) == "1";
    hide Atoi, Dec;
  }

  lemma AnyAnyReads(ws: seq<string>, r: Rule)
    requires |ws| >= 3 && ws[0] == "ip" && ws[1] == "any" && ws[2] == "any"
    ensures Clause(ws, r) == Some((r.(sipMask := 0, dipMask := 0), 3))
  {
    hide ParseCidr;
  }

  lemma LastKeywordReads(k: string, r: Rule)
    requires |k| <= KEYWORD_MAX
    ensures Clauses(["keyword", Quoted(k)], r) == Some(r.(keyword := k))
  {
    UnquotedQuoted(k);
    hide Unquoted, Quoted;
    PairReads("keyword", Quoted(k), [], r);
    assert ["keyword", Quoted(k)] + [] == ["keyword", Quoted(k)];
  }

  lemma LongHeadReads(n: nat, k: string)
    requires n > 0 && |k| <= KEYWORD_MAX
    ensures Parsed(LongHead(n) + [Quoted(k)]) == Some(Rule(Drop, 0, 0, 0, 0, PROTO_ANY, 1, -1, k))
  {
    hide Clause, Clauses, Ports, Quoted;
    var ws := LongHead(n) + [Quoted(k)];
    var tail := Ports(n) + ["keyword", Quoted(k)];
    assert ws[1..] == ["ip", "any", "any"] + tail;
    var r := ANY_RULE.(action := Drop);
    AnyAnyReads(ws[1..], r);
    ClausesStep(ws[1..], r);
    assert ws[1..][3..] == tail;
    PortsRead(n, ["keyword", Quoted(k)], r);
    LastKeywordReads(k, r.(sport := 1));
  }

  /**
   Every keyword of up to 63 characters, blanks and all, can be entered: behind 15 words it is all one word.
   If it has a blank, the rule so entered is then lost by a save and a reload.
   */
  lemma BlankKeywordIsAccepted(k: string)
    requires |k| <= KEYWORD_MAX
    ensures var r := Rule(Drop, 0, 0, 0, 0, PROTO_ANY, 1, -1, k);
            && Parsed(FileArgv(LineAnd(LongHead(5), Quoted(k)))) == Some(r)
            && (Parsed(FileArgv(RuleLine(r))) == Some(r) <==> BlankFree(k))
  {
    var r := Rule(Drop, 0, 0, 0, 0, PROTO_ANY, 1, -1, k);
    var n := 5;
    LongHeadIsWords(n);
    assert Trimmed(Quoted(k)) == Quoted(k);
    LastWord(Quoted(k));
    hide Parsed, FileArgv, LongHead, Words, RuleLine, Quoted, AreWords;
    LongHeadReads(n, k);
    WordsOfLineAnd(LongHead(n), Quoted(k), 16);
    assert FileArgv(LineAnd(LongHead(n), Quoted(k))) == LongHead(n) + [Quoted(k)];
    ParsedIsOk(LongHead(n) + [Quoted(k)]);
    RuleSurvivesIff(r);
  }

  lemma LongHeadIsWords(n: nat)
    requires n == 5
    ensures AreWords(LongHead(n)) && |LongHead(n)| == 15
  {
    PortsAreWords(n);
    hide Ports;
    var a, b, c := ["drop", "ip", "any", "any"], Ports(n), ["keyword"];
    assert AreWords(a) && AreWords(c);
    hide BlankFree;
    assert forall i :: 0 <= i < |b| ==> b[i] != "" && BlankFree(b[i]);
  }
}
