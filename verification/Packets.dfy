/**
 IPv4 packets laid out field by field (section 3.1 of RFC 791, RFC 768, section 3.1 of RFC 793), and which of them a filter rule is about:
 said of the fields, without an offset.
 */
module Packets {
  import opened Basics
  import opened Net
  import opened Firewall

  /** What an IPv4 packet carries; the TCP offset counts words, and the bytes between the ports and it are opaque here. */
  datatype Transport =
    | Tcp(sport: int, dport: int, numbers: seq<Byte>, words: int, flags: seq<Byte>, options: seq<Byte>, payload: seq<Byte>)
    | Udp(sport: int, dport: int, lengthAndSum: seq<Byte>, payload: seq<Byte>)
    | Other(payload: seq<Byte>)

  datatype Packet = Packet(
    ether: seq<Byte>, tos: Byte, total: int, id: int, flags: int, fragment: int, ttl: Byte, proto: Byte, sum: int,
    src: Ip, dst: Ip, options: seq<Byte>, body: Transport)

  predicate Is16(v: int) { 0 <= v < 0x1_0000 }

  predicate TransportOk(t: Transport) {
    match t
    case Tcp(sport, dport, numbers, words, flags, options, _) =>
      Is16(sport) && Is16(dport) && |numbers| == 8 && |flags| == 7 && 5 <= words <= 15 && |options| == 4 * words - 20
    case Udp(sport, dport, lengthAndSum, _) => Is16(sport) && Is16(dport) && |lengthAndSum| == 4
    case Other(_) => true
  }

  /** The flags are three bits, the fragment offset thirteen; protocols 6 and 17 carry what they should. */
  predicate PacketOk(x: Packet) {
    && |x.ether| == 14 && Is16(x.total) && Is16(x.id) && Is16(x.sum) && 0 <= x.flags < 8 && 0 <= x.fragment < 0x2000
    && |x.options| % 4 == 0 && |x.options| <= 40 && TransportOk(x.body)
    && (x.body.Tcp? <==> x.proto == 6) && (x.body.Udp? <==> x.proto == 17)
  }

  function TransportBytes(t: Transport): seq<Byte>
    requires TransportOk(t)
  {
    match t
    case Tcp(sport, dport, numbers, words, flags, options, payload) =>
      ToBytes16(sport) + ToBytes16(dport) + numbers + [16 * words] + flags + options + payload
    case Udp(sport, dport, lengthAndSum, payload) => ToBytes16(sport) + ToBytes16(dport) + lengthAndSum + payload
    case Other(payload) => payload
  }

  function HeaderBytes(x: Packet): (h: seq<Byte>)
    requires PacketOk(x)
    ensures |h| == 34
  {
    x.ether + [0x40 + 5 + |x.options| / 4, x.tos] + ToBytes16(x.total) + ToBytes16(x.id) + ToBytes16(0x2000 * x.flags + x.fragment)
    + [x.ttl, x.proto] + ToBytes16(x.sum) + ToBytes32(x.src) + ToBytes32(x.dst)
  }

  /** The frame on the wire. */
  function FrameOf(x: Packet): seq<Byte>
    requires PacketOk(x)
  {
    HeaderBytes(x) + x.options + TransportBytes(x.body)
  }

  /**
   The packets a rule is about: source and destination in its networks, its protocol, its ports, which only TCP and UDP
   have, and its keyword in the payload, which is only looked at in a first fragment.
   */
  predicate Concerns(r: Rule, x: Packet)
    requires PacketOk(x)
  {
    && (r.sipMask == 0 || InNet(x.src, r.sip, r.sipMask)) && (r.dipMask == 0 || InNet(x.dst, r.dip, r.dipMask))
    && (r.proto < 0 || x.proto == r.proto % 256)
    && (r.sport < 0 || (!x.body.Other? && x.body.sport == r.sport))
    && (r.dport < 0 || (!x.body.Other? && x.body.dport == r.dport))
    && (r.keyword == "" || (!x.body.Other? && x.fragment == 0 && Occurs(x.body.payload, r.keyword)))
  }

  // ---------------------------------------------------------------- reading the fields back

  lemma HalfWord(v: int)
    requires Is16(v)
    ensures Be16(ToBytes16(v)[0], ToBytes16(v)[1]) == v
  {}

  lemma HeaderRead(x: Packet, f: seq<Byte>)
    requires PacketOk(x) && |f| >= 34 && f[..34] == HeaderBytes(x)
    ensures f[14] == 0x45 + |x.options| / 4 && f[23] == x.proto && Word(f, 20) == 0x2000 * x.flags + x.fragment
    ensures Address(f, 26) == x.src && Address(f, 30) == x.dst
  {
    var t, i, g, c, s, d := ToBytes16(x.total), ToBytes16(x.id), ToBytes16(0x2000 * x.flags + x.fragment), ToBytes16(x.sum), ToBytes32(x.src), ToBytes32(x.dst);
    HalfWord(0x2000 * x.flags + x.fragment);
    Be32OfBytes(x.src);
    Be32OfBytes(x.dst);
    hide ToBytes32, ToBytes16, Be32, Be16;
    var v: seq<Byte> := [0x40 + 5 + |x.options| / 4, x.tos];
    Spread(x.ether, v, t, i, g, [x.ttl, x.proto], c, s, d, f);
  }

  lemma Spread(ether: seq<Byte>, v: seq<Byte>, t: seq<Byte>, i: seq<Byte>, g: seq<Byte>, p: seq<Byte>, c: seq<Byte>, s: seq<Byte>, d: seq<Byte>, f: seq<Byte>)
    requires |ether| == 14 && |v| == |t| == |i| == |g| == |p| == |c| == 2 && |s| == |d| == 4
    requires |f| >= 34 && f[..34] == ether + v + t + i + g + p + c + s + d
    ensures f[14] == v[0] && f[20] == g[0] && f[21] == g[1] && f[23] == p[1]
    ensures f[26] == s[0] && f[27] == s[1] && f[28] == s[2] && f[29] == s[3]
    ensures f[30] == d[0] && f[31] == d[1] && f[32] == d[2] && f[33] == d[3]
  {
    var h := ether + v + t + i + g + p + c + s + d;
    assert forall j :: 0 <= j < 34 ==> f[j] == h[j];
  }

  /** Where the body starts, and that it is all the rest. */
  lemma BodyRead(x: Packet, f: seq<Byte>)
    requires PacketOk(x) && f == FrameOf(x)
    ensures f[..34] == HeaderBytes(x) && |f| == 34 + |x.options| + |TransportBytes(x.body)|
    ensures f[34 + |x.options|..] == TransportBytes(x.body)
  {
    hide HeaderBytes, TransportBytes;
  }

  lemma HasHeader(x: Packet, f: seq<Byte>)
    requires PacketOk(x) && f == FrameOf(x)
    ensures HasIpHeader(f) && HeaderLength(f) == 20 + |x.options|
  {
    BodyRead(x, f);
    HeaderRead(x, f);
    hide HeaderBytes, TransportBytes, FrameOf;
  }

  lemma PortsRead(t: Transport, b: seq<Byte>)
    requires TransportOk(t) && !t.Other? && b == TransportBytes(t)
    ensures |b| >= 8 && Word(b, 0) == t.sport && Word(b, 2) == t.dport
  {
    HalfWord(t.sport);
    HalfWord(t.dport);
    var s, d := ToBytes16(t.sport), ToBytes16(t.dport);
    hide ToBytes16, Be16;
    assert b[0] == s[0] && b[1] == s[1] && b[2] == d[0] && b[3] == d[1];
  }

  lemma PayloadRead(t: Transport, b: seq<Byte>)
    requires TransportOk(t) && b == TransportBytes(t)
    ensures t.Tcp? ==> |b| >= 20 && b[12] / 16 == t.words && |b| >= 4 * t.words && b[4 * t.words..] == t.payload
    ensures t.Udp? ==> |b| >= 8 && b[8..] == t.payload
  {
    hide ToBytes16;
    if t.Tcp? {
      var ports := ToBytes16(t.sport) + ToBytes16(t.dport);
      var front := ports + t.numbers + [16 * t.words] + t.flags + t.options;
      assert |front| == 4 * t.words && b == front + t.payload;
      assert b[12] == front[12] == (ports + t.numbers + [16 * t.words])[12] == 16 * t.words;
    } else if t.Udp? {
      var front := ToBytes16(t.sport) + ToBytes16(t.dport) + t.lengthAndSum;
      assert |front| == 8 && b == front + t.payload;
    }
  }

  lemma WordBehind(f: seq<Byte>, at: nat, i: nat)
    requires at + i + 2 <= |f|
    ensures Word(f, at + i) == Word(f[at..], i)
  {}

  lemma PortsConcern(r: Rule, x: Packet, f: seq<Byte>)
    requires PacketOk(x) && f == FrameOf(x) && HasIpHeader(f)
    ensures PortsOk(r, f) <==> (r.sport < 0 || (!x.body.Other? && x.body.sport == r.sport))
                               && (r.dport < 0 || (!x.body.Other? && x.body.dport == r.dport))
  {
    BodyRead(x, f);
    HasHeader(x, f);
    HeaderRead(x, f);
    var b, at := TransportBytes(x.body), 34 + |x.options|;
    if !x.body.Other? {
      PortsRead(x.body, b);
      WordBehind(f, at, 0);
      WordBehind(f, at, 2);
    }
    hide HeaderBytes, TransportBytes, FrameOf, Be16;
  }

  lemma SameTail(f: seq<Byte>, at: nat, b: seq<Byte>, n: nat)
    requires at + n <= |f| && f[at..] == b
    ensures f[at + n..] == b[n..] && (n < |b| ==> f[at + n] == b[n])
  {}

  /** What the code looks at before it takes the rest of the frame for the payload. */
  lemma BodyFields(x: Packet, f: seq<Byte>)
    requires PacketOk(x) && f == FrameOf(x)
    ensures var l4 := 34 + |x.options|;
            && HasIpHeader(f) && 14 + HeaderLength(f) == l4 && f[23] == x.proto && Word(f, 20) % 0x2000 == x.fragment
            && (x.body.Tcp? ==> l4 + 20 <= |f| && f[l4 + 12] / 16 == x.body.words && l4 + 4 * x.body.words <= |f|
                                && f[l4 + 4 * x.body.words..] == x.body.payload)
            && (x.body.Udp? ==> l4 + 8 <= |f| && f[l4 + 8..] == x.body.payload)
  {
    BodyRead(x, f);
    HasHeader(x, f);
    HeaderRead(x, f);
    var b, at := TransportBytes(x.body), 34 + |x.options|;
    PayloadRead(x.body, b);
    hide HeaderBytes, TransportBytes, FrameOf, Word, Address, HasIpHeader, HeaderLength, TransportOk;
    if x.body.Tcp? {
      SameTail(f, at, b, 12);
      SameTail(f, at, b, 4 * x.body.words);
    } else if x.body.Udp? {
      SameTail(f, at, b, 8);
    }
  }

  lemma PayloadFound(x: Packet, f: seq<Byte>)
    requires PacketOk(x) && f == FrameOf(x) && HasIpHeader(f)
    ensures PayloadStart(f).Some? <==> x.fragment == 0 && !x.body.Other?
    ensures PayloadStart(f).Some? ==> f[PayloadStart(f).value..] == x.body.payload
  {
    BodyFields(x, f);
    hide FrameOf, Word, HasIpHeader, HeaderLength, TransportOk;
  }

  lemma KeywordConcerns(r: Rule, x: Packet, f: seq<Byte>)
    requires PacketOk(x) && f == FrameOf(x) && HasIpHeader(f)
    ensures KeywordOk(r, f) <==> r.keyword == "" || (!x.body.Other? && x.fragment == 0 && Occurs(x.body.payload, r.keyword))
  {
    PayloadFound(x, f);
    hide FrameOf, PacketOk, HasIpHeader, PayloadStart, Occurs;
  }

  /** A rule matches the frame of a packet if and only if it is about the packet. */
  lemma MatchesIffConcerns(r: Rule, x: Packet)
    requires PacketOk(x)
    ensures Matches(r, FrameOf(x)) <==> Concerns(r, x)
  {
    var f := FrameOf(x);
    BodyRead(x, f);
    HasHeader(x, f);
    HeaderRead(x, f);
    PortsConcern(r, x, f);
    KeywordConcerns(r, x, f);
    hide HeaderBytes, TransportBytes, FrameOf, PortsOk, KeywordOk, Occurs, Word, Address, InNet, HasIpHeader, HeaderLength;
  }

  /** fw_check on the frame of a packet: the action of the first rule that is about the packet, else it is allowed. */
  method CheckPacket(t: Table, x: Packet) returns (action: Action)
    requires t.Valid() && PacketOk(x)
    ensures (exists i :: 0 <= i < |t.Contents()| && Concerns(t.Contents()[i], x) && action == t.Contents()[i].action
                         && forall j :: 0 <= j < i ==> !Concerns(t.Contents()[j], x))
         || (action == Allow && forall i :: 0 <= i < |t.Contents()| ==> !Concerns(t.Contents()[i], x))
  {
    hide FrameOf, Matches, Concerns, Verdict;
    ghost var rules, f := t.Contents(), FrameOf(x);
    forall i | 0 <= i < |rules| ensures Matches(rules[i], f) <==> Concerns(rules[i], x) {
      MatchesIffConcerns(rules[i], x);
    }
    VerdictIsFirstMatch(rules, f);
    action := t.Check(FrameOf(x));
    if i: nat :| i < |rules| && Matches(rules[i], f) {
      var k := FirstMatch(rules, f, i);
    }
  }

  lemma {:induction false} FirstMatch(rules: seq<Rule>, f: seq<Byte>, n: nat) returns (i: nat)
    requires n < |rules| && Matches(rules[n], f)
    ensures i <= n && Matches(rules[i], f) && forall j :: 0 <= j < i ==> !Matches(rules[j], f)
  {
    hide Matches;
    i := n;
    if j: nat :| j < n && Matches(rules[j], f) {
      i := FirstMatch(rules, f, j);
    }
  }

  /** With one rule in the table. */
  method CheckOne(t: Table, r: Rule, x: Packet) returns (action: Action)
    requires t.Valid() && t.Contents() == [r] && PacketOk(x)
    ensures action == if Concerns(r, x) then r.action else Allow
  {
    hide Concerns;
    action := CheckPacket(t, x);
    assert t.Contents()[0] == r;
  }
}
