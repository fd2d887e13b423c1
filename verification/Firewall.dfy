/** The packet filter (src/firewall.c). */
module Firewall {
  import opened Basics
  import opened Net

  const MAX_RULE := 128
  const PROTO_ANY := -1
  const PROTO_ICMP := 1
  const PROTO_TCP := 6
  const PROTO_UDP := 17

  datatype Action = Drop | Allow

  /** Mask 0, protocol -1, port -1 and the empty keyword stand for "any". */
  datatype Rule = Rule(action: Action, sip: Ip, sipMask: Ip, dip: Ip, dipMask: Ip,
                       proto: int, sport: int, dport: int, keyword: string)

  // ---------------------------------------------------------------- what a rule means

  function HeaderLength(f: seq<Byte>): nat
    requires |f| > 14
  {
    f[14] % 16 * 4
  }

  predicate HasIpHeader(f: seq<Byte>) {
    |f| >= 34 && f[14] / 16 == 4 && HeaderLength(f) >= 20 && 14 + HeaderLength(f) <= |f|
  }

  function Word(f: seq<Byte>, i: nat): int
    requires i + 2 <= |f|
  {
    Be16(f[i], f[i + 1])
  }

  function Address(f: seq<Byte>, i: nat): Ip
    requires i + 4 <= |f|
  {
    Be32(f[i], f[i + 1], f[i + 2], f[i + 3])
  }

  predicate HasPorts(f: seq<Byte>)
    requires HasIpHeader(f)
  {
    f[23] == PROTO_TCP || f[23] == PROTO_UDP
  }

  predicate AddressOk(a: Ip, net: Ip, mask: Ip) {
    mask != 0 ==> InNet(a, net, mask)
  }

  predicate PortsOk(r: Rule, f: seq<Byte>)
    requires HasIpHeader(f)
  {
    var l4 := 14 + HeaderLength(f);
    (r.sport >= 0 || r.dport >= 0) ==>
      && HasPorts(f) && l4 + 4 <= |f|
      && (r.sport >= 0 ==> Word(f, l4) == r.sport)
      && (r.dport >= 0 ==> Word(f, l4 + 2) == r.dport)
  }

  /** Where the payload of an unfragmented TCP or UDP packet starts. */
  function PayloadStart(f: seq<Byte>): (p: Option<nat>)
    requires HasIpHeader(f)
    ensures p.Some? ==> 34 <= p.value <= |f|
  {
    var l4 := 14 + HeaderLength(f);
    if Word(f, 20) % 0x2000 != 0 || !HasPorts(f) then None
    else if f[23] == PROTO_TCP && l4 + 13 > |f| then None
    else
      var start := if f[23] == PROTO_TCP then l4 + f[l4 + 12] / 16 * 4 else l4 + 8;
      if start > |f| then None else Some(start)
  }

  predicate OccursAt(hay: seq<Byte>, needle: string, i: int) {
    0 <= i <= |hay| - |needle| && forall j :: 0 <= j < |needle| ==> hay[i + j] == needle[j] as int
  }

  predicate Occurs(hay: seq<Byte>, needle: string) {
    exists i :: 0 <= i <= |hay| && OccursAt(hay, needle, i)
  }

  predicate KeywordOk(r: Rule, f: seq<Byte>)
    requires HasIpHeader(f)
  {
    r.keyword != "" ==> PayloadStart(f).Some? && Occurs(f[PayloadStart(f).value..], r.keyword)
  }

  predicate Matches(r: Rule, f: seq<Byte>) {
    && HasIpHeader(f)
    && AddressOk(Address(f, 26), r.sip, r.sipMask)
    && AddressOk(Address(f, 30), r.dip, r.dipMask)
    && (r.proto >= 0 ==> f[23] == r.proto % 256)
    && PortsOk(r, f)
    && KeywordOk(r, f)
  }

  /** The action of the first rule that matches, else Allow. */
  function Verdict(rules: seq<Rule>, f: seq<Byte>): Action {
    if rules == [] then Allow
    else if Matches(rules[0], f) then rules[0].action
    else Verdict(rules[1..], f)
  }

  lemma {:induction false} VerdictIsFirstMatch(rules: seq<Rule>, f: seq<Byte>)
    ensures (forall i :: 0 <= i < |rules| ==> !Matches(rules[i], f)) ==> Verdict(rules, f) == Allow
    ensures forall i :: 0 <= i < |rules| && Matches(rules[i], f) && (forall j :: 0 <= j < i ==> !Matches(rules[j], f)) ==>
              Verdict(rules, f) == rules[i].action
  {
    hide Matches;
    if rules != [] {
      var rest := rules[1..];
      VerdictIsFirstMatch(rest, f);
      assert forall i :: 1 <= i < |rules| ==> rules[i] == rest[i - 1];
      forall i | 1 <= i < |rules| && Matches(rules[i], f) && (forall j :: 0 <= j < i ==> !Matches(rules[j], f))
        ensures Verdict(rules, f) == rules[i].action
      {
        assert rules[i] == rest[i - 1];
        assert forall j :: 0 <= j < i - 1 ==> rest[j] == rules[j + 1];
      }
    }
  }

  // ---------------------------------------------------------------- the code

  /** find_bytes: the least offset, or -1. */
  method FindBytes(hay: seq<Byte>, needle: string) returns (r: int)
    ensures r < 0 ==> !Occurs(hay, needle)
    ensures r >= 0 ==> OccursAt(hay, needle, r) && forall i :: 0 <= i < r ==> !OccursAt(hay, needle, i)
  {
    if |needle| == 0 {
      return 0;
    }
    if |needle| > |hay| {
      return -1;
    }
    var i := 0;
    while i + |needle| <= |hay|
      invariant 0 <= i && forall k :: 0 <= k < i ==> !OccursAt(hay, needle, k)
      decreases |hay| - i
    {
      var j := 0;
      while j < |needle| && hay[i + j] == needle[j] as int
        invariant 0 <= j <= |needle|
        invariant forall k :: 0 <= k < j ==> hay[i + k] == needle[k] as int
      {
        j := j + 1;
      }
      if j == |needle| {
        return i;
      }
      i := i + 1;
    }
    return -1;
  }

  /** The keyword test of rule_match. */
  method KeywordMatch(r: Rule, f: seq<Byte>) returns (m: bool)
    requires HasIpHeader(f) && r.keyword != ""
    ensures m == KeywordOk(r, f)
  {
    var tcpUdp := f[23] == PROTO_TCP || f[23] == PROTO_UDP;
    var l4 := 14 + HeaderLength(f);
    var fragOff := Word(f, 20) % 0x2000 * 8;
    if fragOff != 0 { return false; }
    if !tcpUdp { return false; }
    var start;
    if f[23] == PROTO_TCP {
      if l4 + 13 > |f| { return false; }
      start := l4 + f[l4 + 12] / 16 * 4;
    } else {
      start := l4 + 8;
    }
    if start > |f| { return false; }
    var at := FindBytes(f[start..], r.keyword);
    m := at >= 0;
  }

  /** rule_match: every read is below the length of the frame. */
  method RuleMatch(r: Rule, f: seq<Byte>) returns (m: bool)
    ensures m == Matches(r, f)
  {
    hide InNet, KeywordOk;
    if |f| < 34 { return false; }
    if f[14] / 16 != 4 { return false; }
    var ihl := f[14] % 16 * 4;
    if ihl < 20 || ihl > |f| - 14 { return false; }
    assert HasIpHeader(f) && ihl == HeaderLength(f);
    var sip, dip := Address(f, 26), Address(f, 30);
    if r.sipMask != 0 && !InNet(sip, r.sip, r.sipMask) { return false; }
    if r.dipMask != 0 && !InNet(dip, r.dip, r.dipMask) { return false; }
    if r.proto >= 0 && f[23] != r.proto % 256 { return false; }
    var tcpUdp := f[23] == PROTO_TCP || f[23] == PROTO_UDP;
    var l4 := 14 + ihl;
    if r.sport >= 0 || r.dport >= 0 {
      if !tcpUdp { return false; }
      if l4 + 4 > |f| { return false; }
      if r.sport >= 0 && Word(f, l4) != r.sport { return false; }
      if r.dport >= 0 && Word(f, l4 + 2) != r.dport { return false; }
    }
    assert PortsOk(r, f);
    if r.keyword != "" {
      m := KeywordMatch(r, f);
    } else {
      assert KeywordOk(r, f) by { NoKeyword(r, f); }
      m := true;
    }
  }

  lemma NoKeyword(r: Rule, f: seq<Byte>)
    requires HasIpHeader(f) && r.keyword == ""
    ensures KeywordOk(r, f)
  {}

  class Table {
    const rules: array<Rule>
    var n: nat

    ghost predicate Valid()
      reads this
    {
      rules.Length == MAX_RULE && n <= MAX_RULE
    }

    ghost function Contents(): seq<Rule>
      reads this, rules
      requires Valid()
    {
      rules[..n]
    }

    constructor ()
      ensures Valid() && Contents() == [] && fresh(rules)
    {
      rules := new Rule[MAX_RULE](_ => Rule(Drop, 0, 0, 0, 0, 0, 0, 0, ""));
      n := 0;
    }

    method Clear()
      requires Valid()
      modifies this`n
      ensures Valid() && Contents() == []
    {
      n := 0;
    }

    method Add(r: Rule) returns (rc: int)
      requires Valid()
      modifies this`n, rules
      ensures Valid() && rc == if |old(Contents())| < MAX_RULE then 0 else -1
      ensures Contents() == if rc == 0 then old(Contents()) + [r] else old(Contents())
    {
      if n >= MAX_RULE {
        return -1;
      }
      rules[n] := r;
      n := n + 1;
      return 0;
    }

    /** One step of the loop of fw_del. */
    method MoveDown(i: int, ghost index: nat, ghost s: seq<Rule>)
      requires Valid() && index <= i < n - 1 == |s| - 1 && Contents() == Closing(s, index, i)
      modifies rules
      ensures Contents() == Closing(s, index, i + 1)
    {
      hide Closing;
      CloseMoves(s, index, i);
      assert rules[i + 1] == Contents()[i + 1];
      ghost var before := Contents();
      rules[i] := rules[i + 1];
      assert Contents() == before[i := s[i + 1]];
    }

    /** fw_del: removes exactly the rule at the index. */
    method Del(index: int) returns (rc: int)
      requires Valid()
      modifies this`n, rules
      ensures Valid() && rc == if 0 <= index < |old(Contents())| then 0 else -1
      ensures Contents() == if rc == 0 then old(Contents())[..index] + old(Contents())[index + 1..] else old(Contents())
    {
      if index < 0 || index >= n {
        return -1;
      }
      hide Closing;
      ghost var s := Contents();
      CloseStarts(s, index);
      for i := index to n - 1
        invariant n == |s| && Contents() == Closing(s, index, i)
      {
        MoveDown(i, index, s);
      }
      CloseEnds(s, index);
      assert rules[..n - 1] == Contents()[..n - 1];
      n := n - 1;
      return 0;
    }

    /** fw_check. */
    method Check(f: seq<Byte>) returns (action: Action)
      requires Valid()
      ensures action == Verdict(Contents(), f)
    {
      hide Matches;
      action := Allow;
      ghost var s := Contents();
      var i := 0;
      assert s[0..] == s;
      while i < n
        invariant 0 <= i <= n == |s|
        invariant Verdict(s, f) == Verdict(s[i..], f)
      {
        assert rules[i] == s[i] && s[i..][1..] == s[i + 1..];
        var m := RuleMatch(rules[i], f);
        if m {
          return rules[i].action;
        }
        i := i + 1;
      }
    }
  }
}
