/**
 The ARP cache (src/arp_table.c): a chained hash table threaded through a fixed array of
 slots, and the bounded map it implements.
 */
module ArpTable {
  import opened Basics
  import opened IndexList

  const ARP_CAP := 256
  const ARP_BUCKETS := 256
  const ARP_TMO := 300

  // ---------------------------------------------------------------- the map

  datatype Seen = Seen(mac: Mac, at: int)

  type Cache = map<Key, Seen>

  /** What a lookup leaves behind: a hit is refreshed. */
  function Looked(m: Cache, k: Key, now: int): Cache {
    if k in m then m[k := Seen(m[k].mac, now)] else m
  }

  ghost predicate IsOldest(m: Cache, v: Key) {
    v in m && forall u :: u in m ==> m[v].at <= m[u].at
  }

  /** Learning overwrites, grows a cache that has room, and otherwise replaces a least recently seen entry. */
  ghost predicate Learned(m: Cache, k: Key, mac: Mac, now: int, m': Cache) {
    if k in m || |m| < ARP_CAP then
      m' == m[k := Seen(mac, now)]
    else
      exists v :: IsOldest(m, v) && m' == (m - {v})[k := Seen(mac, now)]
  }

  /** The age test of arp_tick, whose subtraction is on uint64_t. */
  predicate Expired(at: int, now: int, timeout: int) {
    (now - at) % (U64_MAX + 1) > timeout
  }

  function Aged(m: Cache, now: int, timeout: int): Cache {
    map k | k in m && !Expired(m[k].at, now, timeout) :: m[k]
  }

  /**
   arp_tick keeps exactly the entries no older than the timeout when no entry was refreshed
   after the clock was read; an entry with a later stamp wraps around and is lost.
   */
  lemma AgedIsExact(m: Cache, now: U64, timeout: nat)
    requires timeout < 0x8000_0000
    requires forall k :: k in m ==> 0 <= m[k].at <= now + 0x8000_0000
    ensures (forall k :: k in m ==> (k in Aged(m, now, timeout) <==> now - m[k].at <= timeout))
       <==> (forall k :: k in m ==> m[k].at <= now)
  {
    forall k | k in m
      ensures (k in Aged(m, now, timeout) <==> now - m[k].at <= timeout) <==> m[k].at <= now
    {
      if m[k].at <= now {
        assert (now - m[k].at) % (U64_MAX + 1) == now - m[k].at;
      } else {
        assert (now - m[k].at) % (U64_MAX + 1) == now - m[k].at + U64_MAX + 1;
      }
    }
  }

  /** The witness: an entry refreshed one second after arp_tick read the clock is dropped at once. */
  lemma FreshEntryCanBeLost(k: Key, mac: Mac)
    ensures k !in Aged(map[k := Seen(mac, 11)], 10, ARP_TMO)
  {
    assert (10 - 11) % (U64_MAX + 1) == U64_MAX;
  }

  // ---------------------------------------------------------------- the table

  datatype Entry = Entry(ip: Ip, ifidx: int, mac: Mac, lastSeen: U64, used: bool, next: int)

  function HashIp(ip: Ip): (h: nat)
    ensures h < ARP_BUCKETS
  {
    TopByte(ip * 2654435761);
    ((ip * 2654435761) >> 24) as nat
  }

  lemma TopByte(x: bv32)
    ensures (x >> 24) as nat < 256
  {
    assert (x >> 24) < 256;
  }

  function KeyOf(e: Entry): Key { Key(e.ip, e.ifidx) }

  function Nexts(E: seq<Entry>): (n: seq<int>)
    ensures |n| == |E|
  {
    seq(|E|, i requires 0 <= i < |E| => E[i].next)
  }

  /** The slots of chain h are the used ones whose address hashes to h. */
  ghost predicate Hashed(E: seq<Entry>, ch: seq<seq<nat>>)
    requires |E| == ARP_CAP && |ch| == ARP_BUCKETS
  {
    forall h, i {:trigger i in ch[h]} :: 0 <= h < ARP_BUCKETS && i in ch[h] <==>
      0 <= h < ARP_BUCKETS && 0 <= i < ARP_CAP && E[i].used && HashIp(E[i].ip) == h
  }

  /** `slot` names the used slots, one for each key. */
  ghost predicate Indexed(E: seq<Entry>, slot: map<Key, nat>) {
    && (forall i {:trigger E[i]} :: 0 <= i < |E| && E[i].used ==> KeyOf(E[i]) in slot && slot[KeyOf(E[i])] == i)
    && (forall k :: k in slot ==> slot[k] < |E| && E[slot[k]].used && KeyOf(E[slot[k]]) == k)
  }

  ghost predicate Inv(E: seq<Entry>, B: seq<int>, ch: seq<seq<nat>>, slot: map<Key, nat>) {
    && |E| == ARP_CAP && |ch| == ARP_BUCKETS
    && Buckets(B, Nexts(E), ch)
    && Hashed(E, ch)
    && Indexed(E, slot)
    && (forall i {:trigger E[i]} :: 0 <= i < ARP_CAP ==> E[i].lastSeen < U64_MAX)
  }

  ghost function Abs(E: seq<Entry>, slot: map<Key, nat>): Cache
    requires forall k :: k in slot ==> slot[k] < |E|
  {
    map k | k in slot :: Seen(E[slot[k]].mac, E[slot[k]].lastSeen)
  }

  // ---------------------------------------------------------------- what each step of the code keeps

  lemma NothingIsInv(E: seq<Entry>, B: seq<int>, ch: seq<seq<nat>>, slot: map<Key, nat>)
    requires |E| == ARP_CAP && |B| == |ch| == ARP_BUCKETS && slot == map[]
    requires forall i :: 0 <= i < |E| ==> !E[i].used && E[i].lastSeen == 0
    requires forall h :: 0 <= h < |B| ==> B[h] == -1 && ch[h] == []
    ensures Inv(E, B, ch, slot) && Abs(E, slot) == map[]
  {}

  lemma RefreshKeeps(E: seq<Entry>, B: seq<int>, ch: seq<seq<nat>>, slot: map<Key, nat>,
                     i: nat, mac: Mac, now: U64)
    requires Inv(E, B, ch, slot) && i < ARP_CAP && E[i].used && now < U64_MAX
    ensures var E' := E[i := E[i].(mac := mac, lastSeen := now)];
            && Inv(E', B, ch, slot)
            && Abs(E', slot) == Abs(E, slot)[KeyOf(E[i]) := Seen(mac, now)]
  {
    hide HashIp;
    var E' := E[i := E[i].(mac := mac, lastSeen := now)];
    assert Nexts(E') == Nexts(E);
    forall k | k in slot && k != KeyOf(E[i]) ensures E'[slot[k]] == E[slot[k]] {
      assert slot[k] != i;
    }
  }

  /** A used slot can be found at some position of its chain. */
  lemma SlotPosition(E: seq<Entry>, B: seq<int>, ch: seq<seq<nat>>, slot: map<Key, nat>, i: nat) returns (p: nat)
    requires Inv(E, B, ch, slot) && i < ARP_CAP && E[i].used
    ensures p < |ch[HashIp(E[i].ip)]| && ch[HashIp(E[i].ip)][p] == i
  {
    hide HashIp;
    assert i in ch[HashIp(E[i].ip)];
    p :| p < |ch[HashIp(E[i].ip)]| && ch[HashIp(E[i].ip)][p] == i;
  }

  /** No slot of the chain carries the key, so the cache does not have it. */
  lemma MissMeansAbsent(E: seq<Entry>, B: seq<int>, ch: seq<seq<nat>>, slot: map<Key, nat>, k: Key)
    requires Inv(E, B, ch, slot)
    requires forall j :: 0 <= j < |ch[HashIp(k.ip)]| ==> KeyOf(E[ch[HashIp(k.ip)][j]]) != k
    ensures k !in slot
  {
    hide HashIp;
    if k in slot {
      var p := SlotPosition(E, B, ch, slot, slot[k]);
    }
  }

  /** The entries after the link before position p of the chain c is made to skip it. */
  function Skipped(E: seq<Entry>, c: seq<nat>, p: nat): (E': seq<Entry>)
    requires p < |c| && forall j :: 0 <= j < |c| ==> c[j] < |E|
    ensures |E'| == |E|
    ensures Nexts(E') == SkippedNext(Nexts(E), c, p)
  {
    if p == 0 then E else E[c[p - 1] := E[c[p - 1]].(next := E[c[p]].next)]
  }

  /** Unlinking a slot and clearing its used mark removes exactly its key. */
  lemma {:induction false} RemoveKeeps(E: seq<Entry>, B: seq<int>, ch: seq<seq<nat>>, slot: map<Key, nat>,
                                       h: nat, p: nat, nx: int)
    requires Inv(E, B, ch, slot) && h < ARP_BUCKETS && p < |ch[h]|
    ensures var v := ch[h][p];
            var E1 := Skipped(E, ch[h], p);
            var E' := E1[v := E1[v].(used := false, next := nx)];
            var slot' := slot - {KeyOf(E[v])};
            && Inv(E', SkippedHeads(B, Nexts(E), h, ch[h], p), ch[h := Without(ch[h], p)], slot')
            && Abs(E', slot') == Abs(E, slot) - {KeyOf(E[v])}
  {
    hide HashIp;
    var v := ch[h][p];
    assert v in ch[h];
    var E1 := Skipped(E, ch[h], p);
    var E' := E1[v := E1[v].(used := false, next := nx)];
    var B' := SkippedHeads(B, Nexts(E), h, ch[h], p);
    var ch' := ch[h := Without(ch[h], p)];
    BucketsUnlink(B, Nexts(E), ch, h, p, nx);
    assert Nexts(E') == SkippedNext(Nexts(E), ch[h], p)[v := nx];
    assert forall i {:trigger E'[i]} :: 0 <= i < ARP_CAP && i != v ==> E'[i] == E[i].(next := E'[i].next);
    RemovedIsHashed(E, E', ch, ch', h, v);
    RemovedIsIndexed(E, E', slot, v);
  }

  lemma RemovedIsHashed(E: seq<Entry>, E': seq<Entry>, ch: seq<seq<nat>>, ch': seq<seq<nat>>, h: nat, v: nat)
    requires |E| == |E'| == ARP_CAP && |ch| == ARP_BUCKETS && h < ARP_BUCKETS && v < ARP_CAP && v in ch[h]
    requires Hashed(E, ch) && !E'[v].used
    requires forall i {:trigger E'[i]} :: 0 <= i < ARP_CAP && i != v ==> E'[i] == E[i].(next := E'[i].next)
    requires |ch'| == ARP_BUCKETS && ch' == ch[h := ch'[h]]
    requires forall i :: i in ch'[h] <==> i in ch[h] && i != v
    ensures Hashed(E', ch')
  {
    hide HashIp;
    forall g, i | 0 <= g < ARP_BUCKETS
      ensures i in ch'[g] <==> 0 <= i < ARP_CAP && E'[i].used && HashIp(E'[i].ip) == g
    {
      assert i in ch'[g] <==> i in ch[g] && i != v;
    }
  }

  lemma RemovedIsIndexed(E: seq<Entry>, E': seq<Entry>, slot: map<Key, nat>, v: nat)
    requires |E| == |E'| && v < |E| && E[v].used && !E'[v].used
    requires Indexed(E, slot)
    requires forall i {:trigger E'[i]} :: 0 <= i < |E| && i != v ==> E'[i] == E[i].(next := E'[i].next)
    ensures var slot' := slot - {KeyOf(E[v])};
            Indexed(E', slot') && Abs(E', slot') == Abs(E, slot) - {KeyOf(E[v])}
  {
    var slot' := slot - {KeyOf(E[v])};
    forall i | 0 <= i < |E| && E'[i].used ensures KeyOf(E'[i]) in slot' && slot'[KeyOf(E'[i])] == i {
      assert KeyOf(E'[i]) == KeyOf(E[i]) && slot[KeyOf(E[i])] == i;
    }
    forall k | k in slot' ensures slot'[k] < |E| && E'[slot'[k]].used && KeyOf(E'[slot'[k]]) == k {
      assert KeyOf(E[slot[k]]) == k;
    }
  }

  /** Filling an unused slot and pushing it on its bucket adds exactly its key. */
  lemma {:induction false} FillKeeps(E: seq<Entry>, B: seq<int>, ch: seq<seq<nat>>, slot: map<Key, nat>,
                                     v: nat, k: Key, mac: Mac, now: U64)
    requires Inv(E, B, ch, slot) && v < ARP_CAP && !E[v].used && k !in slot && now < U64_MAX
    ensures var h := HashIp(k.ip);
            var E' := E[v := Entry(k.ip, k.ifidx, mac, now, true, B[h])];
            && Inv(E', B[h := v], ch[h := [v] + ch[h]], slot[k := v])
            && Abs(E', slot[k := v]) == Abs(E, slot)[k := Seen(mac, now)]
  {
    hide HashIp;
    var h := HashIp(k.ip);
    var E' := E[v := Entry(k.ip, k.ifidx, mac, now, true, B[h])];
    forall g | 0 <= g < ARP_BUCKETS ensures v !in ch[g] {}
    BucketsPush(B, Nexts(E), ch, h, v);
    assert Nexts(E') == Nexts(E)[v := B[h]];
    FilledIsHashed(E, E', ch, h, v);
    FilledIsIndexed(E, E', slot, v, k);
  }

  /** With every slot used, evicting the oldest and reusing its slot is what Learned asks for; E1, B1 and ch1 are without it. */
  lemma {:induction false} ReplaceKeeps(E: seq<Entry>, B: seq<int>, ch: seq<seq<nat>>, slot: map<Key, nat>, h: nat, p: nat,
                                        E1: seq<Entry>, B1: seq<int>, ch1: seq<seq<nat>>, v: nat, k: Key, mac: Mac, now: U64)
    requires Inv(E, B, ch, slot) && h < ARP_BUCKETS && p < |ch[h]| && ch[h][p] == v < ARP_CAP && k !in slot && now < U64_MAX
    requires E1 == Skipped(E, ch[h], p) && B1 == SkippedHeads(B, Nexts(E), h, ch[h], p) && ch1 == ch[h := Without(ch[h], p)]
    requires forall i :: 0 <= i < ARP_CAP ==> E[i].used && E[v].lastSeen <= E[i].lastSeen
    ensures var g := HashIp(k.ip);
            var E' := E1[v := Entry(k.ip, k.ifidx, mac, now, true, B1[g])];
            var slot' := (slot - {KeyOf(E[v])})[k := v];
            && Inv(E', B1[g := v], ch1[g := [v] + ch1[g]], slot')
            && Learned(Abs(E, slot), k, mac, now, Abs(E', slot'))
  {
    hide HashIp, Skipped, SkippedHeads;
    var g, victim := HashIp(k.ip), KeyOf(E[v]);
    var E2 := E1[v := E1[v].(used := false, next := -1)];
    RemoveKeeps(E, B, ch, slot, h, p, -1);
    FillKeeps(E2, B1, ch1, slot - {victim}, v, k, mac, now);
    var e := Entry(k.ip, k.ifidx, mac, now, true, B1[g]);
    assert E2[v := e] == E1[v := e];
    FullMeansNoFreeSlot(E, B, ch, slot);
    assert slot[victim] == v && IsOldest(Abs(E, slot), victim);
  }

  lemma RoomLearns(m: Cache, k: Key, mac: Mac, now: int)
    requires |m| < ARP_CAP
    ensures Learned(m, k, mac, now, m[k := Seen(mac, now)])
  {}

  lemma FilledIsHashed(E: seq<Entry>, E': seq<Entry>, ch: seq<seq<nat>>, h: nat, v: nat)
    requires |E| == ARP_CAP && |ch| == ARP_BUCKETS && h < ARP_BUCKETS && v < ARP_CAP
    requires Hashed(E, ch) && !E[v].used
    requires |E'| == ARP_CAP && E' == E[v := E'[v]] && E'[v].used && HashIp(E'[v].ip) == h
    ensures Hashed(E', ch[h := [v] + ch[h]])
  {
    hide HashIp;
    var ch' := ch[h := [v] + ch[h]];
    forall g, i | 0 <= g < ARP_BUCKETS
      ensures i in ch'[g] <==> 0 <= i < ARP_CAP && E'[i].used && HashIp(E'[i].ip) == g
    {
      assert i in ch'[g] <==> i in ch[g] || (g == h && i == v);
    }
  }

  lemma FilledIsIndexed(E: seq<Entry>, E': seq<Entry>, slot: map<Key, nat>, v: nat, k: Key)
    requires v < |E| && Indexed(E, slot) && !E[v].used && k !in slot
    requires |E'| == |E| && E' == E[v := E'[v]] && E'[v].used && KeyOf(E'[v]) == k
    ensures Indexed(E', slot[k := v])
    ensures Abs(E', slot[k := v]) == Abs(E, slot)[k := Seen(E'[v].mac, E'[v].lastSeen)]
  {
    var slot' := slot[k := v];
    forall i | 0 <= i < |E| && E'[i].used ensures KeyOf(E'[i]) in slot' && slot'[KeyOf(E'[i])] == i {
      if i != v { assert E'[i] == E[i]; }
    }
    forall l | l in slot' ensures slot'[l] < |E| && E'[slot'[l]].used && KeyOf(E'[slot'[l]]) == l {
      if l != k { assert slot[l] != v; }
    }
  }

  // ---------------------------------------------------------------- counting slots

  function UsedBelow(E: seq<Entry>, n: nat): (s: set<nat>)
    requires n <= |E|
  {
    set i: nat | 0 <= i < n && E[i].used
  }

  lemma UsedBelowGrows(E: seq<Entry>, n: nat)
    requires n < |E|
    ensures |UsedBelow(E, n + 1)| == |UsedBelow(E, n)| + if E[n].used then 1 else 0
  {
    assert n !in UsedBelow(E, n) && UsedBelow(E, n + 1) == UsedBelow(E, n) + if E[n].used then {n} else {};
  }

  lemma {:induction false} UsedBelowBound(E: seq<Entry>, n: nat)
    requires n <= |E|
    ensures |UsedBelow(E, n)| <= n
    ensures |UsedBelow(E, n)| == n <==> (forall i :: 0 <= i < n ==> E[i].used)
  {
    if n == 0 {
      assert UsedBelow(E, n) == {};
    } else {
      hide UsedBelow;
      UsedBelowBound(E, n - 1);
      UsedBelowGrows(E, n - 1);
      assert (forall i :: 0 <= i < n ==> E[i].used) <==> E[n - 1].used && forall i :: 0 <= i < n - 1 ==> E[i].used;
    }
  }

  lemma {:induction false} SameSize(slot: map<Key, nat>, keys: set<Key>, slots: set<nat>)
    requires keys <= slot.Keys
    requires forall k, l :: k in keys && l in keys && k != l ==> slot[k] != slot[l]
    requires slots == set k | k in keys :: slot[k]
    ensures |keys| == |slots|
    decreases |keys|
  {
    if keys == {} {
      assert slots == {};
    } else {
      var k :| k in keys;
      SameSize(slot, keys - {k}, slots - {slot[k]});
    }
  }

  /** The cache never holds more than ARP_CAP keys, and is full exactly when no slot is free. */
  lemma FullMeansNoFreeSlot(E: seq<Entry>, B: seq<int>, ch: seq<seq<nat>>, slot: map<Key, nat>)
    requires Inv(E, B, ch, slot)
    ensures |Abs(E, slot)| <= ARP_CAP
    ensures |Abs(E, slot)| == ARP_CAP <==> (forall i :: 0 <= i < ARP_CAP ==> E[i].used)
  {
    hide HashIp;
    var slots := UsedBelow(E, ARP_CAP);
    assert slots == set k | k in slot :: slot[k] by {
      forall i | i in slots ensures exists k :: k in slot && slot[k] == i {
        assert KeyOf(E[i]) in slot && slot[KeyOf(E[i])] == i;
      }
    }
    SameSize(slot, slot.Keys, slots);
    assert Abs(E, slot).Keys == slot.Keys;
    assert |Abs(E, slot)| == |Abs(E, slot).Keys|;
    UsedBelowBound(E, ARP_CAP);
  }

  // ---------------------------------------------------------------- the code

  class Table {
    const entries: array<Entry>
    const bucket: array<int>
    var timeout: int
    ghost var ch: seq<seq<nat>>
    ghost var slot: map<Key, nat>

    ghost predicate Valid()
      reads this, entries, bucket
    {
      && entries.Length == ARP_CAP && bucket.Length == ARP_BUCKETS && 0 <= timeout < 0x8000_0000
      && Inv(entries[..], bucket[..], ch, slot)
    }

    /** The map the table stands for. */
    ghost function Contents(): Cache
      reads this, entries, bucket
      requires Valid()
    {
      Abs(entries[..], slot)
    }

    constructor ()
      ensures Valid() && fresh(entries) && fresh(bucket)
      ensures Contents() == map[] && timeout == ARP_TMO
    {
      entries := new Entry[ARP_CAP](_ => Entry(0, 0, [0, 0, 0, 0, 0, 0], 0, false, -1));
      bucket := new int[ARP_BUCKETS](_ => -1);
      timeout := ARP_TMO;
      ch := seq(ARP_BUCKETS, _ => []);
      slot := map[];
      new;
      hide Inv, Abs;
      NothingIsInv(entries[..], bucket[..], ch, slot);
    }

    method SetTimeout(sec: int)
      requires Valid() && sec < 0x8000_0000
      modifies `timeout
      ensures Valid() && Contents() == old(Contents())
      ensures timeout == if sec >= 10 then sec else old(timeout)
    {
      if sec >= 10 {
        timeout := sec;
      }
    }

    /** The walk along one bucket shared by arp_lookup and arp_insert. */
    method Find(k: Key) returns (idx: int)
      requires Valid()
      ensures idx >= 0 ==> k in slot && idx == slot[k]
      ensures idx < 0 ==> k !in slot
    {
      hide HashIp;
      ghost var c := ch[HashIp(k.ip)];
      ghost var j := 0;
      idx := bucket[HashIp(k.ip)];
      while idx >= 0
        invariant j <= |c| && idx == At(c, j)
        invariant forall i :: 0 <= i < j ==> KeyOf(entries[c[i]]) != k
        decreases |c| - j
      {
        assert idx in c;
        var e := entries[idx];
        if e.used && e.ip == k.ip && e.ifidx == k.ifidx {
          assert KeyOf(entries[..][idx]) == k;
          return;
        }
        assert Nexts(entries[..])[c[j]] == At(c, j + 1);
        j := j + 1;
        idx := e.next;
      }
      MissMeansAbsent(entries[..], bucket[..], ch, slot, k);
    }

    /** arp_lookup: answers from the map, and a hit is refreshed. */
    method Lookup(k: Key, now: U64) returns (hit: bool, mac: Mac)
      requires Valid() && now < U64_MAX
      modifies entries
      ensures Valid() && slot == old(slot)
      ensures hit <==> k in old(Contents())
      ensures hit ==> mac == old(Contents())[k].mac
      ensures Contents() == Looked(old(Contents()), k, now)
    {
      hide HashIp;
      mac := [0, 0, 0, 0, 0, 0];
      var idx := Find(k);
      hit := idx >= 0;
      if hit {
        ghost var E := entries[..];
        mac := entries[idx].mac;
        entries[idx] := entries[idx].(lastSeen := now);
        RefreshKeeps(E, bucket[..], ch, slot, idx, mac, now);
        assert entries[..] == E[idx := E[idx].(mac := mac, lastSeen := now)];
      }
    }

    /** `*cur = next` of the slot at position j of bucket h, where prev is the cell that holds the link, -1 for the head. */
    method SkipLink(h: nat, prev: int, cur: nat, ghost j: nat)
      requires entries.Length == ARP_CAP && bucket.Length == |ch| == ARP_BUCKETS && h < ARP_BUCKETS
      requires j < |ch[h]| && cur == ch[h][j] && prev == if j == 0 then -1 else ch[h][j - 1]
      requires forall i :: 0 <= i < |ch[h]| ==> ch[h][i] < ARP_CAP
      modifies entries, bucket
      ensures entries[..] == Skipped(old(entries[..]), ch[h], j)
      ensures bucket[..] == SkippedHeads(old(bucket[..]), Nexts(old(entries[..])), h, ch[h], j)
    {
      if prev < 0 {
        bucket[h] := entries[cur].next;
      } else {
        entries[prev] := entries[prev].(next := entries[cur].next);
      }
    }

    /** bucket_remove_locked: makes the link that leads to the slot skip it. */
    method BucketRemove(s: nat) returns (ghost p: nat)
      requires Valid() && s < ARP_CAP && entries[s].used
      modifies entries, bucket
      ensures var c := ch[HashIp(old(entries[s].ip))];
              && p < |c| && c[p] == s
              && entries[..] == Skipped(old(entries[..]), c, p)
              && bucket[..] == SkippedHeads(old(bucket[..]), Nexts(old(entries[..])), HashIp(old(entries[s].ip)), c, p)
    {
      hide HashIp;
      var h := HashIp(entries[s].ip);
      ghost var c := ch[h];
      ghost var E := entries[..];
      p := SlotPosition(E, bucket[..], ch, slot, s);
      LinkedIsAcyclic(bucket[h], Nexts(E), c);
      ghost var j := 0;
      var prev := -1;            // the cell whose link `cur` points at; -1 for the bucket head
      var cur := bucket[h];
      while cur >= 0
        invariant j <= p && cur == At(c, j)
        invariant prev == if j == 0 then -1 else c[j - 1]
        decreases |c| - j
      {
        if cur == s {
          assert j == p;
          SkipLink(h, prev, s, p);
          return;
        }
        assert cur in c;
        assert Nexts(E)[c[j]] == At(c, j + 1);
        prev := cur;
        j := j + 1;
        cur := entries[cur].next;
      }
    }

    /** Unlinks and frees the slot at position j of bucket h. */
    method DropAt(h: nat, prev: int, cur: nat, ghost j: nat)
      requires Valid() && h < ARP_BUCKETS
      requires j < |ch[h]| && cur == ch[h][j] && prev == if j == 0 then -1 else ch[h][j - 1]
      modifies this`ch, this`slot, entries, bucket
      ensures Valid() && Contents() == old(Contents()) - {KeyOf(old(entries[cur]))}
    {
      hide HashIp;
      ghost var c, E, B := ch[h], entries[..], bucket[..];
      assert cur in c;
      RemoveKeeps(E, B, ch, slot, h, j, -1);
      SkipLink(h, prev, cur, j);
      entries[cur] := entries[cur].(used := false, next := -1);
      assert entries[..] == Skipped(E, c, j)[cur := Skipped(E, c, j)[cur].(used := false, next := -1)];
      ch, slot := ch[h := Without(c, j)], slot - {KeyOf(E[cur])};
    }

    /** arp_delete. */
    method Delete(k: Key)
      requires Valid()
      modifies this`ch, this`slot, entries, bucket
      ensures Valid() && Contents() == old(Contents()) - {k}
    {
      hide HashIp;
      var h := HashIp(k.ip);
      ghost var c, E, B := ch[h], entries[..], bucket[..];
      ghost var j := 0;
      var prev := -1;
      var cur := bucket[h];
      while cur >= 0
        invariant j <= |c| && cur == At(c, j)
        invariant prev == if j == 0 then -1 else c[j - 1]
        invariant forall i :: 0 <= i < j ==> KeyOf(E[c[i]]) != k
        invariant entries[..] == E && bucket[..] == B
        decreases |c| - j
      {
        assert cur in c;
        var e := entries[cur];
        if e.ip == k.ip && e.ifidx == k.ifidx {
          DropAt(h, prev, cur, j);
          return;
        }
        assert Nexts(E)[c[j]] == At(c, j + 1);
        prev := cur;
        j := j + 1;
        cur := e.next;
      }
      MissMeansAbsent(E, B, ch, slot, k);
      assert Contents() - {k} == Contents();
    }

    /** The first unused slot, or -1. */
    method FreeSlot() returns (v: int)
      requires Valid()
      ensures v >= 0 ==> v < ARP_CAP && !entries[v].used
      ensures v < 0 ==> forall i :: 0 <= i < ARP_CAP ==> entries[i].used
    {
      for i := 0 to ARP_CAP
        invariant forall j :: 0 <= j < i ==> entries[j].used
      {
        if !entries[i].used { return i; }
      }
      return -1;
    }

    /** The first slot with the smallest last_seen. */
    method OldestSlot() returns (v: int)
      requires Valid()
      ensures 0 <= v < ARP_CAP && forall i :: 0 <= i < ARP_CAP ==> entries[v].lastSeen <= entries[i].lastSeen
    {
      v := -1;
      var oldest := U64_MAX;
      for i := 0 to ARP_CAP
        invariant v < i && (i > 0 ==> 0 <= v && entries[v].lastSeen == oldest)
        invariant i == 0 ==> oldest == U64_MAX
        invariant forall j :: 0 <= j < i ==> oldest <= entries[j].lastSeen
      {
        assert entries[..][i].lastSeen < U64_MAX;
        if entries[i].lastSeen < oldest {
          oldest := entries[i].lastSeen;
          v := i;
        }
      }
    }

    /** The tail of arp_insert: writes slot v and pushes it on the bucket of its new address. */
    method Put(v: nat, k: Key, mac: Mac, now: U64)
      requires entries.Length == ARP_CAP && bucket.Length == ARP_BUCKETS && v < ARP_CAP
      modifies entries, bucket
      ensures entries[..] == old(entries[..])[v := Entry(k.ip, k.ifidx, mac, now, true, old(bucket[HashIp(k.ip)]))]
      ensures bucket[..] == old(bucket[..])[HashIp(k.ip) := v]
    {
      hide HashIp;
      var h := HashIp(k.ip);
      entries[v] := Entry(k.ip, k.ifidx, mac, now, true, bucket[h]);
      bucket[h] := v;
    }

    /** arp_insert. */
    method Insert(k: Key, mac: Mac, now: U64)
      requires Valid() && now < U64_MAX
      modifies this`ch, this`slot, entries, bucket
      ensures Valid() && timeout == old(timeout)
      ensures Learned(old(Contents()), k, mac, now, Contents())
    {
      hide HashIp;
      var idx := Find(k);
      ghost var E, B := entries[..], bucket[..];
      if idx >= 0 {
        entries[idx] := entries[idx].(mac := mac, lastSeen := now);
        RefreshKeeps(E, B, ch, slot, idx, mac, now);
        assert entries[..] == E[idx := E[idx].(mac := mac, lastSeen := now)];
        return;
      }
      InsertNew(k, mac, now);
    }

    /** The rest of arp_insert: a free slot, or else the slot of an oldest entry. */
    method InsertNew(k: Key, mac: Mac, now: U64)
      requires Valid() && now < U64_MAX && k !in slot
      modifies this`ch, this`slot, entries, bucket
      ensures Valid() && timeout == old(timeout)
      ensures Learned(old(Contents()), k, mac, now, Contents())
    {
      var v := FreeSlot();
      FullMeansNoFreeSlot(entries[..], bucket[..], ch, slot);
      if v >= 0 {
        RoomLearns(Contents(), k, mac, now);
        TakeFree(v, k, mac, now);
      } else {
        ReplaceOldest(k, mac, now);
      }
    }

    method TakeFree(v: nat, k: Key, mac: Mac, now: U64)
      requires Valid() && now < U64_MAX && k !in slot && v < ARP_CAP && !entries[v].used
      modifies this`ch, this`slot, entries, bucket
      ensures Valid() && Contents() == old(Contents())[k := Seen(mac, now)]
    {
      hide HashIp;
      ghost var g := HashIp(k.ip);
      FillKeeps(entries[..], bucket[..], ch, slot, v, k, mac, now);
      Put(v, k, mac, now);
      ch, slot := ch[g := [v] + ch[g]], slot[k := v];
    }

    method ReplaceOldest(k: Key, mac: Mac, now: U64)
      requires Valid() && now < U64_MAX && k !in slot && forall i :: 0 <= i < ARP_CAP ==> entries[i].used
      modifies this`ch, this`slot, entries, bucket
      ensures Valid() && Learned(old(Contents()), k, mac, now, Contents())
    {
      hide HashIp, Learned;
      ghost var E, B := entries[..], bucket[..];
      var v := OldestSlot();
      ghost var g, h := HashIp(k.ip), HashIp(E[v].ip);
      ghost var p := BucketRemove(v);
      ReplaceKeeps(E, B, ch, slot, h, p, entries[..], bucket[..], ch[h := Without(ch[h], p)], v, k, mac, now);
      Put(v, k, mac, now);
      ghost var ch1 := ch[h := Without(ch[h], p)];
      ch, slot := ch1[g := [v as nat] + ch1[g]], (slot - {KeyOf(E[v])})[k := v];
    }

    /** The body of arp_tick's loop for an expired slot. */
    method Expire(s: nat)
      requires Valid() && s < ARP_CAP && entries[s].used
      modifies this`ch, this`slot, entries, bucket
      ensures Valid() && Contents() == old(Contents()) - {KeyOf(old(entries[s]))}
      ensures forall i {:trigger entries[i]} :: 0 <= i < ARP_CAP ==>
                entries[i].used == (old(entries[i].used) && i != s) && entries[i].lastSeen == old(entries[i].lastSeen)
    {
      hide HashIp;
      ghost var E, B := entries[..], bucket[..];
      ghost var h := HashIp(E[s].ip);
      ghost var p := BucketRemove(s);
      RemoveKeeps(E, B, ch, slot, h, p, -1);
      ghost var E1 := entries[..];
      entries[s] := entries[s].(used := false, next := -1);
      assert entries[..] == E1[s := E1[s].(used := false, next := -1)];
      ch, slot := ch[h := Without(ch[h], p)], slot - {KeyOf(E[s])};
    }

    /** arp_tick, with the clock as it was read before the lock was taken. */
    method Tick(now: U64)
      requires Valid()
      modifies this`ch, this`slot, entries, bucket
      ensures Valid() && timeout == old(timeout)
      ensures Contents() == Aged(old(Contents()), now, timeout)
    {
      hide Inv;
      ghost var m := Contents();
      for i := 0 to ARP_CAP
        invariant Valid() && timeout == old(timeout)
        invariant forall k :: k in Contents() ==> k in m && m[k] == Contents()[k]
        invariant forall k :: k in m && !Expired(m[k].at, now, timeout) ==> k in Contents()
        invariant forall j :: 0 <= j < i && entries[j].used ==> !Expired(entries[j].lastSeen, now, timeout)
      {
        if entries[i].used && Expired(entries[i].lastSeen, now, timeout) {
          EntryIsCached(i);
          Expire(i);
        }
      }
      forall k | k in Contents() ensures !Expired(Contents()[k].at, now, timeout) {
        var j := EntryOf(k);
      }
      assert Contents() == Aged(m, now, timeout);
    }

    lemma EntryIsCached(i: nat)
      requires Valid() && i < ARP_CAP && entries[i].used
      ensures KeyOf(entries[i]) in Contents() && Contents()[KeyOf(entries[i])] == Seen(entries[i].mac, entries[i].lastSeen)
    {
      assert entries[..][i] == entries[i];
    }

    lemma EntryOf(k: Key) returns (i: nat)
      requires Valid() && k in Contents()
      ensures i < ARP_CAP && entries[i].used && Contents()[k].at == entries[i].lastSeen
    {
      i := slot[k];
      assert entries[..][i] == entries[i];
    }
  }

  // ---------------------------------------------------------------- whole runs

  datatype Op =
    | OpLookup(k: Key, now: U64)
    | OpInsert(k: Key, mac: Mac, now: U64)
    | OpDelete(k: Key)
    | OpTick(now: U64)

  ghost predicate OpStep(m: Cache, op: Op, timeout: int, m': Cache) {
    match op
    case OpLookup(k, now) => m' == Looked(m, k, now)
    case OpInsert(k, mac, now) => Learned(m, k, mac, now, m')
    case OpDelete(k) => m' == m - {k}
    case OpTick(now) => m' == Aged(m, now, timeout)
  }

  ghost predicate Behaviour(trace: seq<Cache>, ops: seq<Op>, timeout: int) {
    && |trace| == |ops| + 1
    && forall i {:trigger ops[i]} :: 0 <= i < |ops| ==> OpStep(trace[i], ops[i], timeout, trace[i + 1])
  }

  predicate InTime(op: Op) {
    op.OpDelete? || op.now < U64_MAX
  }

  /** One operation on the table is a step of the map. */
  method Apply(t: Table, op: Op)
    requires t.Valid() && InTime(op)
    modifies t`ch, t`slot, t.entries, t.bucket
    ensures t.Valid() && OpStep(old(t.Contents()), op, t.timeout, t.Contents())
  {
    hide Table.Valid, Table.Contents, Learned;
    match op {
      case OpLookup(k, now) => var _, _ := t.Lookup(k, now);
      case OpInsert(k, mac, now) => t.Insert(k, mac, now);
      case OpDelete(k) => t.Delete(k);
      case OpTick(now) => t.Tick(now);
    }
  }

  lemma BehaviourGrows(trace: seq<Cache>, ops: seq<Op>, i: nat, timeout: int, m: Cache)
    requires i < |ops| && Behaviour(trace, ops[..i], timeout) && OpStep(trace[i], ops[i], timeout, m)
    ensures Behaviour(trace + [m], ops[..i + 1], timeout)
  {
    hide OpStep;
    forall j | 0 <= j <= i ensures OpStep((trace + [m])[j], ops[..i + 1][j], timeout, (trace + [m])[j + 1]) {
      assert j < i ==> ops[..i][j] == ops[j];
    }
  }

  /** Every run of operations on the table is a run of the map. */
  method Replay(t: Table, ops: seq<Op>) returns (ghost trace: seq<Cache>)
    requires t.Valid() && forall i :: 0 <= i < |ops| ==> InTime(ops[i])
    modifies t`ch, t`slot, t.entries, t.bucket
    ensures t.Valid() && Behaviour(trace, ops, t.timeout)
    ensures trace[0] == old(t.Contents()) && trace[|ops|] == t.Contents()
  {
    hide Table.Valid, Table.Contents, OpStep;
    trace := [t.Contents()];
    for i := 0 to |ops|
      invariant t.Valid() && t.timeout == old(t.timeout)
      invariant Behaviour(trace, ops[..i], t.timeout)
      invariant trace[0] == old(t.Contents()) && trace[i] == t.Contents()
    {
      assert InTime(ops[i]);
      Apply(t, ops[i]);
      BehaviourGrows(trace, ops, i, t.timeout, t.Contents());
      trace := trace + [t.Contents()];
    }
    assert ops[..|ops|] == ops;
  }

  /** The code loses a fresh entry: learned at second 11, dropped by a tick that read the clock at second 10. */
  method FreshEntryIsDropped(k: Key, mac: Mac) returns (before: bool, after: bool)
    ensures before && !after
  {
    hide Inv, OpStep, Aged;
    var t := new Table();
    ghost var trace := Replay(t, [OpInsert(k, mac, 11)]);
    LearnsFirst(trace, k, mac, t.timeout);
    var m;
    before, m := t.Lookup(k, 11);
    trace := Replay(t, [OpTick(10)]);
    assert OpStep(trace[0], [OpTick(10)][0], t.timeout, trace[1]);
    LosesFresh(trace[0], trace[1], k, mac);
    after, m := t.Lookup(k, 11);
  }

  lemma LearnsFirst(trace: seq<Cache>, k: Key, mac: Mac, timeout: int)
    requires Behaviour(trace, [OpInsert(k, mac, 11)], timeout) && trace[0] == map[]
    ensures trace[1] == map[k := Seen(mac, 11)] && Looked(trace[1], k, 11) == trace[1]
  {
    assert OpStep(trace[0], [OpInsert(k, mac, 11)][0], timeout, trace[1]);
  }

  lemma LosesFresh(m: Cache, m': Cache, k: Key, mac: Mac)
    requires m == map[k := Seen(mac, 11)] && OpStep(m, OpTick(10), ARP_TMO, m')
    ensures k !in m'
  {
    FreshEntryCanBeLost(k, mac);
  }

  /** The bound is kept by every run. */
  lemma {:induction false} RunStaysBounded(trace: seq<Cache>, ops: seq<Op>, timeout: int, n: nat)
    requires Behaviour(trace, ops, timeout) && n <= |ops| && |trace[0]| <= ARP_CAP
    ensures |trace[n]| <= ARP_CAP
  {
    if n > 0 {
      RunStaysBounded(trace, ops, timeout, n - 1);
      assert OpStep(trace[n - 1], ops[n - 1], timeout, trace[n]);
      StepStaysBounded(trace[n - 1], ops[n - 1], timeout, trace[n]);
    }
  }

  lemma StepStaysBounded(m: Cache, op: Op, timeout: int, m': Cache)
    requires OpStep(m, op, timeout, m') && |m| <= ARP_CAP
    ensures |m'| <= ARP_CAP
  {
    if op.OpInsert? {
      LearnStaysBounded(m, op.k, op.mac, op.now, m');
    } else {
      assert m'.Keys <= m.Keys;
      SubsetSize(m'.Keys, m.Keys);
      assert |m'.Keys| == |m'| && |m.Keys| == |m|;
    }
  }

  lemma LearnStaysBounded(m: Cache, k: Key, mac: Mac, now: int, m': Cache)
    requires Learned(m, k, mac, now, m') && |m| <= ARP_CAP
    ensures |m'| <= ARP_CAP
  {
    if k in m || |m| < ARP_CAP {
      GrownSize(m, k, Seen(mac, now));
    } else {
      var v :| IsOldest(m, v) && m' == (m - {v})[k := Seen(mac, now)];
      ShrunkSize(m, v);
      GrownSize(m - {v}, k, Seen(mac, now));
    }
  }

  lemma GrownSize(m: Cache, k: Key, e: Seen)
    ensures |m[k := e]| == |m| + if k in m then 0 else 1
  {
    assert |m[k := e].Keys| == |m[k := e]| && |m.Keys| == |m|;
    assert m[k := e].Keys == m.Keys + {k};
  }

  lemma ShrunkSize(m: Cache, k: Key)
    requires k in m
    ensures |m - {k}| == |m| - 1
  {
    assert |(m - {k}).Keys| == |m - {k}| && |m.Keys| == |m|;
    assert (m - {k}).Keys == m.Keys - {k};
  }

  predicate Writes(op: Op, k: Key) {
    (op.OpInsert? || op.OpDelete?) && op.k == k
  }

  /** What a hit returns is the MAC of the last insertion of its key, and the key was there ever since. */
  lemma {:induction false} HitIsLastLearned(trace: seq<Cache>, ops: seq<Op>, timeout: int, n: nat, k: Key)
    returns (j: nat)
    requires Behaviour(trace, ops, timeout) && n <= |ops| && k in trace[n] && k !in trace[0]
    ensures j < n && ops[j].OpInsert? && ops[j].k == k && ops[j].mac == trace[n][k].mac
    ensures forall i :: j < i < n ==> !Writes(ops[i], k)
    ensures forall i :: j < i <= n ==> k in trace[i]
  {
    hide OpStep;
    var m, op, m' := trace[n - 1], ops[n - 1], trace[n];
    assert OpStep(m, op, timeout, m');
    if Writes(op, k) {
      WriteLearns(m, op, timeout, m', k);
      j := n - 1;
    } else {
      OthersKeep(m, op, timeout, m', k);
      j := HitIsLastLearned(trace, ops, timeout, n - 1, k);
    }
  }

  lemma WriteLearns(m: Cache, op: Op, timeout: int, m': Cache, k: Key)
    requires OpStep(m, op, timeout, m') && Writes(op, k) && k in m'
    ensures op.OpInsert? && m'[k].mac == op.mac
  {}

  lemma OthersKeep(m: Cache, op: Op, timeout: int, m': Cache, k: Key)
    requires OpStep(m, op, timeout, m') && !Writes(op, k) && k in m'
    ensures k in m && m[k].mac == m'[k].mac
  {}

  // ---------------------------------------------------------------- what use does for an entry

  /** A hit on the key, or its insertion, at time t. */
  predicate UsesAt(m: Cache, op: Op, k: Key, t: int) {
    (op.OpLookup? && op.k == k && k in m && op.now == t) || (op.OpInsert? && op.k == k && op.now == t)
  }

  /**
   An operation that leaves alone an entry used at time t: clocks that are not behind it, no deletion, no tick
   that comes more than the timeout after the use, and no replacement unless another entry is older.
   */
  predicate Spares(m: Cache, op: Op, k: Key, t: int, timeout: int) {
    match op
    case OpLookup(l, now) => l == k ==> t <= now
    case OpInsert(l, mac, now) => if l == k then t <= now else l in m || |m| < ARP_CAP || exists u :: u in m && m[u].at < t
    case OpDelete(l) => l != k
    case OpTick(now) => k in m && m[k].at <= now <= t + timeout
  }

  /** An entry in use stays: it outlives every tick within the timeout of its last use, and older entries. */
  lemma {:induction false} InUseStays(trace: seq<Cache>, ops: seq<Op>, timeout: int, i: nat, n: nat, k: Key, t: int)
    requires Behaviour(trace, ops, timeout) && i < n <= |ops| && UsesAt(trace[i], ops[i], k, t) && 0 <= timeout <= U64_MAX
    requires forall j :: i < j < n ==> Spares(trace[j], ops[j], k, t, timeout)
    ensures k in trace[n] && trace[n][k].at >= t
  {
    hide Spares, Learned;
    assert OpStep(trace[n - 1], ops[n - 1], timeout, trace[n]);
    if i + 1 == n {
      UseStamps(trace[i], ops[i], timeout, trace[n], k, t);
    } else {
      InUseStays(trace, ops, timeout, i, n - 1, k, t);
      SparedStays(trace[n - 1], ops[n - 1], timeout, trace[n], k, t);
    }
  }

  lemma UseStamps(m: Cache, op: Op, timeout: int, m': Cache, k: Key, t: int)
    requires OpStep(m, op, timeout, m') && UsesAt(m, op, k, t)
    ensures k in m' && m'[k].at == t
  {}

  lemma SparedStays(m: Cache, op: Op, timeout: int, m': Cache, k: Key, t: int)
    requires OpStep(m, op, timeout, m') && k in m && m[k].at >= t && Spares(m, op, k, t, timeout) && timeout <= U64_MAX
    ensures k in m' && m'[k].at >= t
  {
    if op.OpTick? {
      assert 0 <= op.now - m[k].at <= timeout;
    }
  }

  /** An entry nobody used since time t leaves at the first tick more than the timeout later. */
  lemma {:induction false} IdleLeaves(trace: seq<Cache>, ops: seq<Op>, timeout: int, i: nat, n: nat, k: Key, t: int)
    requires Behaviour(trace, ops, timeout) && i <= n < |ops| && (k in trace[i] ==> trace[i][k].at == t)
    requires forall j :: i <= j < n ==> !(ops[j].OpLookup? || ops[j].OpInsert?) || ops[j].k != k
    requires ops[n].OpTick? && timeout < ops[n].now - t <= U64_MAX
    ensures k !in trace[n + 1]
  {
    UnusedKeepsStamp(trace, ops, timeout, i, n, k, t);
    assert OpStep(trace[n], ops[n], timeout, trace[n + 1]);
  }

  lemma {:induction false} UnusedKeepsStamp(trace: seq<Cache>, ops: seq<Op>, timeout: int, i: nat, n: nat, k: Key, t: int)
    requires Behaviour(trace, ops, timeout) && i <= n <= |ops| && (k in trace[i] ==> trace[i][k].at == t)
    requires forall j :: i <= j < n ==> !(ops[j].OpLookup? || ops[j].OpInsert?) || ops[j].k != k
    ensures k in trace[n] ==> trace[n][k].at == t
  {
    if i < n {
      UnusedKeepsStamp(trace, ops, timeout, i, n - 1, k, t);
      assert OpStep(trace[n - 1], ops[n - 1], timeout, trace[n]);
    }
  }
}
