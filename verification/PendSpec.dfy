/**
 The pending queue as a value: the nodes in list order, each with its chain of parked frames.
 One function or relation for every critical section of src/forward.c.
 */
module PendSpec {
  import opened Basics

  const PEND_MAX := 256
  const PEND_CHAIN_MAX := 32
  const ARP_RETRY_MAX := 3

  datatype Node = Node(slot: nat, key: Key, retries: int, lastSent: U64, frames: seq<nat>)

  type Pend = seq<Node>

  ghost predicate Inv(p: Pend) {
    && (forall i :: 0 <= i < |p| ==> p[i].slot < PEND_MAX && 1 <= |p[i].frames| <= PEND_CHAIN_MAX)
    && (forall i :: 0 <= i < |p| ==> 0 <= p[i].retries <= ARP_RETRY_MAX)
    && (forall i, j :: 0 <= i < j < |p| ==> p[i].slot != p[j].slot && p[i].key != p[j].key)
  }

  /** The position of the node of a key (find_pend_locked), or -1. */
  function Pos(p: Pend, k: Key): (i: int)
    ensures -1 <= i < |p|
    ensures i >= 0 ==> p[i].key == k
    ensures i < 0 ==> forall j :: 0 <= j < |p| ==> p[j].key != k
  {
    if p == [] then -1
    else if p[0].key == k then 0
    else var i := Pos(p[1..], k); if i < 0 then assert forall j :: 0 < j < |p| ==> p[j] == p[1..][j - 1]; -1 else i + 1
  }

  lemma WithoutLacks(p: Pend, i: nat, k: Key)
    requires i < |p| && Pos(p, k) < 0
    ensures Pos(Without(p, i), k) < 0
  {
    var q := Without(p, i);
    assert forall j :: 0 <= j < |q| ==> q[j] == p[if j < i then j else j + 1];
  }

  ghost predicate SlotTaken(p: Pend, s: int) {
    exists i :: 0 <= i < |p| && p[i].slot == s
  }

  /** The lowest free slot. */
  ghost predicate IsFreeSlot(p: Pend, s: nat) {
    s < PEND_MAX && !SlotTaken(p, s) && forall t :: 0 <= t < s ==> SlotTaken(p, t)
  }

  /** The node alloc_pend_locked evicts: least recently used, lowest slot first; never one stamped UINT64_MAX. */
  ghost predicate IsVictim(p: Pend, v: nat) {
    && v < |p| && p[v].lastSent < U64_MAX
    && forall i :: 0 <= i < |p| ==>
         p[v].lastSent < p[i].lastSent || (p[v].lastSent == p[i].lastSent && p[v].slot <= p[i].slot)
  }

  ghost predicate TakesFree(p: Pend, s: nat, k: Key, blk: nat, now: U64, p': Pend, freed: seq<nat>) {
    IsFreeSlot(p, s) && p' == [Node(s, k, 0, now, [blk])] + p && freed == []
  }

  ghost predicate Evicts(p: Pend, v: nat, k: Key, blk: nat, now: U64, p': Pend, freed: seq<nat>) {
    IsVictim(p, v) && p' == [Node(p[v].slot, k, 0, now, [blk])] + Without(p, v) && freed == p[v].frames
  }

  /** pend_enqueue: join a chain, take a free slot, or evict; `freed` are the frames it frees, in order. */
  ghost predicate Enqueued(p: Pend, k: Key, blk: nat, now: U64, p': Pend, freed: seq<nat>) {
    var i := Pos(p, k);
    if i >= 0 then
      if |p[i].frames| >= PEND_CHAIN_MAX then
        p' == p && freed == [blk]
      else
        p' == p[i := p[i].(frames := [blk] + p[i].frames, lastSent := now)] && freed == []
    else if exists s :: IsFreeSlot(p, s) then
      exists s :: TakesFree(p, s, k, blk, now, p', freed)
    else if exists v :: IsVictim(p, v) then
      exists v :: Evicts(p, v, k, blk, now, p', freed)
    else
      p' == p && freed == [blk]
  }

  /** Which way pend_enqueue went: the chain was full, joined; a slot taken or a node evicted; or no slot at all. */
  datatype Outcome = Full(i: nat) | Joined(i: nat) | Took(s: nat) | Evicted(v: nat) | Refused

  ghost predicate Went(o: Outcome, p: Pend, k: Key, blk: nat, now: U64, p': Pend, freed: seq<nat>) {
    match o
    case Full(i) => i < |p| && p[i].key == k && |p[i].frames| >= PEND_CHAIN_MAX && p' == p && freed == [blk]
    case Joined(i) => i < |p| && p[i].key == k && |p[i].frames| < PEND_CHAIN_MAX && freed == []
                      && p' == p[i := p[i].(frames := [blk] + p[i].frames, lastSent := now)]
    case Took(s) => Pos(p, k) < 0 && TakesFree(p, s, k, blk, now, p', freed)
    case Evicted(v) => Pos(p, k) < 0 && Evicts(p, v, k, blk, now, p', freed)
    case Refused => p' == p && freed == [blk]
  }

  lemma HowItWent(p: Pend, k: Key, blk: nat, now: U64, p': Pend, freed: seq<nat>) returns (o: Outcome)
    requires Enqueued(p, k, blk, now, p', freed)
    ensures Went(o, p, k, blk, now, p', freed)
  {
    hide IsFreeSlot, IsVictim;
    var i := Pos(p, k);
    if i >= 0 {
      o := if |p[i].frames| >= PEND_CHAIN_MAX then Full(i) else Joined(i);
    } else if exists s :: IsFreeSlot(p, s) {
      var s: nat :| TakesFree(p, s, k, blk, now, p', freed);
      o := Took(s);
    } else if exists v :: IsVictim(p, v) {
      var v: nat :| Evicts(p, v, k, blk, now, p', freed);
      o := Evicted(v);
    } else {
      o := Refused;
    }
  }

  /** The critical section of forward_flush_pending: the chain of a key leaves the queue. */
  function Popped(p: Pend, k: Key): (r: (Pend, seq<nat>)) {
    var i := Pos(p, k);
    if i >= 0 then (Without(p, i), p[i].frames) else (p, [])
  }

  /** The critical section of pend_tick: nodes out of retries leave, the others are retried once more. */
  function Retried(p: Pend, now: U64): Pend {
    if p == [] then []
    else if p[0].retries >= ARP_RETRY_MAX then Retried(p[1..], now)
    else [Again(p[0], now)] + Retried(p[1..], now)
  }

  function Again(n: Node, now: U64): Node {
    n.(retries := n.retries + 1, lastSent := now)
  }

  /** One turn of the walk of pend_tick, at position q. */
  function Stepped(p: Pend, q: nat, now: U64): Pend
    requires q < |p|
  {
    if p[q].retries < ARP_RETRY_MAX then p[q := Again(p[q], now)] else Without(p, q)
  }

  /** What is behind the walk after that turn. */
  function Walked(done: Pend, n: Node, now: U64): (d: Pend)
    ensures |d| == |done| + if n.retries < ARP_RETRY_MAX then 1 else 0
  {
    if n.retries < ARP_RETRY_MAX then done + [Again(n, now)] else done
  }

  lemma WalkStep(done: Pend, rest: Pend, now: U64)
    requires rest != []
    ensures (done + rest)[|done|] == rest[0]
    ensures var d := Walked(done, rest[0], now);
            && Stepped(done + rest, |done|, now) == d + rest[1..]
            && done + Retried(rest, now) == d + Retried(rest[1..], now)
            && Keys(d) == if rest[0].retries < ARP_RETRY_MAX then Keys(done) + [rest[0].key] else Keys(done)
  {
    StepSplits(done, rest, now);
    var n := Again(rest[0], now);
    var later := Retried(rest[1..], now);
    assert Retried(rest, now) == if rest[0].retries < ARP_RETRY_MAX then [n] + later else later;
    hide Retried, Stepped;
    SplitAfter(done, n, later);
    KeysGrow(done, n);
  }

  lemma SplitAfter(a: Pend, n: Node, b: Pend)
    ensures a + ([n] + b) == (a + [n]) + b
  {}

  lemma KeysGrow(done: Pend, n: Node)
    ensures Keys(done + [n]) == Keys(done) + [n.key]
  {}

  lemma StepSplits(done: Pend, rest: Pend, now: U64)
    requires rest != []
    ensures (done + rest)[|done|] == rest[0]
    ensures Stepped(done + rest, |done|, now) == Walked(done, rest[0], now) + rest[1..]
  {
    hide Retried;
    var p := done + rest;
    assert p[|done|] == rest[0];
    assert p[..|done|] == done && p[|done| + 1..] == rest[1..];
    if rest[0].retries < ARP_RETRY_MAX {
      var n := Again(rest[0], now);
      assert p[|done| := n] == p[..|done|] + [n] + p[|done| + 1..];
    }
  }

  function GivenUp(p: Pend): seq<nat> {
    if p == [] then []
    else (if p[0].retries >= ARP_RETRY_MAX then p[0].frames else []) + GivenUp(p[1..])
  }

  function Keys(p: Pend): (ks: seq<Key>)
    ensures |ks| == |p|
  {
    seq(|p|, i requires 0 <= i < |p| => p[i].key)
  }

  // ---------------------------------------------------------------- frames are conserved

  function Parked(p: Pend): multiset<nat> {
    if p == [] then multiset{} else multiset(p[0].frames) + Parked(p[1..])
  }

  lemma {:induction false} ParkedConcat(p: Pend, q: Pend)
    ensures Parked(p + q) == Parked(p) + Parked(q)
  {
    if p == [] {
      assert p + q == q;
    } else {
      assert (p + q)[1..] == p[1..] + q;
      ParkedConcat(p[1..], q);
    }
  }

  lemma ParkedSplit(p: Pend, i: nat)
    requires i < |p|
    ensures Parked(p) == Parked(Without(p, i)) + multiset(p[i].frames)
  {
    hide Parked;
    var a, b := p[..i], p[i + 1..];
    assert p == a + ([p[i]] + b);
    ParkedConcat(a, [p[i]] + b);
    ParkedConcat([p[i]], b);
    ParkedConcat(a, b);
    ParkedOne(p[i]);
  }

  lemma ParkedOne(n: Node)
    ensures Parked([n]) == multiset(n.frames)
  {}

  lemma ParkedUpdate(p: Pend, i: nat, n: Node)
    requires i < |p|
    ensures Parked(p[i := n]) == Parked(Without(p, i)) + multiset(n.frames)
  {
    ParkedSplit(p[i := n], i);
    assert Without(p[i := n], i) == Without(p, i);
  }

  lemma {:induction false} EnqueueConserves(p: Pend, k: Key, blk: nat, now: U64, p': Pend, freed: seq<nat>)
    requires Enqueued(p, k, blk, now, p', freed)
    ensures Parked(p') + multiset(freed) == Parked(p) + multiset{blk}
  {
    var o := HowItWent(p, k, blk, now, p', freed);
    hide Enqueued, Parked, IsFreeSlot, IsVictim;
    match o
    case Full(_) =>
    case Joined(i) =>
      ParkedSplit(p, i);
      ParkedUpdate(p, i, p'[i]);
    case Took(s) =>
      ParkedConcat([p'[0]], p);
      ParkedOne(p'[0]);
    case Evicted(v) =>
      ParkedConcat([p'[0]], Without(p, v));
      ParkedOne(p'[0]);
      ParkedSplit(p, v);
    case Refused =>
  }

  lemma PopConserves(p: Pend, k: Key)
    ensures Parked(Popped(p, k).0) + multiset(Popped(p, k).1) == Parked(p)
  {
    var i := Pos(p, k);
    if i >= 0 {
      ParkedSplit(p, i);
    }
  }

  lemma {:induction false} RetryConserves(p: Pend, now: U64)
    ensures Parked(Retried(p, now)) + multiset(GivenUp(p)) == Parked(p)
  {
    if p != [] {
      RetryConserves(p[1..], now);
      if p[0].retries < ARP_RETRY_MAX {
        var n := p[0].(retries := p[0].retries + 1, lastSent := now);
        ParkedConcat([n], Retried(p[1..], now));
        assert [] + GivenUp(p[1..]) == GivenUp(p[1..]);
      }
    }
  }

  /** No frame is parked twice, in one chain or in two. */
  ghost predicate Once(p: Pend) {
    forall b :: Parked(p)[b] <= 1
  }

  /** A frame that is not parked yet joins without becoming parked twice, and no other does. */
  lemma EnqueueParksOnce(p: Pend, k: Key, blk: nat, now: U64, p': Pend, freed: seq<nat>)
    requires Once(p) && blk !in Parked(p) && Enqueued(p, k, blk, now, p', freed)
    ensures Once(p') && forall b :: b in freed ==> b !in Parked(p')
  {
    EnqueueConserves(p, k, blk, now, p', freed);
    hide Enqueued, Parked;
    var all := Parked(p') + multiset(freed);
    forall b ensures Parked(p')[b] <= 1 && (b in freed ==> b !in Parked(p')) {
      assert all[b] == Parked(p')[b] + multiset(freed)[b] == Parked(p)[b] + multiset{blk}[b] <= 1;
    }
  }

  lemma PopParksOnce(p: Pend, k: Key)
    requires Once(p)
    ensures Once(Popped(p, k).0) && forall b :: b in Popped(p, k).1 ==> b !in Parked(Popped(p, k).0)
  {
    PopConserves(p, k);
    hide Popped, Parked;
    var (q, c) := Popped(p, k);
    var all := Parked(q) + multiset(c);
    forall b ensures Parked(q)[b] <= 1 && (b in c ==> b !in Parked(q)) {
      assert all[b] == Parked(q)[b] + multiset(c)[b] == Parked(p)[b] <= 1;
    }
  }

  lemma RetryParksOnce(p: Pend, now: U64)
    requires Once(p)
    ensures Once(Retried(p, now)) && forall b :: b in GivenUp(p) ==> b !in Parked(Retried(p, now))
  {
    RetryConserves(p, now);
    hide Retried, GivenUp, Parked;
    var q, c := Retried(p, now), GivenUp(p);
    var all := Parked(q) + multiset(c);
    forall b ensures Parked(q)[b] <= 1 && (b in c ==> b !in Parked(q)) {
      assert all[b] == Parked(q)[b] + multiset(c)[b] == Parked(p)[b] <= 1;
    }
  }

  // ---------------------------------------------------------------- the invariant is kept

  lemma {:induction false} EnqueueKeeps(p: Pend, k: Key, blk: nat, now: U64, p': Pend, freed: seq<nat>)
    requires Inv(p) && Enqueued(p, k, blk, now, p', freed)
    ensures Inv(p')
  {
    var o := HowItWent(p, k, blk, now, p', freed);
    hide Enqueued, IsFreeSlot, IsVictim, Inv;
    match o
    case Full(_) =>
    case Joined(i) => JoinKeeps(p, i, blk, now);
    case Took(s) =>
      assert s < PEND_MAX && !SlotTaken(p, s) by { FreeSlotIsFree(p, s); }
      PushKeeps(p, p'[0]);
    case Evicted(v) =>
      VictimSlot(p, v);
      WithoutKeeps(p, v);
      WithoutLacks(p, v, k);
      PushKeeps(Without(p, v), p'[0]);
    case Refused =>
  }

  lemma FreeSlotIsFree(p: Pend, s: nat)
    requires IsFreeSlot(p, s)
    ensures s < PEND_MAX && !SlotTaken(p, s)
  {}

  lemma VictimSlot(p: Pend, v: nat)
    requires Inv(p) && IsVictim(p, v)
    ensures v < |p| && p[v].slot < PEND_MAX
  {}

  lemma JoinKeeps(p: Pend, i: nat, blk: nat, now: U64)
    requires Inv(p) && i < |p| && |p[i].frames| < PEND_CHAIN_MAX
    ensures Inv(p[i := p[i].(frames := [blk] + p[i].frames, lastSent := now)])
  {}

  lemma WithoutKeeps(p: Pend, i: nat)
    requires Inv(p) && i < |p|
    ensures Inv(Without(p, i)) && !SlotTaken(Without(p, i), p[i].slot)
    ensures forall j :: 0 <= j < |p| - 1 ==> Without(p, i)[j].key != p[i].key
  {
    var q := Without(p, i);
    assert forall j :: 0 <= j < |q| ==> q[j] == p[if j < i then j else j + 1];
  }

  lemma PushKeeps(p: Pend, n: Node)
    requires Inv(p) && !SlotTaken(p, n.slot) && n.slot < PEND_MAX
    requires 1 <= |n.frames| <= PEND_CHAIN_MAX && 0 <= n.retries <= ARP_RETRY_MAX && forall j :: 0 <= j < |p| ==> p[j].key != n.key
    ensures Inv([n] + p)
  {
    var q := [n] + p;
    assert forall j :: 1 <= j < |q| ==> q[j] == p[j - 1];
  }

  /** Retried nodes are the nodes that had a retry left, in the same order. */
  lemma {:induction false} RetriedNode(p: Pend, now: U64, j: nat) returns (i: nat)
    requires j < |Retried(p, now)|
    ensures j <= i < |p| && p[i].retries < ARP_RETRY_MAX
    ensures Retried(p, now)[j] == p[i].(retries := p[i].retries + 1, lastSent := now)
  {
    if p[0].retries >= ARP_RETRY_MAX {
      i := RetriedNode(p[1..], now, j);
      i := i + 1;
    } else if j == 0 {
      i := 0;
    } else {
      i := RetriedNode(p[1..], now, j - 1);
      i := i + 1;
    }
  }

  lemma {:induction false} RetryKeeps(p: Pend, now: U64)
    requires Inv(p)
    ensures Inv(Retried(p, now))
  {
    if p != [] {
      var q := Retried(p[1..], now);
      RetryKeeps(p[1..], now);
      if p[0].retries < ARP_RETRY_MAX {
        forall j | 0 <= j < |q| ensures q[j].slot != p[0].slot && q[j].key != p[0].key {
          var i := RetriedNode(p[1..], now, j);
          assert p[1..][i] == p[i + 1];
        }
        PushKeeps(q, Retried(p, now)[0]);
      }
    }
  }

  // ---------------------------------------------------------------- how many

  lemma {:induction false} SlotsBound(p: Pend, n: nat)
    requires forall i :: 0 <= i < |p| ==> p[i].slot < n
    requires forall i, j :: 0 <= i < j < |p| ==> p[i].slot != p[j].slot
    ensures |p| <= n
  {
    if p != [] {
      var first := p[0].slot;
      if i :| 0 <= i < |p| && p[i].slot == n - 1 {
        var q := Without(p, i);
        assert forall j :: 0 <= j < |q| ==> q[j] == p[if j < i then j else j + 1];
        SlotsBound(q, n - 1);
      } else {
        SlotsBound(p, n - 1);
      }
    }
  }

  lemma {:induction false} ParkedBound(p: Pend)
    requires forall i :: 0 <= i < |p| ==> |p[i].frames| <= PEND_CHAIN_MAX
    ensures |Parked(p)| <= |p| * PEND_CHAIN_MAX
  {
    if p != [] {
      ParkedBound(p[1..]);
      assert |multiset(p[0].frames)| == |p[0].frames|;
    }
  }

  /** At most PEND_MAX nodes and PEND_MAX * PEND_CHAIN_MAX frames are ever parked. */
  lemma QueueIsBounded(p: Pend)
    requires Inv(p)
    ensures |p| <= PEND_MAX && |Parked(p)| <= PEND_MAX * PEND_CHAIN_MAX
  {
    SlotsBound(p, PEND_MAX);
    ParkedBound(p);
  }

  // ---------------------------------------------------------------- how long

  /** Frame b is parked on a node with r retries behind it. */
  ghost predicate ParkedAt(p: Pend, b: nat, r: int) {
    exists i :: 0 <= i < |p| && b in p[i].frames && p[i].retries == r
  }

  /** Joins, fresh nodes and evictions never reset the retries of a frame that stays. */
  lemma {:induction false} EnqueueKeepsRetries(p: Pend, k: Key, blk: nat, now: U64, p': Pend, freed: seq<nat>, b: nat, r: int)
    requires Enqueued(p, k, blk, now, p', freed) && ParkedAt(p', b, r) && b != blk
    ensures ParkedAt(p, b, r)
  {
    var o := HowItWent(p, k, blk, now, p', freed);
    hide Enqueued, IsFreeSlot, IsVictim, ParkedAt;
    match o
    case Joined(i) => JoinKeepsRetries(p, i, p'[i], blk, b, r);
    case Took(s) => PushKeepsRetries(p'[0], p, b, r);
    case Evicted(v) =>
      PushKeepsRetries(p'[0], Without(p, v), b, r);
      WithoutKeepsRetries(p, v, b, r);
    case _ =>
  }

  lemma JoinKeepsRetries(p: Pend, i: nat, n: Node, blk: nat, b: nat, r: int)
    requires i < |p| && n.frames == [blk] + p[i].frames && n.retries == p[i].retries
    requires ParkedAt(p[i := n], b, r) && b != blk
    ensures ParkedAt(p, b, r)
  {
    var j :| 0 <= j < |p| && b in p[i := n][j].frames && p[i := n][j].retries == r;
    assert b in p[j].frames && p[j].retries == r;
  }

  lemma PushKeepsRetries(n: Node, p: Pend, b: nat, r: int)
    requires ParkedAt([n] + p, b, r) && b !in n.frames
    ensures ParkedAt(p, b, r)
  {
    var q := [n] + p;
    var j :| 0 <= j < |q| && b in q[j].frames && q[j].retries == r;
    assert q[j] == p[j - 1];
  }

  lemma WithoutKeepsRetries(p: Pend, i: nat, b: nat, r: int)
    requires i < |p| && ParkedAt(Without(p, i), b, r)
    ensures ParkedAt(p, b, r)
  {
    var q := Without(p, i);
    var j :| 0 <= j < |q| && b in q[j].frames && q[j].retries == r;
    assert q[j] == p[if j < i then j else j + 1];
  }

  /** No chain of the key is left behind a pop. */
  lemma PopLeavesNone(p: Pend, k: Key)
    requires Inv(p)
    ensures Pos(Popped(p, k).0, k) < 0
  {
    var i := Pos(p, k);
    if i >= 0 {
      forall j | 0 <= j < |Without(p, i)| ensures Without(p, i)[j].key != k {
        var x := if j < i then j else j + 1;
        assert Without(p, i)[j] == p[x] && p[x].key != p[i].key;
      }
    }
  }

  lemma PopKeepsRetries(p: Pend, k: Key, b: nat, r: int)
    requires ParkedAt(Popped(p, k).0, b, r)
    ensures ParkedAt(p, b, r)
  {
    var i := Pos(p, k);
    if i >= 0 {
      WithoutKeepsRetries(p, i, b, r);
    }
  }

  /** A frame that survives a tick had a retry left and has used one up. */
  lemma RetryAges(p: Pend, now: U64, b: nat, r: int)
    requires ParkedAt(Retried(p, now), b, r)
    ensures ParkedAt(p, b, r - 1) && r <= ARP_RETRY_MAX
  {
    var q := Retried(p, now);
    var j :| 0 <= j < |q| && b in q[j].frames && q[j].retries == r;
    var i := RetriedNode(p, now, j);
    assert b in p[i].frames && p[i].retries == r - 1;
  }

  // ---------------------------------------------------------------- a whole tick

  /** The nodes whose key is not resolved. */
  function Unresolved(p: Pend, r: set<Key>): Pend {
    if p == [] then []
    else if p[0].key in r then Unresolved(p[1..], r)
    else [p[0]] + Unresolved(p[1..], r)
  }

  /** The frames of the others, chain by chain. */
  function Released(p: Pend, r: set<Key>): seq<nat> {
    if p == [] then []
    else (if p[0].key in r then p[0].frames else []) + Released(p[1..], r)
  }

  lemma {:induction false} UnresolvedHasNoResolved(p: Pend, r: set<Key>)
    ensures forall i :: 0 <= i < |Unresolved(p, r)| ==> Unresolved(p, r)[i].key !in r
  {
    if p != [] {
      UnresolvedHasNoResolved(p[1..], r);
    }
  }

  /** Popping the key of the first node of `rest`, when no other node has it. */
  lemma PopNext(done: Pend, rest: Pend)
    requires rest != [] && Inv(done + rest)
    ensures Popped(done + rest, rest[0].key) == (done + rest[1..], rest[0].frames)
  {
    var p, i := done + rest, |done|;
    var j := Pos(p, rest[0].key);
    assert p[i] == rest[0];
    assert j == i;
    assert Without(p, i) == done + rest[1..];
  }

  /** Part of the way through a tick over q: `done` stays, `out` was sent, `rest` is ahead. */
  ghost predicate TickProgress(q: Pend, r: set<Key>, done: Pend, out: seq<nat>, rest: Pend) {
    && done + Unresolved(rest, r) == Unresolved(q, r)
    && out + Released(rest, r) == Released(q, r)
  }

  lemma TickStart(q: Pend, r: set<Key>)
    ensures TickProgress(q, r, [], [], q) && [] + q == q
  {}

  lemma TickStep(q: Pend, r: set<Key>, done: Pend, out: seq<nat>, rest: Pend)
    requires rest != [] && TickProgress(q, r, done, out, rest)
    ensures if rest[0].key in r then
              TickProgress(q, r, done, out + rest[0].frames, rest[1..])
            else
              TickProgress(q, r, done + [rest[0]], out, rest[1..]) && done + rest == (done + [rest[0]]) + rest[1..]
  {
    var u, f := Unresolved(rest[1..], r), Released(rest[1..], r);
    if rest[0].key in r {
      Assoc(out, rest[0].frames, f);
    } else {
      assert [] + f == f && rest == [rest[0]] + rest[1..];
      Assoc(done, [rest[0]], u);
      Assoc(done, [rest[0]], rest[1..]);
    }
  }

  lemma TickEnd(q: Pend, r: set<Key>, done: Pend, out: seq<nat>)
    requires TickProgress(q, r, done, out, [])
    ensures done + [] == done == Unresolved(q, r) && out == Released(q, r)
  {
    assert done + [] == done && out + [] == out;
  }

  lemma Assoc<T>(a: seq<T>, b: seq<T>, c: seq<T>)
    ensures a + (b + c) == (a + b) + c
  {}
}
