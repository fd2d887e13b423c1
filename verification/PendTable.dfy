/**
 The pending table of src/forward.c: a fixed array of nodes threaded by `next`, each with a chain of
 frames threaded through the blocks of the pool. Every critical section is proved against PendSpec.
 */
module PendTable {
  import opened Basics
  import opened IndexList
  import opened MemPool
  import PS = PendSpec

  datatype Slot = Slot(nexthop: Ip, ifidx: int, retries: int, lastSent: U64, chain: int, chainLen: int, next: int, used: bool)

  function KeyOf(n: Slot): Key { Key(n.nexthop, n.ifidx) }

  function Nexts(N: seq<Slot>): (n: seq<int>)
    ensures |n| == |N|
  {
    seq(|N|, i requires 0 <= i < |N| => N[i].next)
  }

  function Chains(N: seq<Slot>): (n: seq<int>)
    ensures |n| == |N|
  {
    seq(|N|, i requires 0 <= i < |N| => N[i].chain)
  }

  /**
   The list from `head` ends and visits exactly the used slots (but for `hole`, a slot taken off the
   list and not yet refilled); the chains are disjoint, and as long as chain_len says.
   */
  ghost predicate Inv(N: seq<Slot>, head: int, order: seq<nat>, frames: seq<seq<nat>>, blocks: seq<Frame>, hole: int) {
    && |N| == |frames| == PS.PEND_MAX
    && Linked(head, Nexts(N), order)
    && Buckets(Chains(N), BlockNexts(blocks), frames)
    && Members(N, order, frames, hole) && KeysApart(N, order)
  }

  ghost predicate Members(N: seq<Slot>, order: seq<nat>, frames: seq<seq<nat>>, hole: int)
    requires |N| == |frames| == PS.PEND_MAX
  {
    && (forall s: nat {:trigger s in order} :: s in order <==> s < PS.PEND_MAX && N[s].used && s != hole)
    && (forall s: nat {:trigger frames[s]} :: s < PS.PEND_MAX ==> SlotFine(N[s], s in order, frames[s]))
  }

  predicate SlotFine(n: Slot, listed: bool, c: seq<nat>) {
    && n.chainLen == |c|
    && if listed then 1 <= |c| <= PS.PEND_CHAIN_MAX && 0 <= n.retries <= PS.ARP_RETRY_MAX else c == []
  }

  ghost predicate KeysApart(N: seq<Slot>, order: seq<nat>)
    requires forall s: nat :: s in order ==> s < |N|
  {
    forall s: nat, t: nat :: s in order && t in order && s != t ==> KeyOf(N[s]) != KeyOf(N[t])
  }

  ghost function NodeAt(N: seq<Slot>, frames: seq<seq<nat>>, s: nat): PS.Node
    requires s < |N| == |frames|
  {
    PS.Node(s, KeyOf(N[s]), N[s].retries, N[s].lastSent, frames[s])
  }

  /** The queue as a value. */
  ghost function Queue(N: seq<Slot>, order: seq<nat>, frames: seq<seq<nat>>): (p: PS.Pend)
    requires |N| == |frames| && forall j :: 0 <= j < |order| ==> order[j] < |N|
    ensures |p| == |order|
  {
    seq(|order|, j requires 0 <= j < |order| => NodeAt(N, frames, order[j]))
  }

  // ---------------------------------------------------------------- what each step of the code keeps

  lemma QueueIsValid(N: seq<Slot>, head: int, order: seq<nat>, frames: seq<seq<nat>>, blocks: seq<Frame>, hole: int)
    requires Inv(N, head, order, frames, blocks, hole)
    ensures PS.Inv(Queue(N, order, frames))
  {
    LinkedIsAcyclic(head, Nexts(N), order);
    var p := Queue(N, order, frames);
    forall j | 0 <= j < |p|
      ensures p[j].slot < PS.PEND_MAX && 1 <= |p[j].frames| <= PS.PEND_CHAIN_MAX && 0 <= p[j].retries <= PS.ARP_RETRY_MAX
    {
      assert order[j] in order && p[j].frames == frames[order[j]];
    }
    forall i, j | 0 <= i < j < |p| ensures p[i].slot != p[j].slot && p[i].key != p[j].key {
      assert order[i] in order && order[j] in order;
    }
  }

  function Skipped(N: seq<Slot>, c: seq<nat>, q: nat): (N': seq<Slot>)
    requires q < |c| && forall j :: 0 <= j < |c| ==> c[j] < |N|
    ensures |N'| == |N|
    ensures Nexts(N') == SkippedNext(Nexts(N), c, q)
  {
    if q == 0 then N else N[c[q - 1] := N[c[q - 1]].(next := N[c[q]].next)]
  }

  /** Taking the node at position q off the list and its chain away. */
  lemma {:induction false} UnhookKeeps(N: seq<Slot>, head: int, order: seq<nat>, frames: seq<seq<nat>>, blocks: seq<Frame>,
                                       q: nat, used: bool)
    requires Inv(N, head, order, frames, blocks, -1) && q < |order|
    ensures var s := order[q];
            var N1 := Skipped(N, order, q);
            var N' := N1[s := N1[s].(chain := -1, chainLen := 0, used := used)];
            && Inv(N', if q == 0 then N[s].next else head, Without(order, q), frames[s := []], blocks, if used then s else -1)
            && Queue(N', Without(order, q), frames[s := []]) == Without(Queue(N, order, frames), q)
  {
    var s := order[q];
    OrderIsBelow(N, order, frames, -1);
    LinkedIsAcyclic(head, Nexts(N), order);
    LinkedUnlink(head, Nexts(N), order, q);
    BucketsClear(Chains(N), BlockNexts(blocks), frames, s);
    var N1 := Skipped(N, order, q);
    var N' := N1[s := N1[s].(chain := -1, chainLen := 0, used := used)];
    assert Nexts(N') == Nexts(N1) && Chains(N') == Chains(N)[s := -1];
    assert forall t: nat {:trigger N'[t]} :: t < |N| && t != s ==> N'[t] == N[t].(next := N'[t].next);
    hide Members, KeysApart, Linked, Buckets, Skipped;
    UnhookedMembers(N, N', order, frames, q, used);
    UnhookedQueue(N, N', order, frames, q);
  }

  lemma OrderIsBelow(N: seq<Slot>, order: seq<nat>, frames: seq<seq<nat>>, hole: int)
    requires |N| == |frames| == PS.PEND_MAX && Members(N, order, frames, hole)
    ensures forall j :: 0 <= j < |order| ==> order[j] < |N|
    ensures forall s: nat :: s in order ==> s < |N|
  {
    assert forall j :: 0 <= j < |order| ==> order[j] in order;
  }

  lemma UnhookedMembers(N: seq<Slot>, N': seq<Slot>, order: seq<nat>, frames: seq<seq<nat>>, q: nat, used: bool)
    requires |N| == |N'| == |frames| == PS.PEND_MAX && q < |order| && Distinct(order) && Members(N, order, frames, -1) && order[q] < |N|
    requires KeysApart(N, order)
    requires forall t: nat {:trigger N'[t]} :: t < |N| && t != order[q] ==> N'[t] == N[t].(next := N'[t].next)
    requires N'[order[q]].used == used && N'[order[q]].chainLen == 0
    ensures Members(N', Without(order, q), frames[order[q] := []], if used then order[q] else -1)
    ensures KeysApart(N', Without(order, q))
  {
    hide SlotFine;
    var s, order', frames' := order[q], Without(order, q), frames[order[q] := []];
    assert s in order;
    forall t: nat ensures t in order' <==> t in order && t != s {
      WithoutMember(order, q, t);
    }
    forall t: nat | t < PS.PEND_MAX ensures SlotFine(N'[t], t in order', frames'[t]) {
      if t == s {
        EmptySlot(N'[t], frames'[t]);
      } else {
        assert frames'[t] == frames[t];
        SlotStays(N[t], N'[t], t in order, frames[t]);
      }
    }
    forall t: nat, u: nat | t in order' && u in order' && t != u ensures KeyOf(N'[t]) != KeyOf(N'[u]) {
      assert KeyOf(N'[t]) == KeyOf(N[t]) && KeyOf(N'[u]) == KeyOf(N[u]);
    }
  }

  lemma EmptySlot(n: Slot, c: seq<nat>)
    requires n.chainLen == 0 && c == []
    ensures SlotFine(n, false, c)
  {}

  lemma SlotStays(n: Slot, n': Slot, listed: bool, c: seq<nat>)
    requires SlotFine(n, listed, c) && n' == n.(next := n'.next)
    ensures SlotFine(n', listed, c)
  {}

  lemma UnhookedQueue(N: seq<Slot>, N': seq<Slot>, order: seq<nat>, frames: seq<seq<nat>>, q: nat)
    requires |N| == |N'| == |frames| && q < |order| && Distinct(order)
    requires forall j :: 0 <= j < |order| ==> order[j] < |N|
    requires forall t: nat {:trigger N'[t]} :: t < |N| && t != order[q] ==> N'[t] == N[t].(next := N'[t].next)
    ensures forall j {:trigger Without(order, q)[j]} :: 0 <= j < |order| - 1 ==> Without(order, q)[j] < |N|
    ensures Queue(N', Without(order, q), frames[order[q] := []]) == Without(Queue(N, order, frames), q)
  {
    var order', frames' := Without(order, q), frames[order[q] := []];
    var p, p' := Queue(N, order, frames), Queue(N', order', frames');
    forall j | 0 <= j < |order| - 1 ensures Without(order, q)[j] < |N| && p'[j] == Without(p, q)[j] {
      var i := if j < q then j else j + 1;
      assert order'[j] == order[i] && order[i] != order[q];
    }
    assert |p'| == |Without(p, q)|;
  }

  /** Putting a fresh one-frame node for a key nobody has at the head of the list. */
  lemma {:induction false} HookKeeps(N: seq<Slot>, head: int, order: seq<nat>, frames: seq<seq<nat>>, blocks: seq<Frame>, hole: int,
                                     s: nat, k: Key, now: U64, blk: nat)
    requires Inv(N, head, order, frames, blocks, hole) && s < PS.PEND_MAX && s !in order && (hole == -1 || hole == s)
    requires blk < |blocks| && blocks[blk].next == -1
    requires forall t: nat :: t < PS.PEND_MAX ==> blk !in frames[t]
    requires forall t: nat :: t in order ==> KeyOf(N[t]) != k
    ensures var N' := N[s := Slot(k.ip, k.ifidx, 0, now, blk, 1, head, true)];
            && Inv(N', s, [s] + order, frames[s := [blk]], blocks, -1)
            && Queue(N', [s] + order, frames[s := [blk]]) == [PS.Node(s, k, 0, now, [blk])] + Queue(N, order, frames)
  {
    var N' := N[s := Slot(k.ip, k.ifidx, 0, now, blk, 1, head, true)];
    var order', frames' := [s] + order, frames[s := [blk]];
    LinkedPush(head, Nexts(N), order, s);
    assert Nexts(N') == Nexts(N)[s := head];
    assert frames[s] == [];
    assert Linked(Chains(N)[s], BlockNexts(blocks), frames[s]);
    BucketsPush(Chains(N), BlockNexts(blocks), frames, s, blk);
    assert Chains(N') == Chains(N)[s := blk];
    assert BlockNexts(blocks)[blk := -1] == BlockNexts(blocks);
    assert [blk] + frames[s] == [blk];
    assert forall t: nat :: t in order' <==> t == s || t in order;
    assert forall t: nat {:trigger frames'[t]} :: t < |N| && t != s ==> frames'[t] == frames[t] && N'[t] == N[t];
  }

  /** Pushing one more frame on the chain of the node at position q. */
  lemma {:induction false} JoinKeeps(N: seq<Slot>, head: int, order: seq<nat>, frames: seq<seq<nat>>, blocks: seq<Frame>,
                                     q: nat, now: U64, blk: nat)
    requires Inv(N, head, order, frames, blocks, -1) && q < |order| && |frames[order[q]]| < PS.PEND_CHAIN_MAX
    requires blk < |blocks|
    requires forall t: nat :: t < PS.PEND_MAX ==> blk !in frames[t]
    ensures var s := order[q];
            var N' := N[s := N[s].(chain := blk, chainLen := N[s].chainLen + 1, lastSent := now)];
            var frames' := frames[s := [blk] + frames[s]];
            var p := Queue(N, order, frames);
            && Inv(N', head, order, frames', blocks[blk := blocks[blk].(next := N[s].chain)], -1)
            && Queue(N', order, frames') == p[q := p[q].(frames := [blk] + p[q].frames, lastSent := now)]
  {
    var s := order[q];
    OrderIsBelow(N, order, frames, -1);
    var N' := N[s := N[s].(chain := blk, chainLen := N[s].chainLen + 1, lastSent := now)];
    var frames' := frames[s := [blk] + frames[s]];
    var blocks' := blocks[blk := blocks[blk].(next := N[s].chain)];
    LinkedIsAcyclic(head, Nexts(N), order);
    BucketsPush(Chains(N), BlockNexts(blocks), frames, s, blk);
    assert Nexts(N') == Nexts(N) && Chains(N') == Chains(N)[s := blk];
    assert BlockNexts(blocks') == BlockNexts(blocks)[blk := N[s].chain];
    assert forall t: nat {:trigger frames'[t]} {:trigger N'[t]} :: t < |N| && t != s ==> frames'[t] == frames[t] && N'[t] == N[t];
    GrownSlot(N, order, frames, s, N'[s], frames'[s]);
    hide Members, KeysApart, Linked, Buckets;
    MembersUpdate(N, N', order, frames, frames', s);
    QueueUpdate(N, N', order, frames, frames', q);
  }

  lemma GrownSlot(N: seq<Slot>, order: seq<nat>, frames: seq<seq<nat>>, s: nat, n: Slot, c: seq<nat>)
    requires |N| == |frames| == PS.PEND_MAX && Members(N, order, frames, -1) && s in order && |frames[s]| < PS.PEND_CHAIN_MAX
    requires n.used == N[s].used && n.retries == N[s].retries && n.chainLen == N[s].chainLen + 1 && |c| == |frames[s]| + 1
    ensures n.used && SlotFine(n, true, c)
  {}

  lemma CountedSlot(N: seq<Slot>, order: seq<nat>, frames: seq<seq<nat>>, s: nat, n: Slot)
    requires |N| == |frames| == PS.PEND_MAX && Members(N, order, frames, -1) && s in order && N[s].retries < PS.ARP_RETRY_MAX
    requires n == N[s].(retries := N[s].retries + 1, lastSent := n.lastSent)
    ensures n.used && SlotFine(n, true, frames[s])
  {}

  /** A listed slot that stays fine and keeps its key. */
  lemma MembersUpdate(N: seq<Slot>, N': seq<Slot>, order: seq<nat>, frames: seq<seq<nat>>, frames': seq<seq<nat>>, s: nat)
    requires |N| == |N'| == |frames| == |frames'| == PS.PEND_MAX && Members(N, order, frames, -1) && KeysApart(N, order)
    requires s in order && s < |N| && N'[s].used && SlotFine(N'[s], true, frames'[s]) && KeyOf(N'[s]) == KeyOf(N[s])
    requires forall t: nat {:trigger N'[t]} {:trigger frames'[t]} :: t < |N| && t != s ==> N'[t] == N[t] && frames'[t] == frames[t]
    ensures Members(N', order, frames', -1) && KeysApart(N', order)
  {
    hide SlotFine;
    forall t: nat | t < PS.PEND_MAX ensures SlotFine(N'[t], t in order, frames'[t]) {
      assert t != s ==> N'[t] == N[t] && frames'[t] == frames[t];
    }
    forall t: nat | t in order ensures KeyOf(N'[t]) == KeyOf(N[t]) {
      assert t != s ==> N'[t] == N[t];
    }
  }

  /** Counting one more retry on the node at position q. */
  lemma {:induction false} CountKeeps(N: seq<Slot>, head: int, order: seq<nat>, frames: seq<seq<nat>>, blocks: seq<Frame>,
                                      q: nat, now: U64)
    requires Inv(N, head, order, frames, blocks, -1) && q < |order| && N[order[q]].retries < PS.ARP_RETRY_MAX
    ensures var s := order[q];
            var N' := N[s := N[s].(retries := N[s].retries + 1, lastSent := now)];
            var p := Queue(N, order, frames);
            && Inv(N', head, order, frames, blocks, -1)
            && Queue(N', order, frames) == p[q := p[q].(retries := p[q].retries + 1, lastSent := now)]
  {
    var s := order[q];
    OrderIsBelow(N, order, frames, -1);
    var N' := N[s := N[s].(retries := N[s].retries + 1, lastSent := now)];
    LinkedIsAcyclic(head, Nexts(N), order);
    assert Nexts(N') == Nexts(N) && Chains(N') == Chains(N);
    assert forall t: nat {:trigger N'[t]} :: t < |N| && t != s ==> N'[t] == N[t];
    CountedSlot(N, order, frames, s, N'[s]);
    hide Members, KeysApart, Linked, Buckets;
    MembersUpdate(N, N', order, frames, frames, s);
    QueueUpdate(N, N', order, frames, frames, q);
  }

  /** Only the node at position q differs. */
  lemma QueueUpdate(N: seq<Slot>, N': seq<Slot>, order: seq<nat>, frames: seq<seq<nat>>, frames': seq<seq<nat>>, q: nat)
    requires |N| == |N'| == |frames| == |frames'| && q < |order| && Distinct(order)
    requires forall j :: 0 <= j < |order| ==> order[j] < |N|
    requires forall t: nat {:trigger N'[t]} {:trigger frames'[t]} :: t < |N| && t != order[q] ==> N'[t] == N[t] && frames'[t] == frames[t]
    ensures Queue(N', order, frames') == Queue(N, order, frames)[q := NodeAt(N', frames', order[q])]
  {
    forall j | 0 <= j < |order| && j != q ensures NodeAt(N', frames', order[j]) == NodeAt(N, frames, order[j]) {
      assert order[j] != order[q];
      assert N'[order[j]] == N[order[j]];
    }
  }

  /** Blocks that are not parked may change as they like. */
  lemma BlocksFrame(N: seq<Slot>, head: int, order: seq<nat>, frames: seq<seq<nat>>, blocks: seq<Frame>, blocks': seq<Frame>, hole: int)
    requires Inv(N, head, order, frames, blocks, hole) && |blocks| <= |blocks'|
    requires forall s: nat, b :: s < PS.PEND_MAX && b in frames[s] && b < |blocks| ==> blocks'[b].next == blocks[b].next
    ensures Inv(N, head, order, frames, blocks', hole)
  {
    forall h | 0 <= h < |frames| ensures Linked(Chains(N)[h], BlockNexts(blocks'), frames[h]) {
      var c := frames[h];
      assert Linked(Chains(N)[h], BlockNexts(blocks), c);
      forall j | 0 <= j < |c| ensures c[j] < |blocks'| && BlockNexts(blocks')[c[j]] == At(c, j + 1) {
        assert c[j] in c && BlockNexts(blocks)[c[j]] == At(c, j + 1);
      }
    }
  }

  /** The slots in use, as the value sees them. */
  lemma TakenSlots(N: seq<Slot>, order: seq<nat>, frames: seq<seq<nat>>, s: nat)
    requires |N| == |frames| && forall j :: 0 <= j < |order| ==> order[j] < |N|
    ensures PS.SlotTaken(Queue(N, order, frames), s) <==> s in order
  {
    var p := Queue(N, order, frames);
    if s in order {
      var j :| 0 <= j < |order| && order[j] == s;
      assert p[j].slot == s;
    }
  }

  /** The frames of all chains. */
  function AllIn(frames: seq<seq<nat>>): set<nat> {
    set s: nat, b | s < |frames| && b in frames[s] :: b
  }

  ghost predicate Disjoint(frames: seq<seq<nat>>) {
    forall g, h, i {:trigger i in frames[g], i in frames[h]} ::
      0 <= g < |frames| && 0 <= h < |frames| && i in frames[g] && i in frames[h] ==> g == h
  }

  lemma ChainIsIn(frames: seq<seq<nat>>, s: nat)
    requires s < |frames|
    ensures Elements(frames[s]) <= AllIn(frames)
  {
    assert forall b :: b in frames[s] ==> b in AllIn(frames);
  }

  lemma ClearedFrames(frames: seq<seq<nat>>, s: nat)
    requires s < |frames| && Disjoint(frames)
    ensures AllIn(frames[s := []]) == AllIn(frames) - Elements(frames[s])
  {
    var frames' := frames[s := []];
    forall b | b in AllIn(frames) && b !in frames[s] ensures b in AllIn(frames') {
      var t: nat :| t < |frames| && b in frames[t];
      assert b in frames'[t];
    }
    forall b | b in AllIn(frames') ensures b in AllIn(frames) && b !in frames[s] {
      var t: nat :| t < |frames'| && b in frames'[t];
      assert b in frames[t];
    }
  }

  lemma PushedFrame(frames: seq<seq<nat>>, s: nat, b: nat)
    requires s < |frames|
    ensures AllIn(frames[s := [b] + frames[s]]) == AllIn(frames) + {b}
  {
    var frames' := frames[s := [b] + frames[s]];
    assert b in frames'[s];
    forall c | c in AllIn(frames) ensures c in AllIn(frames') {
      var t: nat :| t < |frames| && c in frames[t];
      assert c in frames'[t];
    }
    forall c | c in AllIn(frames') && c != b ensures c in AllIn(frames) {
      var t: nat :| t < |frames'| && c in frames'[t];
      assert c in frames[t];
    }
  }

  // ---------------------------------------------------------------- the code

  /** `while (ch) { b = ch; ch = b->next; mp_free(b); }` */
  method FreeChain(pool: Pool, first: int, ghost c: seq<nat>)
    requires pool.Valid() && Linked(first, BlockNexts(pool.blocks), c)
    requires Elements(c) <= pool.Out()
    modifies pool`freeTop, pool`heapLive, pool.freeStack
    ensures pool.Valid() && pool.Out() == old(pool.Out()) - Elements(c) && pool.freeTop >= old(pool.freeTop)
  {
    LinkedIsAcyclic(first, BlockNexts(pool.blocks), c);
    var ch := first;
    ghost var j := 0;
    while ch >= 0
      invariant j <= |c| && ch == At(c, j) && pool.Valid()
      invariant pool.Out() == old(pool.Out()) - Elements(c[..j]) && pool.freeTop >= old(pool.freeTop)
      decreases |c| - j
    {
      var b := ch;
      assert BlockNexts(pool.blocks)[c[j]] == At(c, j + 1);
      ch := pool.blocks[b].next;
      assert c[..j + 1] == c[..j] + [c[j]];
      assert c[j] in Elements(c);
      pool.Release(b);
      j := j + 1;
    }
    assert c[..|c|] == c;
  }

  /** The slot alloc_pend_locked returns, and the position of the node it evicts for it, -1 for none. */
  ghost predicate PicksFor(p: PS.Pend, idx: int, v: int) {
    if v >= 0 then
      PS.IsVictim(p, v) && p[v].slot == idx && !exists s :: PS.IsFreeSlot(p, s)
    else if idx >= 0 then
      PS.IsFreeSlot(p, idx)
    else
      (!exists s :: PS.IsFreeSlot(p, s)) && !exists u :: PS.IsVictim(p, u)
  }

  lemma FreeIsHole(N: seq<Slot>, head: int, order: seq<nat>, frames: seq<seq<nat>>, blocks: seq<Frame>, s: nat)
    requires Inv(N, head, order, frames, blocks, -1) && s !in order && s < PS.PEND_MAX
    ensures Inv(N, head, order, frames, blocks, s)
  {
    hide Linked, Buckets, KeysApart, SlotFine;
  }

  /** A full table: what the scan found is what alloc_pend_locked evicts, if it found any. */
  lemma FullPicks(N: seq<Slot>, order: seq<nat>, frames: seq<seq<nat>>, victim: int) returns (v: int)
    requires |N| == |frames| == PS.PEND_MAX && -1 <= victim < PS.PEND_MAX
    requires (forall j :: 0 <= j < |order| ==> order[j] < |N|) && forall s: nat :: s < PS.PEND_MAX ==> s in order
    requires victim >= 0 ==> N[victim].lastSent < U64_MAX && forall t :: 0 <= t < PS.PEND_MAX ==>
               N[victim].lastSent < N[t].lastSent || (N[victim].lastSent == N[t].lastSent && victim <= t)
    requires victim < 0 ==> forall t :: 0 <= t < PS.PEND_MAX ==> N[t].lastSent == U64_MAX
    ensures PicksFor(Queue(N, order, frames), victim, v)
    ensures if victim < 0 then v == -1 else 0 <= v < |order| && order[v] == victim
  {
    var p := Queue(N, order, frames);
    forall s: nat | s < PS.PEND_MAX ensures PS.SlotTaken(p, s) { TakenSlots(N, order, frames, s); }
    hide PS.SlotTaken;
    assert !exists s :: PS.IsFreeSlot(p, s);
    v := -1;
    if victim >= 0 {
      assert victim in order;
      v :| 0 <= v < |order| && order[v] == victim;
      assert PS.IsVictim(p, v);
    }
  }

  lemma PicksEnqueue(p: PS.Pend, idx: int, v: int, k: Key, blk: nat, now: U64)
    requires PS.Pos(p, k) < 0 && PicksFor(p, idx, v)
    ensures var p1 := if v >= 0 then Without(p, v) else p;
            if idx < 0 then PS.Enqueued(p, k, blk, now, p, [blk])
            else PS.Enqueued(p, k, blk, now, [PS.Node(idx, k, 0, now, [blk])] + p1, if v >= 0 then p[v].frames else [])
  {
    if v >= 0 {
      assert PS.Evicts(p, v, k, blk, now, [PS.Node(idx, k, 0, now, [blk])] + Without(p, v), p[v].frames);
    } else if idx >= 0 {
      assert PS.TakesFree(p, idx, k, blk, now, [PS.Node(idx, k, 0, now, [blk])] + p, []);
    }
  }

  class Table {
    const nodes: array<Slot>
    const pool: Pool
    var head: int
    ghost var order: seq<nat>
    ghost var frames: seq<seq<nat>>

    ghost predicate Shape(hole: int)
      reads this, nodes, pool, pool.freeStack
    {
      && nodes.Length == PS.PEND_MAX && pool.Valid() && Indexable()
      && Inv(nodes[..], head, order, frames, pool.blocks, hole)
      && AllIn(frames) <= pool.Out()
    }

    ghost predicate Valid()
      reads this, nodes, pool, pool.freeStack
    {
      Shape(-1)
    }

    ghost predicate Indexable()
      reads this
    {
      nodes.Length == |frames| && forall j :: 0 <= j < |order| ==> order[j] < nodes.Length
    }

    /** The queue the table stands for. */
    ghost function Contents(): PS.Pend
      reads this, nodes
      requires Indexable()
    {
      Queue(nodes[..], order, frames)
    }

    ghost function Parked(): set<nat>
      reads this
    {
      AllIn(frames)
    }

    /** The blocks that are owned but not parked. */
    ghost function Outside(): set<nat>
      reads this, pool, pool.freeStack
      requires pool.freeTop <= pool.freeStack.Length
    {
      pool.Out() - Parked()
    }

    constructor (pool: Pool)
      requires pool.Valid()
      ensures Valid() && fresh(nodes) && this.pool == pool
      ensures Contents() == [] && Parked() == {}
    {
      nodes := new Slot[PS.PEND_MAX](_ => Slot(0, 0, 0, 0, -1, 0, 0, false));
      this.pool := pool;
      head := -1;
      order := [];
      frames := seq(PS.PEND_MAX, _ => []);
    }

    /** find_pend_locked. */
    method FindPend(k: Key) returns (idx: int)
      requires Valid()
      ensures idx < 0 <==> PS.Pos(Contents(), k) < 0
      ensures idx >= 0 ==> idx == order[PS.Pos(Contents(), k)]
    {
      ghost var p := Contents();
      ghost var j := 0;
      idx := head;
      while idx >= 0
        invariant j <= |order| && idx == At(order, j)
        invariant forall i :: 0 <= i < j ==> p[i].key != k
        decreases |order| - j
      {
        assert idx in order;
        assert p[j].key == KeyOf(nodes[idx]);
        if nodes[idx].used && nodes[idx].nexthop == k.ip && nodes[idx].ifidx == k.ifidx {
          QueueIsValid(nodes[..], head, order, frames, pool.blocks, -1);
          return;
        }
        assert Nexts(nodes[..])[order[j]] == At(order, j + 1);
        j := j + 1;
        idx := nodes[idx].next;
      }
    }

    /** unlink_node_locked, for the node at position q of the list. */
    method UnlinkNode(idx: nat, ghost q: nat)
      requires nodes.Length == PS.PEND_MAX && Linked(head, Nexts(nodes[..]), order)
      requires q < |order| && order[q] == idx
      modifies this`head, nodes
      ensures nodes[..] == Skipped(old(nodes[..]), order, q)
      ensures head == if q == 0 then old(nodes[idx].next) else old(head)
    {
      LinkedIsAcyclic(head, Nexts(nodes[..]), order);
      ghost var j := 0;
      var prev := -1;
      var cur := head;
      while cur >= 0
        invariant j <= q && cur == At(order, j)
        invariant prev == if j == 0 then -1 else order[j - 1]
        decreases |order| - j
      {
        if cur == idx {
          assert j == q;
          if prev < 0 {
            head := nodes[idx].next;
          } else {
            nodes[prev] := nodes[prev].(next := nodes[idx].next);
          }
          return;
        }
        assert Nexts(nodes[..])[order[j]] == At(order, j + 1);
        prev := cur;
        j := j + 1;
        cur := nodes[cur].next;
      }
    }

    /** A node leaves the list, and its chain is handed to the caller. */
    method Unhook(idx: nat, used: bool, ghost q: nat) returns (chain: int)
      requires Valid() && q < |order| && order[q] == idx
      modifies this`head, this`order, this`frames, nodes
      ensures Shape(if used then idx else -1)
      ensures order == Without(old(order), q) && frames == old(frames)[idx := []]
      ensures Contents() == Without(old(Contents()), q)
      ensures Linked(chain, BlockNexts(pool.blocks), old(frames)[idx])
      ensures Distinct(old(frames)[idx])
      ensures Parked() == old(Parked()) - Elements(old(frames)[idx])
    {
      ghost var N, h := nodes[..], head;
      assert idx in order;
      chain := nodes[idx].chain;
      assert Linked(Chains(N)[idx], BlockNexts(pool.blocks), frames[idx]);
      LinkedIsAcyclic(chain, BlockNexts(pool.blocks), frames[idx]);
      UnhookKeeps(N, h, order, frames, pool.blocks, q, used);
      UnlinkNode(idx, q);
      nodes[idx] := nodes[idx].(chain := -1, chainLen := 0, used := used);
      ghost var N1 := Skipped(N, order, q);
      assert nodes[..] == N1[idx := N1[idx].(chain := -1, chainLen := 0, used := used)];
      ClearedFrames(frames, idx);
      order, frames := Without(order, q), frames[idx := []];
    }

    /** The scan of alloc_pend_locked: the first free slot, or else the slot to evict. */
    method PickSlot() returns (free: int, victim: int)
      requires Valid()
      ensures -1 <= free && -1 <= victim && (free >= 0 ==> free !in order && free < PS.PEND_MAX && PicksFor(Contents(), free, -1))
      ensures free < 0 ==> forall s: nat :: s < PS.PEND_MAX ==> s in order
      ensures free < 0 && victim >= 0 ==> victim < PS.PEND_MAX && nodes[victim].lastSent < U64_MAX
      ensures free < 0 && victim >= 0 ==> forall t :: 0 <= t < PS.PEND_MAX ==>
                nodes[victim].lastSent < nodes[t].lastSent || (nodes[victim].lastSent == nodes[t].lastSent && victim <= t)
      ensures free < 0 && victim < 0 ==> forall t :: 0 <= t < PS.PEND_MAX ==> nodes[t].lastSent == U64_MAX
    {
      free, victim := -1, -1;
      var oldest := U64_MAX;
      for i := 0 to PS.PEND_MAX
        invariant forall t: nat :: t < i ==> t in order
        invariant victim < i && (victim < 0 ==> oldest == U64_MAX)
        invariant victim >= 0 ==> oldest == nodes[victim].lastSent < U64_MAX
        invariant forall t :: 0 <= t < i ==> oldest <= nodes[t].lastSent && (t < victim ==> oldest < nodes[t].lastSent)
      {
        assert i in order <==> nodes[..][i].used;
        if !nodes[i].used {
          forall t: nat | t <= i ensures PS.SlotTaken(Contents(), t) <==> t in order { TakenSlots(nodes[..], order, frames, t); }
          return i, -1;
        }
        if nodes[i].lastSent < oldest {
          oldest := nodes[i].lastSent;
          victim := i;
        }
      }
    }

    /** alloc_pend_locked: a free slot, or else the slot of an evicted node, or -1. */
    method AllocPend() returns (idx: int, ghost v: int)
      requires Valid()
      modifies this`head, this`order, this`frames, nodes, pool`freeTop, pool`heapLive, pool.freeStack
      ensures -1 <= idx < PS.PEND_MAX && Shape(idx) && (idx >= 0 ==> idx !in order)
      ensures Outside() == old(Outside())
      ensures PicksFor(old(Contents()), idx, v) && -1 <= v < |old(Contents())| && (v >= 0 ==> idx >= 0)
      ensures Contents() == if v >= 0 then Without(old(Contents()), v) else old(Contents())
      ensures pool.Out() == old(pool.Out()) - if v >= 0 then Elements(old(Contents())[v].frames) else {}
    {
      hide Inv, PicksFor, PS.IsFreeSlot;
      var victim;
      idx, victim := PickSlot();
      v := -1;
      if idx >= 0 {
        FreeIsHole(nodes[..], head, order, frames, pool.blocks, idx);
        return;
      }
      v := FullPicks(nodes[..], order, frames, victim);
      if victim < 0 {
        return;
      }
      idx := victim;
      Evict(victim, true, v);
    }

    /** A node leaves the list and its frames are freed: the eviction of alloc_pend_locked, and giving up in pend_tick. */
    method Evict(victim: nat, used: bool, ghost v: nat)
      requires Valid() && v < |order| && order[v] == victim
      modifies this`head, this`order, this`frames, nodes, pool`freeTop, pool`heapLive, pool.freeStack
      ensures Shape(if used then victim else -1) && victim !in order && Outside() == old(Outside())
      ensures order == Without(old(order), v)
      ensures Contents() == Without(old(Contents()), v)
      ensures pool.Out() == old(pool.Out()) - Elements(old(Contents())[v].frames) && pool.freeTop >= old(pool.freeTop)
    {
      assert victim in order;
      LinkedIsAcyclic(head, Nexts(nodes[..]), order);
      WithoutMember(order, v, victim);
      ghost var c := frames[victim];
      ChainIsIn(frames, victim);
      var chain := Unhook(victim, used, v);
      FreeChain(pool, chain, c);
    }

    /** pend_enqueue: the frame is parked or freed, and whatever it displaces is freed. */
    method Enqueue(k: Key, blk: nat, now: U64) returns (ghost freed: seq<nat>)
      requires Valid() && blk in Outside() && blk < |pool.blocks| && pool.blocks[blk].next == -1
      modifies this`head, this`order, this`frames, nodes, pool`freeTop, pool`heapLive, pool`blocks, pool.freeStack
      ensures Valid() && Outside() == old(Outside()) - {blk}
      ensures PS.Enqueued(old(Contents()), k, blk, now, Contents(), freed)
      ensures pool.Out() == old(pool.Out()) - Elements(freed)
      ensures |pool.blocks| == |old(pool.blocks)|
      ensures forall b :: 0 <= b < |pool.blocks| ==> pool.blocks[b] == old(pool.blocks)[b].(next := pool.blocks[b].next)
    {
      hide Linked, Buckets, KeysApart, AllIn;
      var idx := FindPend(k);
      if idx < 0 {
        freed := EnqueueNew(k, blk, now);
      } else if nodes[idx].chainLen >= PS.PEND_CHAIN_MAX {
        assert idx in order;
        pool.Release(blk);
        freed := [blk];
      } else {
        Join(idx, PS.Pos(Contents(), k), blk, now);
        freed := [];
      }
    }

    /** Head insertion into an existing chain. */
    method Join(idx: nat, ghost q: nat, blk: nat, now: U64)
      requires Valid() && q < |order| && order[q] == idx && |frames[idx]| < PS.PEND_CHAIN_MAX
      requires blk in Outside() && blk < |pool.blocks|
      modifies this`frames, nodes, pool`blocks
      ensures Valid() && Parked() == old(Parked()) + {blk}
      ensures Contents() == var p := old(Contents()); p[q := p[q].(frames := [blk] + p[q].frames, lastSent := now)]
      ensures |pool.blocks| == |old(pool.blocks)|
      ensures forall b :: 0 <= b < |pool.blocks| ==> pool.blocks[b] == old(pool.blocks)[b].(next := pool.blocks[b].next)
    {
      hide Linked, Buckets, KeysApart;
      ghost var N := nodes[..];
      assert idx in order;
      assert forall t: nat :: t < |frames| && blk in frames[t] ==> blk in AllIn(frames);
      JoinKeeps(N, head, order, frames, pool.blocks, q, now, blk);
      pool.blocks := pool.blocks[blk := pool.blocks[blk].(next := nodes[idx].chain)];
      nodes[idx] := nodes[idx].(chain := blk, chainLen := nodes[idx].chainLen + 1, lastSent := now);
      assert nodes[..] == N[idx := N[idx].(chain := blk, chainLen := N[idx].chainLen + 1, lastSent := now)];
      PushedFrame(frames, idx, blk);
      frames := frames[idx := [blk] + frames[idx]];
      hide Inv, AllIn;
    }

    /** The part of pend_enqueue for a key without a node. */
    method EnqueueNew(k: Key, blk: nat, now: U64) returns (ghost freed: seq<nat>)
      requires Valid() && blk in Outside() && blk < |pool.blocks| && pool.blocks[blk].next == -1
      requires PS.Pos(Contents(), k) < 0
      modifies this`head, this`order, this`frames, nodes, pool`freeTop, pool`heapLive, pool.freeStack
      ensures Valid() && Outside() == old(Outside()) - {blk}
      ensures PS.Enqueued(old(Contents()), k, blk, now, Contents(), freed)
      ensures pool.Out() == old(pool.Out()) - Elements(freed)
    {
      hide Inv, PS.Enqueued, PicksFor, AllIn, Pool.Out, Pool.Valid, Pool.Free, Without;
      ghost var p := Contents();
      var idx; ghost var v;
      idx, v := AllocPend();
      if v >= 0 { PS.WithoutLacks(p, v, k); }
      freed := if idx < 0 then [blk] else if v >= 0 then p[v].frames else [];
      PicksEnqueue(p, idx, v, k, blk, now);
      NoneOf(blk);
      Place(idx, k, blk, now);
    }

    lemma NoneOf(blk: nat)
      ensures Elements([blk]) == {blk} && Elements([]) == {}
    {}

    /** The slot found is filled, or without one the frame is freed. */
    method Place(idx: int, k: Key, blk: nat, now: U64)
      requires -1 <= idx < PS.PEND_MAX && Shape(idx) && idx !in order && PS.Pos(Contents(), k) < 0
      requires blk in Outside() && blk < |pool.blocks| && pool.blocks[blk].next == -1
      modifies this`head, this`order, this`frames, nodes, pool`freeTop, pool`heapLive, pool.freeStack
      ensures Valid() && Outside() == old(Outside()) - {blk} && pool.Out() == old(pool.Out()) - if idx < 0 then {blk} else {}
      ensures Contents() == if idx < 0 then old(Contents()) else [PS.Node(idx, k, 0, now, [blk])] + old(Contents())
    {
      hide Inv, AllIn, Pool.Out, Pool.Valid, Pool.Free;
      if idx < 0 {
        GiveBlock(blk);
      } else {
        Hook(idx, k, blk, now);
      }
    }

    /** The end of pend_enqueue: fills the slot and puts it at the head of the list. */
    method Hook(idx: nat, k: Key, blk: nat, now: U64)
      requires Shape(idx) && idx < PS.PEND_MAX && idx !in order
      requires blk in Outside() && blk < |pool.blocks| && pool.blocks[blk].next == -1
      requires PS.Pos(Contents(), k) < 0
      modifies this`head, this`order, this`frames, nodes
      ensures Valid() && pool.Out() == old(pool.Out()) && Parked() == old(Parked()) + {blk}
      ensures Outside() == old(Outside()) - {blk}
      ensures Contents() == [PS.Node(idx, k, 0, now, [blk])] + old(Contents())
    {
      hide Pool.Out, Pool.Free, Pool.Valid, Linked, Buckets;
      ghost var N := nodes[..];
      assert forall t: nat :: t in order ==> KeyOf(N[t]) != k by {
        forall t: nat | t in order ensures KeyOf(N[t]) != k {
          var j :| 0 <= j < |order| && order[j] == t;
          assert Contents()[j].key == KeyOf(N[t]);
        }
      }
      assert forall t: nat :: t < PS.PEND_MAX && blk in frames[t] ==> blk in AllIn(frames);
      HookKeeps(N, head, order, frames, pool.blocks, idx, idx, k, now, blk);
      nodes[idx] := Slot(k.ip, k.ifidx, 0, now, blk, 1, head, true);
      head := idx;
      assert nodes[..] == N[idx := nodes[idx]];
      PushedFrame(frames, idx, blk);
      assert frames[idx] == [] && [blk] + frames[idx] == [blk];
      order, frames := [idx] + order, frames[idx := [blk]];
    }

    /** The critical section of forward_flush_pending: the chain of the key, if any, is handed to the caller. */
    method Pop(k: Key) returns (chain: int, ghost c: seq<nat>)
      requires Valid()
      modifies this`head, this`order, this`frames, nodes
      ensures Valid() && (Contents(), c) == PS.Popped(old(Contents()), k)
      ensures Linked(chain, BlockNexts(pool.blocks), c) && Distinct(c)
      ensures Elements(c) <= pool.Out() && Elements(c) !! old(Outside()) && Outside() == old(Outside()) + Elements(c)
    {
      ghost var q := PS.Pos(Contents(), k);
      var idx := FindPend(k);
      if idx < 0 {
        return -1, [];
      }
      ChainIsIn(frames, idx);
      c := frames[idx];
      chain := Unhook(idx, false, q);
    }

    /** One turn of the walk of pend_tick, at position q of the list. */
    method RetryOrDrop(idx: nat, now: U64, ghost q: nat) returns (kept: bool, key: Key, next: int)
      requires Valid() && q < |order| && order[q] == idx
      modifies this`head, this`order, this`frames, nodes, pool`freeTop, pool`heapLive, pool.freeStack
      ensures Valid() && Outside() == old(Outside()) && |old(order)| <= PS.PEND_MAX
      ensures key == old(Contents())[q].key
      ensures kept <==> old(Contents())[q].retries < PS.ARP_RETRY_MAX
      ensures next == At(order, if kept then q + 1 else q)
      ensures Contents() == PS.Stepped(old(Contents()), q, now) && pool.freeTop >= old(pool.freeTop)
    {
      hide Buckets, KeysApart, AllIn;
      assert idx in order;
      QueueIsValid(nodes[..], head, order, frames, pool.blocks, -1);
      PS.QueueIsBounded(Contents());
      assert Nexts(nodes[..])[order[q]] == At(order, q + 1);
      key, next := KeyOf(nodes[idx]), nodes[idx].next;
      kept := nodes[idx].retries < PS.ARP_RETRY_MAX;
      if kept {
        CountRetry(idx, now, q);
      } else {
        Evict(idx, false, q);
      }
    }

    method CountRetry(idx: nat, now: U64, ghost q: nat)
      requires Valid() && q < |order| && order[q] == idx && nodes[idx].retries < PS.ARP_RETRY_MAX
      modifies nodes
      ensures Valid()
      ensures Contents() == var p := old(Contents()); p[q := PS.Again(p[q], now)]
    {
      ghost var N := nodes[..];
      CountKeeps(N, head, order, frames, pool.blocks, q, now);
      nodes[idx] := nodes[idx].(retries := nodes[idx].retries + 1, lastSent := now);
      assert nodes[..] == N[idx := N[idx].(retries := N[idx].retries + 1, lastSent := now)];
    }

    /** The body of the loop of pend_tick, with `done` behind it and `rest` ahead. */
    method Turn(idx: nat, now: U64, keys: seq<Key>, ghost done: PS.Pend, ghost rest: PS.Pend)
      returns (next: int, keys': seq<Key>, ghost done': PS.Pend)
      requires Valid() && Contents() == done + rest && idx == At(order, |done|) && keys == PS.Keys(done)
      modifies this`head, this`order, this`frames, nodes, pool`freeTop, pool`heapLive, pool.freeStack
      ensures Valid() && Outside() == old(Outside()) && rest != []
      ensures Contents() == done' + rest[1..] && next == At(order, |done'|) && keys' == PS.Keys(done')
      ensures done + PS.Retried(rest, now) == done' + PS.Retried(rest[1..], now) && pool.freeTop >= old(pool.freeTop)
    {
      PS.WalkStep(done, rest, now);
      hide Inv, Linked, PS.Retried, PS.Keys, PS.Walked, PS.Stepped;
      var kept, key;
      kept, key, next := RetryOrDrop(idx, now, |done|);
      keys', done' := keys, PS.Walked(done, rest[0], now);
      if kept && |keys| < PS.PEND_MAX {
        keys' := keys + [key];
      }
    }

    /** The critical section of pend_tick, and the keys it will request and flush once the lock is gone. */
    method Retry(now: U64) returns (keys: seq<Key>)
      requires Valid()
      modifies this`head, this`order, this`frames, nodes, pool`freeTop, pool`heapLive, pool.freeStack
      ensures Valid() && Outside() == old(Outside())
      ensures Contents() == PS.Retried(old(Contents()), now)
      ensures keys == PS.Keys(Contents()) && pool.freeTop >= old(pool.freeTop)
    {
      keys := [];
      var idx := head;
      ghost var done, rest: PS.Pend := [], Contents();
      assert [] + rest == rest && idx == At(order, 0);
      while idx >= 0
        invariant Valid() && Outside() == old(Outside())
        invariant Contents() == done + rest && idx == At(order, |done|)
        invariant PS.Retried(old(Contents()), now) == done + PS.Retried(rest, now)
        invariant keys == PS.Keys(done) && pool.freeTop >= old(pool.freeTop)
        decreases |rest|
      {
        hide Inv, Linked, PS.Retried;
        idx, keys, done := Turn(idx, now, keys, done, rest);
        rest := rest[1..];
      }
      assert done + rest == done;
    }

    // ---- what the owner of a block outside the table may do with it

    method WriteBlock(b: nat, f: Frame)
      requires Valid() && b in Outside() && b < |pool.blocks| && |f.data| == MP_PAYLOAD
      modifies pool`blocks
      ensures Valid() && pool.blocks == old(pool.blocks)[b := f]
      ensures Outside() == old(Outside()) && Contents() == old(Contents())
    {
      ghost var blocks := pool.blocks;
      pool.blocks := pool.blocks[b := f];
      OutsideIsUnparked(b);
      BlocksFrame(nodes[..], head, order, frames, blocks, pool.blocks, -1);
    }

    lemma ParkedAreOut()
      requires Valid()
      ensures forall i, b :: 0 <= i < |Contents()| && b in Contents()[i].frames ==> b in pool.Out()
    {
      forall i, b | 0 <= i < |Contents()| && b in Contents()[i].frames ensures b in pool.Out() {
        assert order[i] in order;
        ChainIsIn(frames, order[i]);
      }
    }

    lemma IsReady()
      requires Valid()
      ensures Indexable() && pool.freeTop <= pool.freeStack.Length
    {}

    lemma OutsideIsUnparked(b: nat)
      requires b !in AllIn(frames)
      ensures forall s: nat :: s < |frames| ==> b !in frames[s]
    {
      forall s: nat | s < |frames| ensures b !in frames[s] { ChainIsIn(frames, s); }
    }

    method TakeBlock(mallocOk: bool) returns (b: int)
      requires Valid()
      modifies pool
      ensures Valid() && |pool.blocks| >= |old(pool.blocks)|
      ensures b < 0 ==> Outside() == old(Outside()) && pool.freeTop == 0 && !mallocOk
      ensures old(pool.freeTop) == pool.freeTop + if 0 <= b < MP_COUNT then 1 else 0
      ensures b >= 0 ==> b < |pool.blocks| && b !in old(pool.Out()) && Outside() == old(Outside()) + {b as nat}
      ensures forall c :: c in old(pool.Out()) && c < |old(pool.blocks)| ==> pool.blocks[c] == old(pool.blocks)[c]
      ensures forall i, c :: 0 <= i < |Contents()| && c in Contents()[i].frames && c < |old(pool.blocks)| ==>
                pool.blocks[c] == old(pool.blocks)[c]
    {
      ParkedAreOut();
      ghost var blocks := pool.blocks;
      b := pool.Alloc(mallocOk);
      if b >= 0 {
        OutsideIsUnparked(b);
      }
      BlocksFrame(nodes[..], head, order, frames, blocks, pool.blocks, -1);
    }

    method GiveBlock(b: nat)
      requires Valid() && b in Outside()
      modifies pool`freeTop, pool`heapLive, pool.freeStack
      ensures Valid() && Outside() == old(Outside()) - {b} && pool.Out() == old(pool.Out()) - {b} && Contents() == old(Contents())
      ensures pool.freeTop == old(pool.freeTop) + if b < MP_COUNT then 1 else 0
    {
      pool.Release(b);
    }
  }
}
