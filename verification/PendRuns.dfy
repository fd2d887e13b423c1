/**
 Whole runs of the pending queue: what a chain holds, how often it was asked for and when it was last touched, said of
 the operations that came, and which chain gives way when the queue is full.
 */
module PendRuns {
  import opened Basics
  import opened PendSpec
  import MP = MemPool
  import PT = PendTable

  datatype Op =
    | OpEnqueue(k: Key, blk: nat, now: U64)
    | OpPop(k: Key)
    | OpTick(now: U64)

  /** `out` are the frames that leave the queue. */
  ghost predicate OpStep(p: Pend, op: Op, p': Pend, out: seq<nat>) {
    match op
    case OpEnqueue(k, blk, now) => Enqueued(p, k, blk, now, p', out)
    case OpPop(k) => (p', out) == Popped(p, k)
    case OpTick(now) => p' == Retried(p, now) && out == GivenUp(p)
  }

  ghost predicate Behaviour(trace: seq<Pend>, ops: seq<Op>, outs: seq<seq<nat>>) {
    && |trace| == |ops| + 1 && |outs| == |ops| && trace[0] == []
    && forall i {:trigger ops[i]} :: 0 <= i < |ops| ==> OpStep(trace[i], ops[i], trace[i + 1], outs[i])
  }

  lemma {:induction false} RunKeepsInv(trace: seq<Pend>, ops: seq<Op>, outs: seq<seq<nat>>, n: nat)
    requires Behaviour(trace, ops, outs) && n <= |ops|
    ensures Inv(trace[n])
  {
    hide Inv, Enqueued, Popped, Retried;
    if n == 0 {
      NothingIsInv();
    } else {
      RunKeepsInv(trace, ops, outs, n - 1);
      StepKeepsInv(trace[n - 1], ops[n - 1], trace[n], outs[n - 1]);
    }
  }

  lemma NothingIsInv()
    ensures Inv([])
  {}

  lemma StepKeepsInv(p: Pend, op: Op, p': Pend, out: seq<nat>)
    requires Inv(p) && OpStep(p, op, p', out)
    ensures Inv(p')
  {
    hide Enqueued, Retried, Inv;
    match op
    case OpEnqueue(k, blk, now) => EnqueueKeeps(p, k, blk, now, p', out);
    case OpPop(k) => if Pos(p, k) >= 0 { WithoutKeeps(p, Pos(p, k)); }
    case OpTick(now) => RetryKeeps(p, now);
  }

  // ---------------------------------------------------------------- one chain, one step

  ghost predicate Waits(p: Pend, k: Key) {
    exists n :: n in p && n.key == k
  }

  lemma OneNode(p: Pend, n: Node, m: Node)
    requires Inv(p) && n in p && m in p && n.key == m.key
    ensures n == m
  {}

  /** What an operation makes of the chain of a key that waits before and after it. */
  function Became(n: Node, op: Op): Node {
    match op
    case OpEnqueue(k, blk, now) =>
      if k == n.key && |n.frames| < PEND_CHAIN_MAX then n.(frames := [blk] + n.frames, lastSent := now) else n
    case OpPop(k) => n
    case OpTick(now) => n.(retries := n.retries + 1, lastSent := now)
  }

  lemma StepBecame(p: Pend, op: Op, p': Pend, out: seq<nat>, n: Node, m: Node)
    requires Inv(p) && OpStep(p, op, p', out) && n in p && m in p' && n.key == m.key
    ensures m == Became(n, op)
  {
    hide Enqueued, Popped, Retried, Inv;
    match op
    case OpEnqueue(k, blk, now) => EnqueueBecame(p, k, blk, now, p', out, n, m);
    case OpPop(k) => PopBecame(p, k, p', n, m);
    case OpTick(now) =>
      var j :| 0 <= j < |p'| && p'[j] == m;
      var i := RetriedNode(p, now, j);
      OneNode(p, n, p[i]);
  }

  lemma EnqueueBecame(p: Pend, k: Key, blk: nat, now: U64, p': Pend, out: seq<nat>, n: Node, m: Node)
    requires Inv(p) && Enqueued(p, k, blk, now, p', out) && n in p && m in p' && n.key == m.key
    ensures m == Became(n, OpEnqueue(k, blk, now))
  {
    var o := HowItWent(p, k, blk, now, p', out);
    if p' == p {
      OneNode(p, n, m);
      if n.key == k {
        UnchangedIsFull(p, k, blk, now, p', out, n);
      }
    }
    hide Enqueued, IsFreeSlot, IsVictim, Inv;
    match o
    case Joined(i) => JoinBecame(p, i, blk, now, n, m);
    case Took(s) => NewBecame(p, p, k, p'[0], n, m);
    case Evicted(v) => NewBecame(p, Without(p, v), k, p'[0], n, m);
    case _ =>
  }

  lemma JoinBecame(p: Pend, i: nat, blk: nat, now: U64, n: Node, m: Node)
    requires Inv(p) && i < |p| && |p[i].frames| < PEND_CHAIN_MAX && n in p && n.key == m.key
    requires m in p[i := p[i].(frames := [blk] + p[i].frames, lastSent := now)]
    ensures m == Became(n, OpEnqueue(p[i].key, blk, now))
  {
    var q := p[i := p[i].(frames := [blk] + p[i].frames, lastSent := now)];
    var j :| 0 <= j < |q| && q[j] == m;
    OneNode(p, n, p[j]);
  }

  /** Nodes other than the new one are as they were. */
  lemma NewBecame(p: Pend, q: Pend, k: Key, x: Node, n: Node, m: Node)
    requires Inv(p) && Pos(p, k) < 0 && x.key == k && n in p && m in [x] + q && n.key == m.key
    requires forall y :: y in q ==> y in p
    ensures n.key != k && m == n
  {
    assert n.key != k;
    assert m in q;
    OneNode(p, n, m);
  }

  /** The chain of the key takes no frame only when it is full. */
  lemma UnchangedIsFull(p: Pend, k: Key, blk: nat, now: U64, p': Pend, out: seq<nat>, n: Node)
    requires Inv(p) && Enqueued(p, k, blk, now, p', out) && p' == p && n in p && n.key == k
    ensures |n.frames| == PEND_CHAIN_MAX
  {
    var i := Pos(p, k);
    OneNode(p, n, p[i]);
    var q := p[i := p[i].(frames := [blk] + p[i].frames, lastSent := now)];
    assert |q[i].frames| != |p[i].frames|;
  }

  lemma PopBecame(p: Pend, k: Key, p': Pend, n: Node, m: Node)
    requires Inv(p) && p' == Popped(p, k).0 && n in p && m in p' && n.key == m.key
    ensures m == n
  {
    OneNode(p, n, m);
  }

  /** A chain begins with one frame, no retry and the clock of its enqueue. */
  lemma StepBegins(p: Pend, op: Op, p': Pend, out: seq<nat>, m: Node)
    requires Inv(p) && OpStep(p, op, p', out) && m in p' && !Waits(p, m.key)
    ensures op.OpEnqueue? && op.k == m.key && m.retries == 0 && m.lastSent == op.now && m.frames == [op.blk]
  {
    hide Retried, Inv, Enqueued, Waits;
    if m in p {
      WaitsAs(p, m);
    }
    match op
    case OpEnqueue(k, blk, now) => EnqueueBegins(p, k, blk, now, p', out, m);
    case OpPop(k) =>
    case OpTick(now) =>
      var j :| 0 <= j < |p'| && p'[j] == m;
      var i := RetriedNode(p, now, j);
      WaitsAs(p, p[i]);
  }

  lemma EnqueueBegins(p: Pend, k: Key, blk: nat, now: U64, p': Pend, out: seq<nat>, m: Node)
    requires Enqueued(p, k, blk, now, p', out) && m in p' && m !in p && !Waits(p, m.key)
    ensures k == m.key && m.retries == 0 && m.lastSent == now && m.frames == [blk]
  {
    var o := HowItWent(p, k, blk, now, p', out);
    hide Enqueued, IsFreeSlot, IsVictim, Waits;
    if o.Joined? {
      JoinedWaits(p, o.i, p'[o.i], m);
    }
  }

  lemma JoinedWaits(p: Pend, i: nat, x: Node, m: Node)
    requires i < |p| && x.key == p[i].key && m in p[i := x]
    ensures Waits(p, m.key)
  {
    var j :| 0 <= j < |p| && p[i := x][j] == m;
    assert p[j] in p && p[j].key == m.key;
  }

  lemma WaitsAs(p: Pend, n: Node)
    requires n in p
    ensures Waits(p, n.key)
  {}

  // ---------------------------------------------------------------- one chain, a whole run

  /** The frames enqueued for the key, oldest first. */
  function Came(ops: seq<Op>, k: Key): seq<nat> {
    if ops == [] then []
    else
      var op := ops[|ops| - 1];
      Came(ops[..|ops| - 1], k) + if op.OpEnqueue? && op.k == k then [op.blk] else []
  }

  function Ticks(ops: seq<Op>): nat {
    if ops == [] then 0 else Ticks(ops[..|ops| - 1]) + if ops[|ops| - 1].OpTick? then 1 else 0
  }

  function FirstOf(s: seq<nat>, n: nat): seq<nat> {
    if |s| <= n then s else s[..n]
  }

  function Reversed(s: seq<nat>): (r: seq<nat>)
    ensures |r| == |s|
  {
    if s == [] then [] else [s[|s| - 1]] + Reversed(s[..|s| - 1])
  }

  /** When the chain was last asked for: at the last tick, or when the last frame joined it. */
  function Touched(ops: seq<Op>, k: Key): int {
    if ops == [] then 0
    else
      var op := ops[|ops| - 1];
      if op.OpTick? || (op.OpEnqueue? && op.k == k && |Came(ops[..|ops| - 1], k)| < PEND_CHAIN_MAX) then op.now
      else Touched(ops[..|ops| - 1], k)
  }

  /** The chain of the key waits from operation i, which began it, to operation n. */
  ghost predicate Since(trace: seq<Pend>, k: Key, i: nat, n: nat) {
    i < n < |trace| && !Waits(trace[i], k) && forall j :: i < j <= n ==> Waits(trace[j], k)
  }

  /** The node is what the operations since its begin make it. */
  predicate Tells(n: Node, since: seq<Op>) {
    && n.frames == Reversed(FirstOf(Came(since, n.key), PEND_CHAIN_MAX))
    && n.retries == Ticks(since) && n.lastSent == Touched(since, n.key)
  }

  /**
   A waiting chain holds, newest first, the first 32 frames that came for its key since it began; it was asked for
   once a tick; and its stamp is the clock of the last tick or of the last frame that joined.
   */
  lemma {:induction false} ChainTells(trace: seq<Pend>, ops: seq<Op>, outs: seq<seq<nat>>, i: nat, n: nat, m: Node)
    requires Behaviour(trace, ops, outs) && Since(trace, m.key, i, n) && m in trace[n]
    ensures Tells(m, ops[i..n])
    decreases n
  {
    hide Waits, Tells, Became, Inv, OpStep;
    assert OpStep(trace[n - 1], ops[n - 1], trace[n], outs[n - 1]);
    RunKeepsInv(trace, ops, outs, n - 1);
    if n == i + 1 {
      StepBegins(trace[i], ops[i], trace[n], outs[i], m);
      BeginTells(ops[i], m);
      assert ops[i..n] == [ops[i]];
    } else {
      var l := WaitingNode(trace[n - 1], m.key);
      ChainTells(trace, ops, outs, i, n - 1, l);
      StepBecame(trace[n - 1], ops[n - 1], trace[n], outs[n - 1], l, m);
      assert ops[i..n] == ops[i..n - 1] + [ops[n - 1]];
      BecameTells(l, ops[i..n - 1], ops[n - 1]);
    }
  }

  lemma WaitingNode(p: Pend, k: Key) returns (n: Node)
    requires Waits(p, k)
    ensures n in p && n.key == k
  {
    n :| n in p && n.key == k;
  }

  lemma BeginTells(op: Op, m: Node)
    requires op.OpEnqueue? && op.k == m.key && m.retries == 0 && m.lastSent == op.now && m.frames == [op.blk]
    ensures Tells(m, [op])
  {
    assert [op][..0] == [] && Came([], m.key) == [];
    assert Came([op], m.key) == [op.blk] && [op.blk][..0] == [];
  }

  lemma ReversedGrows(s: seq<nat>, b: nat)
    ensures Reversed(s + [b]) == [b] + Reversed(s)
  {
    assert (s + [b])[..|s|] == s;
  }

  lemma BecameTells(n: Node, since: seq<Op>, op: Op)
    requires Tells(n, since)
    ensures Tells(Became(n, op), since + [op])
  {
    hide Reversed;
    assert (since + [op])[..|since|] == since;
    var came := Came(since, n.key);
    if op.OpEnqueue? && op.k == n.key {
      assert |n.frames| == |FirstOf(came, PEND_CHAIN_MAX)|;
      if |came| < PEND_CHAIN_MAX {
        ReversedGrows(came, op.blk);
      } else {
        assert (came + [op.blk])[..PEND_CHAIN_MAX] == came[..PEND_CHAIN_MAX];
        assert came[..|came|] == came;
      }
    } else {
      assert came + [] == came;
    }
  }

  // ---------------------------------------------------------------- who gives way

  /** The frames of another key push this chain out. */
  ghost predicate GivesWay(trace: seq<Pend>, ops: seq<Op>, n: nat, k: Key) {
    n < |ops| && n + 1 < |trace| && ops[n].OpEnqueue? && Waits(trace[n], k) && !Waits(trace[n + 1], k)
  }

  lemma EvictedIsVictim(p: Pend, k: Key, blk: nat, now: U64, p': Pend, out: seq<nat>, n: Node) returns (v: nat)
    requires Inv(p) && Enqueued(p, k, blk, now, p', out) && n in p && !Waits(p', n.key)
    ensures IsVictim(p, v) && p[v] == n && k != n.key && out == n.frames && !exists s :: IsFreeSlot(p, s)
  {
    var o := HowItWent(p, k, blk, now, p', out);
    var i :| 0 <= i < |p| && p[i] == n;
    hide IsFreeSlot, IsVictim, Waits;
    StaysUnlessEvicted(o, p, i, k, blk, now, p', out);
    v := i;
  }

  /** A node stays unless it is the one evicted. */
  lemma StaysUnlessEvicted(o: Outcome, p: Pend, i: nat, k: Key, blk: nat, now: U64, p': Pend, out: seq<nat>)
    requires Went(o, p, k, blk, now, p', out) && i < |p|
    ensures Waits(p', p[i].key) || o == Evicted(i)
  {
    hide IsFreeSlot;
    if o != Evicted(i) {
      var j := if o.Took? || (o.Evicted? && i < o.v) then i + 1 else i;
      assert p'[j] in p' && p'[j].key == p[i].key;
    }
  }

  lemma {:induction false} LowestFree(p: Pend, s: nat) returns (t: nat)
    requires s < PEND_MAX && !SlotTaken(p, s)
    ensures IsFreeSlot(p, t)
  {
    t := 0;
    while SlotTaken(p, t)
      invariant t <= s && forall u :: 0 <= u < t ==> SlotTaken(p, u)
      decreases s - t
    {
      t := t + 1;
    }
  }

  /** The slots taken. */
  function Slots(p: Pend): set<nat> {
    set i | 0 <= i < |p| :: p[i].slot
  }

  lemma {:induction false} SlotsAreFew(p: Pend)
    ensures |Slots(p)| <= |p|
  {
    if p != [] {
      var q := p[..|p| - 1];
      SlotsAreFew(q);
      assert Slots(p) == Slots(q) + {p[|p| - 1].slot};
    }
  }

  function Below(n: nat): (s: set<nat>)
    ensures forall i :: i in s <==> 0 <= i < n
    ensures |s| == n
  {
    if n == 0 then {} else Below(n - 1) + {n - 1}
  }

  lemma NoFreeSlotIsFull(p: Pend)
    requires Inv(p) && !exists s :: IsFreeSlot(p, s)
    ensures |p| == PEND_MAX
  {
    hide Inv, IsFreeSlot;
    QueueIsBounded(p);
    var max := PEND_MAX;
    var all := Below(max);
    forall s | s in all ensures s in Slots(p) {
      if !SlotTaken(p, s) {
        var t := LowestFree(p, s);
      }
      var i :| 0 <= i < |p| && p[i].slot == s;
    }
    SubsetSize(all, Slots(p));
    SlotsAreFew(p);
  }

  /**
   A chain gives way to another key only when 256 chains wait, all of its frames are freed, and no chain was touched
   less recently: i and j are where the two began.
   */
  lemma LeastRecentGivesWay(trace: seq<Pend>, ops: seq<Op>, outs: seq<seq<nat>>, n: nat, k: Key, i: nat, u: Key, j: nat)
    requires Behaviour(trace, ops, outs) && GivesWay(trace, ops, n, k) && Since(trace, k, i, n) && Since(trace, u, j, n)
    ensures |trace[n]| == PEND_MAX && ops[n].k != k
    ensures outs[n] == Reversed(FirstOf(Came(ops[i..n], k), PEND_CHAIN_MAX))
    ensures Touched(ops[i..n], k) <= Touched(ops[j..n], u)
  {
    hide Inv, Enqueued, IsFreeSlot, Touched, Came;
    RunKeepsInv(trace, ops, outs, n);
    var a := WaitingNode(trace[n], k);
    var b := WaitingNode(trace[n], u);
    assert OpStep(trace[n], ops[n], trace[n + 1], outs[n]);
    ChainTells(trace, ops, outs, i, n, a);
    ChainTells(trace, ops, outs, j, n, b);
    hide Since, Waits;
    NoLonger(trace, ops, n, k);
    var v := EvictedIsVictim(trace[n], ops[n].k, ops[n].blk, ops[n].now, trace[n + 1], outs[n], a);
    NoFreeSlotIsFull(trace[n]);
    VictimIsLeast(trace[n], v, b);
  }

  lemma NoLonger(trace: seq<Pend>, ops: seq<Op>, n: nat, k: Key)
    requires GivesWay(trace, ops, n, k)
    ensures n < |ops| && n + 1 < |trace| && ops[n].OpEnqueue? && !Waits(trace[n + 1], k)
  {}

  lemma VictimIsLeast(p: Pend, v: nat, b: Node)
    requires IsVictim(p, v) && b in p
    ensures p[v].lastSent <= b.lastSent
  {}

  // ---------------------------------------------------------------- the code's runs

  /** What is asked of the table; a frame to park needs a block, which malloc may refuse when the arena is empty. */
  datatype Request =
    | Park(k: Key, frame: MP.Frame, now: U64, mallocOk: bool)
    | Flush(k: Key)
    | Tick(now: U64)

  predicate Serves(op: Op, r: Request) {
    match r
    case Park(k, _, now, _) => op.OpEnqueue? && op.k == k && op.now == now
    case Flush(k) => op == OpPop(k)
    case Tick(now) => op == OpTick(now)
  }

  /** One request served: an operation of the queue, unless there was no block. */
  method Apply(t: PT.Table, r: Request) returns (ghost op: Option<Op>, ghost out: seq<nat>)
    requires t.Valid() && (r.Park? ==> |r.frame.data| == MP.MP_PAYLOAD)
    modifies t`head, t`order, t`frames, t.nodes, t.pool, t.pool.freeStack
    ensures t.Valid()
    ensures op.Some? ==> Serves(op.value, r) && OpStep(old(t.Contents()), op.value, t.Contents(), out)
    ensures op.None? ==> r.Park? && !r.mallocOk && t.Contents() == old(t.Contents()) && t.pool.freeTop == 0
  {
    hide PT.Inv, Enqueued, Popped, Retried, GivenUp;
    ghost var p := t.Contents();
    match r {
      case Park(k, frame, now, mallocOk) =>
        var b := t.TakeBlock(mallocOk);
        if b < 0 {
          return None, [];
        }
        t.WriteBlock(b, frame.(next := -1));
        out := t.Enqueue(k, b, now);
        op := Some(OpEnqueue(k, b, now));
      case Flush(k) =>
        var chain;
        chain, out := t.Pop(k);
        op := Some(OpPop(k));
      case Tick(now) =>
        var keys := t.Retry(now);
        op, out := Some(OpTick(now)), GivenUp(p);
    }
  }

  lemma BehaviourGrows(trace: seq<Pend>, ops: seq<Op>, outs: seq<seq<nat>>, op: Op, p: Pend, out: seq<nat>)
    requires Behaviour(trace, ops, outs) && OpStep(trace[|ops|], op, p, out)
    ensures Behaviour(trace + [p], ops + [op], outs + [out])
  {
    hide OpStep;
    var trace', ops', outs' := trace + [p], ops + [op], outs + [out];
    forall j | 0 <= j < |ops'| ensures OpStep(trace'[j], ops'[j], trace'[j + 1], outs'[j]) {
      assert j < |ops| ==> ops'[j] == ops[j];
    }
  }

  /** Every run of requests on a table that starts empty is a run of the queue. */
  method Replay(t: PT.Table, requests: seq<Request>) returns (ghost trace: seq<Pend>, ghost ops: seq<Op>, ghost outs: seq<seq<nat>>)
    requires t.Valid() && t.Contents() == []
    requires forall i :: 0 <= i < |requests| && requests[i].Park? ==> |requests[i].frame.data| == MP.MP_PAYLOAD
    modifies t`head, t`order, t`frames, t.nodes, t.pool, t.pool.freeStack
    ensures t.Valid() && Behaviour(trace, ops, outs) && trace[|ops|] == t.Contents() && |ops| <= |requests|
    ensures (forall i :: 0 <= i < |requests| && requests[i].Park? ==> requests[i].mallocOk) ==>
              |ops| == |requests| && forall i :: 0 <= i < |ops| ==> Serves(ops[i], requests[i])
  {
    hide OpStep, Serves, PT.Inv;
    trace, ops, outs := [t.Contents()], [], [];
    for i := 0 to |requests|
      invariant t.Valid() && Behaviour(trace, ops, outs) && trace[|ops|] == t.Contents() && |ops| <= i
      invariant (forall j :: 0 <= j < i && requests[j].Park? ==> requests[j].mallocOk) ==>
                  |ops| == i && forall j :: 0 <= j < i ==> Serves(ops[j], requests[j])
    {
      ghost var op, out;
      op, out := Apply(t, requests[i]);
      if op.Some? {
        BehaviourGrows(trace, ops, outs, op.value, t.Contents(), out);
        trace, ops, outs := trace + [t.Contents()], ops + [op.value], outs + [out];
      }
    }
  }
}
