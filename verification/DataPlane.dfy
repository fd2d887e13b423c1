/**
 The data plane as a transition system: the receive loop, the workers and the timer share the block
 pool, the ring of tasks, the pending queue and the ARP cache. A step is one critical section, or one
 stretch of code that touches nothing shared; threads interleave in any order.
 (src/main.c, src/thread_pool.c, src/forward.c, src/arp_proto.c, src/mempool.c)
 */
module DataPlane {
  import opened Basics
  import opened Net
  import AT = ArpTable
  import FS = ForwardSpec
  import FW = Forward
  import MP = MemPool
  import PS = PendSpec
  import TR = TaskRing

  /** What a thread still has to do; every act that owns a block carries it. */
  datatype Act =
    | RxLoop | Recv(b: nat) | Submit(b: nat) | Stop                       // rx_loop, then tpool_shutdown
    | ArpFrame(b: nat, ifidx: int) | Learn(k: Key, mac: Mac)              // arp_handle_frame
    | Take | Task(b: nat) | Hop(b: nat)                                   // worker_main, forward_task: the filter, the next hop,
    | Dispatch(b: nat, k: Key) | Park(b: nat, k: Key)                     // the lookup, the queue
    | Send(b: nat, k: Key, mac: Mac) | Free(b: nat) | Request(k: Key)     // forward_send, mp_free, arp_request
    | FlushLookup(k: Key) | FlushPop(k: Key, mac: Mac)                    // forward_flush_pending
    | TimerLoop | ArpTick | Scan                                          // timer_thread, pend_tick

  /** A block, and (in `recv`) the bytes that were in it when recvfrom returned. */
  datatype Block = Block(frame: MP.Frame, recv: seq<Byte>)

  /** `seen` remembers what the lookups in the cache have found so far; no step depends on it. */
  datatype State = State(
    arena: set<nat>, free: seq<nat>, heapLive: set<nat>, leaked: multiset<nat>,
    blocks: map<nat, Block>,
    ring: seq<nat>, shutdown: bool, accepted: seq<nat>, started: seq<nat>,
    pend: PS.Pend, arp: AT.Cache, seen: set<(Key, Mac)>, timeout: int, cfg: FS.Config,
    wire: seq<Sent>, threads: seq<seq<Act>>, workers: set<nat>)

  /** A forwarded frame on the wire, next to the bytes it was received as and the next hop it was sent to. */
  datatype Sent = Sent(recv: seq<Byte>, len: nat, k: Key, dmac: Mac, smac: Mac, ifidx: int, bytes: seq<Byte>)

  // ---------------------------------------------------------------- steps

  ghost predicate Allocates(s: State, b: nat, s': State) {
    && b in s'.blocks && s'.blocks == s.blocks[b := s'.blocks[b]]
    && ((s.free != [] && b == s.free[|s.free| - 1]
        && s' == s.(free := s.free[..|s.free| - 1], blocks := s'.blocks, threads := s'.threads))
     || (s.free == [] && b !in s.arena && b !in s.heapLive
         && s' == s.(heapLive := s.heapLive + {b}, blocks := s'.blocks, threads := s'.threads)))
  }

  function FreeAll(c: seq<nat>): seq<Act> {
    if c == [] then [] else [Free(c[0])] + FreeAll(c[1..])
  }

  function SendAll(c: seq<nat>, k: Key, mac: Mac): seq<Act> {
    if c == [] then [] else [Send(c[0], k, mac)] + SendAll(c[1..], k, mac)
  }

  /** The unlocked half of pend_tick. */
  function FlushKeys(p: PS.Pend): seq<Act> {
    if p == [] then [] else [Request(p[0].key), FlushLookup(p[0].key)] + FlushKeys(p[1..])
  }

  /** Where rx_loop sends a frame of n bytes; `own` says it is one of ours coming back. */
  function Route(b: nat, n: nat, data: seq<Byte>, own: bool, ifidx: int): Act
    requires |data| == MP.MP_PAYLOAD
  {
    if own || n < 14 then Free(b)
    else if Be16(data[12], data[13]) == 0x0806 then ArpFrame(b, ifidx)
    else if Be16(data[12], data[13]) == 0x0800 then Submit(b)
    else Free(b)
  }

  ghost predicate RunsRxLoop(s: State, s': State, then_: seq<Act>) {
    || (s' == s.(threads := s'.threads) && (then_ == [] || then_ == [RxLoop]))      // shut down, or no block to be had
    || exists b: nat :: Allocates(s, b, s') && then_ == [Recv(b), RxLoop]
  }

  /** recvfrom returned n: without a frame the block is lost. */
  ghost predicate Receives(s: State, b: nat, n: int, s': State, then_: seq<Act>) {
    if n <= 0 then
      s' == s.(leaked := s.leaked + multiset{b}, threads := s'.threads) && then_ == []
    else
      exists f: MP.Frame, own, ifidx ::
        && |f.data| == MP.MP_PAYLOAD && f.len == n <= MP.MP_PAYLOAD
        && s' == s.(blocks := s.blocks[b := Block(f, f.data)], threads := s'.threads)
        && then_ == [Route(b, f.len, f.data, own, ifidx)]
  }

  ghost predicate RunsRecv(s: State, b: nat, s': State, then_: seq<Act>) {
    exists n :: Receives(s, b, n, s', then_)
  }

  ghost predicate RunsSubmit(s: State, b: nat, s': State, then_: seq<Act>) {
    if |s.ring| == TR.TASK_CAP || s.shutdown then
      s' == s.(threads := s'.threads) && then_ == [Free(b)]
    else
      s' == s.(ring := s.ring + [b], accepted := s.accepted + [b], threads := s'.threads) && then_ == []
  }

  ghost predicate RunsTake(s: State, s': State, then_: seq<Act>) {
    if s.ring != [] then
      s' == s.(ring := s.ring[1..], started := s.started + [s.ring[0]], threads := s'.threads) && then_ == [Task(s.ring[0]), Take]
    else
      s.shutdown && s' == s.(threads := s'.threads) && then_ == []
  }

  predicate HasFrame(s: State, b: nat) {
    b in s.blocks && |s.blocks[b].frame.data| == MP.MP_PAYLOAD && s.blocks[b].frame.len <= MP.MP_PAYLOAD
  }

  /** The block as forward_task leaves it for this next hop. */
  function Marked(bl: Block, k: Key): Block {
    bl.(frame := bl.frame.(outIfidx := k.ifidx % 256, nexthop := k.ip))
  }

  /** Steps 1 to 3 of forward_task. */
  ghost predicate RunsTask(s: State, b: nat, s': State, then_: seq<Act>) {
    && HasFrame(s, b) && s' == s.(threads := s'.threads)
    && then_ == if FS.Admitted(s.cfg, s.blocks[b].frame.data, s.blocks[b].frame.len) then [Hop(b)] else [Free(b)]
  }

  ghost predicate GoesFor(s: State, b: nat, k: Key)
    requires HasFrame(s, b)
  {
    var data := s.blocks[b].frame.data;
    FS.GoesVia(s.cfg, FS.DestinationOf(data), k.ip, k.ifidx) && data[22] > 1
  }

  /** Steps 4 and 5, on the configuration there is by then. */
  ghost predicate RunsHop(s: State, b: nat, s': State, then_: seq<Act>) {
    HasFrame(s, b) &&
    if exists k :: GoesFor(s, b, k) then
      exists k :: GoesFor(s, b, k)
        && s' == s.(blocks := s.blocks[b := Marked(s.blocks[b], k)], threads := s'.threads) && then_ == [Dispatch(b, k)]
    else
      s' == s.(threads := s'.threads) && then_ == [Free(b)]
  }

  /** arp_lookup, with what it finds written down. */
  ghost predicate LooksUp(s: State, k: Key, s': State) {
    exists now :: s' == s.(arp := AT.Looked(s.arp, k, now), seen := s.seen + Found(s, k), threads := s'.threads)
  }

  ghost function Found(s: State, k: Key): set<(Key, Mac)> {
    if k in s.arp then {(k, s.arp[k].mac)} else {}
  }

  ghost predicate RunsDispatch(s: State, b: nat, k: Key, s': State, then_: seq<Act>) {
    LooksUp(s, k, s') && then_ == if k in s.arp then [Send(b, k, s.arp[k].mac)] else [Park(b, k), Request(k)]
  }

  ghost predicate RunsPark(s: State, b: nat, k: Key, s': State, then_: seq<Act>) {
    exists now, freed :: PS.Enqueued(s.pend, k, b, now, s'.pend, freed)
      && s' == s.(pend := s'.pend, threads := s'.threads) && then_ == FreeAll(freed)
  }

  ghost predicate RunsSend(s: State, b: nat, k: Key, mac: Mac, s': State, then_: seq<Act>) {
    HasFrame(s, b) && then_ == [Free(b)] &&
    var bl := s.blocks[b];
    var i := FirstByIndex(s.cfg.ifs, bl.frame.outIfidx);
    if i < 0 then
      s' == s.(threads := s'.threads)
    else
      var g := FS.Rewritten(bl.frame.data, mac, s.cfg.ifs[i].mac);
      s' == s.(blocks := s.blocks[b := bl.(frame := bl.frame.(data := g))],
               wire := s.wire + [SentFrame(bl, k, mac, s.cfg.ifs[i].mac)],
               threads := s'.threads)
  }

  function SentFrame(bl: Block, k: Key, dmac: Mac, smac: Mac): Sent
    requires |bl.frame.data| == MP.MP_PAYLOAD && bl.frame.len <= MP.MP_PAYLOAD
  {
    Sent(bl.recv, bl.frame.len, k, dmac, smac, bl.frame.outIfidx,
         FS.Rewritten(bl.frame.data, dmac, smac)[..bl.frame.len])
  }

  ghost predicate RunsFree(s: State, b: nat, s': State, then_: seq<Act>) {
    && then_ == []
    && if b !in s.arena then s' == s.(heapLive := s.heapLive - {b}, threads := s'.threads)
       else if |s.free| < MP.MP_COUNT then s' == s.(free := s.free + [b], threads := s'.threads)
       else s' == s.(threads := s'.threads)
  }

  ghost predicate RunsRequest(s: State, s': State, then_: seq<Act>) {
    || (s' == s.(threads := s'.threads) && then_ == [])
    || exists b: nat :: Allocates(s, b, s') && then_ == [Free(b)]
  }

  ghost predicate RunsFlushLookup(s: State, k: Key, s': State, then_: seq<Act>) {
    LooksUp(s, k, s') && then_ == if k in s.arp then [FlushPop(k, s.arp[k].mac)] else []
  }

  ghost predicate RunsFlushPop(s: State, k: Key, mac: Mac, s': State, then_: seq<Act>) {
    s' == s.(pend := PS.Popped(s.pend, k).0, threads := s'.threads) && then_ == SendAll(PS.Popped(s.pend, k).1, k, mac)
  }

  ghost predicate RunsArpFrame(s: State, b: nat, ifidx: int, s': State, then_: seq<Act>) {
    && s' == s.(threads := s'.threads) && HasFrame(s, b)
    && var f := s.blocks[b].frame;
       if FW.ArpOk(f.data, f.len) then
         var k := FW.SenderOf(f.data, ifidx);
         var learn := if FW.OnSubnetOf(s.cfg.ifs, k) then [Learn(k, f.data[22..28])] else [];
         || then_ == learn + [Free(b)]
         || (FW.IsRequest(f.data) && then_ == learn + [FlushLookup(k), Free(b)])
       else then_ == [Free(b)]
  }

  ghost predicate RunsLearn(s: State, k: Key, mac: Mac, s': State, then_: seq<Act>) {
    exists now :: AT.Learned(s.arp, k, mac, now, s'.arp) && s' == s.(arp := s'.arp, threads := s'.threads) && then_ == []
  }

  ghost predicate RunsArpTick(s: State, s': State, then_: seq<Act>) {
    exists now :: s' == s.(arp := AT.Aged(s.arp, now, s.timeout), threads := s'.threads) && then_ == []
  }

  ghost predicate RunsScan(s: State, s': State, then_: seq<Act>) {
    exists now: U64 :: s' == s.(pend := PS.Retried(s.pend, now), threads := s'.threads)
      && then_ == FreeAll(PS.GivenUp(s.pend)) + FlushKeys(PS.Retried(s.pend, now))
  }

  /** Act a does this to the shared state (s to s', threads aside) and is replaced by the acts `then_`. */
  ghost predicate Effect(s: State, a: Act, s': State, then_: seq<Act>) {
    match a
    case RxLoop => RunsRxLoop(s, s', then_)
    case Recv(b) => RunsRecv(s, b, s', then_)
    case Submit(b) => RunsSubmit(s, b, s', then_)
    case Stop => s' == s.(shutdown := true, threads := s'.threads) && then_ == []
    case Take => RunsTake(s, s', then_)
    case Task(b) => RunsTask(s, b, s', then_)
    case Hop(b) => RunsHop(s, b, s', then_)
    case Dispatch(b, k) => RunsDispatch(s, b, k, s', then_)
    case Park(b, k) => RunsPark(s, b, k, s', then_)
    case Send(b, k, mac) => RunsSend(s, b, k, mac, s', then_)
    case Free(b) => RunsFree(s, b, s', then_)
    case Request(k) => RunsRequest(s, s', then_)
    case FlushLookup(k) => RunsFlushLookup(s, k, s', then_)
    case FlushPop(k, mac) => RunsFlushPop(s, k, mac, s', then_)
    case ArpFrame(b, ifidx) => RunsArpFrame(s, b, ifidx, s', then_)
    case Learn(k, mac) => RunsLearn(s, k, mac, s', then_)
    case TimerLoop => s' == s.(threads := s'.threads) && (then_ == [] || then_ == [ArpTick, Scan, TimerLoop])
    case ArpTick => RunsArpTick(s, s', then_)
    case Scan => RunsScan(s, s', then_)
  }

  ghost predicate ThreadStep(s: State, t: nat, s': State) {
    && t < |s.threads| && s.threads[t] != []
    && exists then_ :: Effect(s, s.threads[t][0], s', then_) && s'.threads == s.threads[t := then_ + s.threads[t][1..]]
  }

  /** arp_set_timeout. */
  function TimeoutSet(old_: int, sec: int): int {
    if sec >= 10 then sec else old_
  }

  /** The control plane may change the configuration and the ARP timeout and delete ARP entries at any time. */
  ghost predicate ControlStep(s: State, s': State) {
    || s' == s.(cfg := s'.cfg)
    || (exists sec :: s' == s.(timeout := TimeoutSet(s.timeout, sec)))
    || (exists k :: s' == s.(arp := s.arp - {k}))
  }

  ghost predicate Next(s: State, s': State) {
    (exists t :: ThreadStep(s, t, s')) || ControlStep(s, s')
  }

  ghost predicate Init(s: State) {
    && |s.arena| == MP.MP_COUNT && multiset(s.free) == multiset(s.arena) && s.heapLive == {} && s.leaked == multiset{}
    && s.ring == [] && !s.shutdown && s.accepted == [] && s.started == [] && s.pend == [] && s.arp == map[] && s.seen == {} && s.wire == []
    && s.threads != [] && s.threads[0] == [RxLoop, Stop]
    && (forall t :: 1 <= t < |s.threads| ==> s.threads[t] == if t in s.workers then [Take] else [TimerLoop])
    && 0 !in s.workers
  }

  // ---------------------------------------------------------------- every block is in one place

  function BlockOf(a: Act): multiset<nat> {
    match a
    case Recv(b) => multiset{b}
    case Submit(b) => multiset{b}
    case ArpFrame(b, _) => multiset{b}
    case Task(b) => multiset{b}
    case Hop(b) => multiset{b}
    case Dispatch(b, _) => multiset{b}
    case Park(b, _) => multiset{b}
    case Send(b, _, _) => multiset{b}
    case Free(b) => multiset{b}
    case _ => multiset{}
  }

  function Held(acts: seq<Act>): multiset<nat> {
    if acts == [] then multiset{} else BlockOf(acts[0]) + Held(acts[1..])
  }

  function HeldByAll(ths: seq<seq<Act>>): multiset<nat> {
    if ths == [] then multiset{} else Held(ths[0]) + HeldByAll(ths[1..])
  }

  /** The blocks no thread holds: free, queued, parked or lost. */
  function Shared(s: State): multiset<nat> {
    multiset(s.free) + multiset(s.ring) + PS.Parked(s.pend) + s.leaked
  }

  /** Every block of the arena, and every live malloc block, is in exactly one place. */
  ghost predicate Partitioned(s: State) {
    && |s.arena| == MP.MP_COUNT && s.arena !! s.heapLive
    && (forall b :: b in s.free ==> b in s.arena)
    && Shared(s) + HeldByAll(s.threads) == multiset(s.arena + s.heapLive)
  }

  /** Said for one block: it is free, queued, parked, lost or in the hands of one thread, and only one of these. */
  lemma OnePlace(s: State, b: nat)
    requires Partitioned(s) && b in s.arena
    ensures multiset(s.free)[b] + multiset(s.ring)[b] + PS.Parked(s.pend)[b] + s.leaked[b] + HeldByAll(s.threads)[b] == 1
  {
    assert (Shared(s) + HeldByAll(s.threads))[b] == multiset(s.arena + s.heapLive)[b];
  }

  lemma {:induction false} HeldConcat(a: seq<Act>, b: seq<Act>)
    ensures Held(a + b) == Held(a) + Held(b)
  {
    if a == [] {
      assert a + b == b;
    } else {
      assert (a + b)[1..] == a[1..] + b;
      HeldConcat(a[1..], b);
    }
  }

  lemma {:induction false} HeldSplit(ths: seq<seq<Act>>, t: nat)
    requires t < |ths|
    ensures HeldByAll(ths) == HeldByAll(ths[t := []]) + Held(ths[t])
  {
    if t == 0 {
      assert ths[0 := []][1..] == ths[1..];
    } else {
      HeldSplit(ths[1..], t - 1);
      assert ths[t := []][1..] == ths[1..][t - 1 := []];
    }
  }

  lemma {:induction false} HeldFreeAll(c: seq<nat>)
    ensures Held(FreeAll(c)) == multiset(c)
  {
    if c == [] {
      NothingHeld();
    } else {
      HeldFreeAll(c[1..]);
      HeldOne(Free(c[0]));
      hide Held;
      HeldConcat([Free(c[0])], FreeAll(c[1..]));
      assert c == [c[0]] + c[1..];
    }
  }

  lemma {:induction false} HeldSendAll(c: seq<nat>, k: Key, mac: Mac)
    ensures Held(SendAll(c, k, mac)) == multiset(c)
  {
    if c == [] {
      NothingHeld();
    } else {
      HeldSendAll(c[1..], k, mac);
      HeldOne(Send(c[0], k, mac));
      hide Held;
      HeldConcat([Send(c[0], k, mac)], SendAll(c[1..], k, mac));
      assert c == [c[0]] + c[1..];
    }
  }

  lemma {:induction false} HeldFlushKeys(p: PS.Pend)
    ensures Held(FlushKeys(p)) == multiset{}
  {
    hide Held, FlushKeys;
    if p == [] {
      NoFlushKeys(p);
    } else {
      HeldFlushKeys(p[1..]);
      FlushKeysSplit(p);
      HeldTwo(Request(p[0].key), FlushLookup(p[0].key));
      HeldConcat([Request(p[0].key), FlushLookup(p[0].key)], FlushKeys(p[1..]));
    }
  }

  lemma NoFlushKeys(p: PS.Pend)
    requires p == []
    ensures Held(FlushKeys(p)) == multiset{}
  {}

  lemma FlushKeysSplit(p: PS.Pend)
    requires p != []
    ensures FlushKeys(p) == [Request(p[0].key), FlushLookup(p[0].key)] + FlushKeys(p[1..])
  {}

  lemma NothingHeld()
    ensures Held([]) == multiset{}
  {}

  lemma HeldOne(a: Act)
    ensures Held([a]) == BlockOf(a)
  {}

  lemma HeldTwo(a: Act, b: Act)
    ensures Held([a, b]) == BlockOf(a) + BlockOf(b)
  {
    assert [a, b][1..] == [b];
    HeldOne(b);
  }

  /** The guard of mp_free holds whenever an arena block is freed. */
  lemma GuardHolds(s: State, t: nat)
    requires Partitioned(s) && t < |s.threads| && s.threads[t] != [] && s.threads[t][0].Free? && s.threads[t][0].b in s.arena
    ensures |s.free| < MP.MP_COUNT
  {
    HeldSplit(s.threads, t);
    var b := s.threads[t][0].b;
    var rest := HeldByAll(s.threads[t := []]) + Held(s.threads[t][1..]);
    var all := multiset(s.arena + s.heapLive);
    assert all == multiset(s.free) + multiset{b} + (multiset(s.ring) + PS.Parked(s.pend) + s.leaked + rest);
    FreeFits(s.arena, s.heapLive, s.free, b, multiset(s.ring) + PS.Parked(s.pend) + s.leaked + rest);
  }

  lemma FreeFits(arena: set<nat>, heap: set<nat>, free: seq<nat>, b: nat, rest: multiset<nat>)
    requires arena !! heap && b in arena && forall c :: c in free ==> c in arena
    requires multiset(arena + heap) == multiset(free) + multiset{b} + rest
    ensures |free| < |arena|
  {
    var f := multiset(free) + multiset{b};
    forall c ensures f[c] <= multiset(arena)[c] {
      if f[c] > 0 {
        assert c in arena by { if c != b { assert c in multiset(free); } }
        assert multiset(arena + heap)[c] == 1;
      }
    }
    SubMultisetSize(f, multiset(arena));
    assert |multiset(free)| == |free|;
    assert |multiset(arena)| == |arena|;
  }

  lemma SubMultisetSize(a: multiset<nat>, b: multiset<nat>)
    requires a <= b
    ensures |a| <= |b|
  {
    assert b == a + (b - a);
  }

  function Live(s: State): multiset<nat> {
    multiset(s.arena + s.heapLive)
  }

  /** What one act takes from and gives to the shared places balances, malloc and free included. */
  ghost predicate Balances(s: State, held: multiset<nat>, s': State, then_: seq<Act>) {
    && s'.arena == s.arena && s'.arena !! s'.heapLive && (forall b :: b in s'.free ==> b in s'.arena)
    && Shared(s') + Held(then_) + Live(s) == Shared(s) + held + Live(s')
  }

  ghost predicate FreesAreSafe(s: State, a: Act) {
    && s.arena !! s.heapLive && (forall b :: b in s.free ==> b in s.arena)
    && (a.Free? ==> if a.b in s.arena then |s.free| < MP.MP_COUNT else a.b in s.heapLive)
  }

  lemma AllocBalances(s: State, b: nat, s': State)
    requires s.arena !! s.heapLive && (forall c :: c in s.free ==> c in s.arena) && Allocates(s, b, s')
    ensures s'.arena == s.arena && s'.arena !! s'.heapLive && (forall c :: c in s'.free ==> c in s'.arena)
    ensures Shared(s') + multiset{b} + Live(s) == Shared(s) + Live(s')
  {
    if s.free != [] && b == s.free[|s.free| - 1] && s'.heapLive == s.heapLive && s'.free == s.free[..|s.free| - 1] {
      assert s.free == s'.free + [b];
    } else {
      assert s'.arena + s'.heapLive == s.arena + s.heapLive + {b};
    }
  }

  lemma FreeBalances(s: State, b: nat, s': State, then_: seq<Act>)
    requires FreesAreSafe(s, Free(b)) && RunsFree(s, b, s', then_)
    ensures Balances(s, multiset{b}, s', then_)
  {
    if b !in s.arena {
      assert s.arena + s.heapLive == s'.arena + s'.heapLive + {b};
    }
  }

  /** The step left free stack, ring, queue and leaked blocks alone. */
  predicate Quiet(s: State, s': State) {
    && s'.arena == s.arena && s'.free == s.free && s'.heapLive == s.heapLive && s'.leaked == s.leaked
    && s'.ring == s.ring && s'.pend == s.pend
  }

  lemma QuietBalances(s: State, a: Act, s': State, then_: seq<Act>)
    requires FreesAreSafe(s, a) && Quiet(s, s') && Held(then_) == BlockOf(a)
    ensures Balances(s, BlockOf(a), s', then_)
  {}

  lemma RecvBalances(s: State, b: nat, s': State, then_: seq<Act>)
    requires FreesAreSafe(s, Recv(b)) && RunsRecv(s, b, s', then_)
    ensures Balances(s, multiset{b}, s', then_)
  {
    if then_ != [] {
      HeldOne(then_[0]);
      QuietBalances(s, Recv(b), s', then_);
    }
  }

  lemma SubmitBalances(s: State, b: nat, s': State, then_: seq<Act>)
    requires FreesAreSafe(s, Submit(b)) && RunsSubmit(s, b, s', then_)
    ensures Balances(s, multiset{b}, s', then_)
  {
    HeldOne(Free(b));
    NothingHeld();
    hide Held, PS.Parked;
  }

  lemma TakeBalances(s: State, s': State, then_: seq<Act>)
    requires FreesAreSafe(s, Take) && RunsTake(s, s', then_)
    ensures Balances(s, multiset{}, s', then_)
  {
    hide Held, PS.Parked, Live;
    if s.ring != [] {
      HeldTwo(Task(s.ring[0]), Take);
      HeadLeaves(s.ring);
      SameLive(s, s');
      RingRegroup(multiset(s.free), multiset(s.ring), PS.Parked(s.pend) + s.leaked, multiset(s.ring[1..]), multiset{s.ring[0]}, Live(s));
      SharedParts(s);
      SharedParts(s');
      hide Shared;
    } else {
      NothingHeld();
      QuietBalances(s, Take, s', then_);
    }
  }

  lemma SharedParts(s: State)
    ensures Shared(s) == multiset(s.free) + multiset(s.ring) + (PS.Parked(s.pend) + s.leaked)
  {}

  lemma RingRegroup(f: multiset<nat>, r: multiset<nat>, x: multiset<nat>, r': multiset<nat>, h': multiset<nat>, v: multiset<nat>)
    requires r' + h' == r
    ensures f + r' + x + h' + v == f + r + x + multiset{} + v
  {}

  lemma HeadLeaves(c: seq<nat>)
    requires c != []
    ensures multiset(c[1..]) + multiset{c[0]} == multiset(c)
  {
    assert c == [c[0]] + c[1..];
  }

  lemma SameLive(s: State, s': State)
    requires s'.arena == s.arena && s'.heapLive == s.heapLive
    ensures Live(s') == Live(s)
  {}

  /** The step only exchanged frames between the queue and the acts. */
  lemma QueueBalances(s: State, a: Act, s': State, then_: seq<Act>)
    requires FreesAreSafe(s, a) && Quiet(s, s'.(pend := s.pend))
    requires PS.Parked(s'.pend) + Held(then_) == PS.Parked(s.pend) + BlockOf(a)
    ensures Balances(s, BlockOf(a), s', then_)
  {
    Regroup(multiset(s.free) + multiset(s.ring), s.leaked, Live(s), PS.Parked(s'.pend), Held(then_), PS.Parked(s.pend), BlockOf(a));
    hide PS.Parked, Held, BlockOf, Live;
  }

  lemma Regroup(x: multiset<nat>, l: multiset<nat>, v: multiset<nat>,
                p': multiset<nat>, h': multiset<nat>, p: multiset<nat>, h: multiset<nat>)
    requires p' + h' == p + h
    ensures x + p' + l + h' + v == x + p + l + h + v
  {
    forall e ensures (x + p' + l + h' + v)[e] == (x + p + l + h + v)[e] {
      assert (p' + h')[e] == (p + h)[e];
    }
  }

  lemma ParkBalances(s: State, b: nat, k: Key, s': State, then_: seq<Act>)
    requires FreesAreSafe(s, Park(b, k)) && RunsPark(s, b, k, s', then_)
    ensures Balances(s, multiset{b}, s', then_)
  {
    var now, freed :| PS.Enqueued(s.pend, k, b, now, s'.pend, freed)
      && s' == s.(pend := s'.pend, threads := s'.threads) && then_ == FreeAll(freed);
    PS.EnqueueConserves(s.pend, k, b, now, s'.pend, freed);
    HeldFreeAll(freed);
    hide PS.Enqueued, Balances;
    QueueBalances(s, Park(b, k), s', then_);
  }

  lemma FlushPopBalances(s: State, k: Key, mac: Mac, s': State, then_: seq<Act>)
    requires FreesAreSafe(s, FlushPop(k, mac)) && RunsFlushPop(s, k, mac, s', then_)
    ensures Balances(s, multiset{}, s', then_)
  {
    hide PS.Popped, Balances;
    PS.PopConserves(s.pend, k);
    HeldSendAll(PS.Popped(s.pend, k).1, k, mac);
    QueueBalances(s, FlushPop(k, mac), s', then_);
  }

  lemma ScanBalances(s: State, s': State, then_: seq<Act>)
    requires FreesAreSafe(s, Scan) && RunsScan(s, s', then_)
    ensures Balances(s, multiset{}, s', then_)
  {
    hide PS.Retried, PS.GivenUp, Balances;
    var now: U64 :| s' == s.(pend := PS.Retried(s.pend, now), threads := s'.threads)
      && then_ == FreeAll(PS.GivenUp(s.pend)) + FlushKeys(PS.Retried(s.pend, now));
    PS.RetryConserves(s.pend, now);
    HeldFreeAll(PS.GivenUp(s.pend));
    HeldFlushKeys(PS.Retried(s.pend, now));
    HeldConcat(FreeAll(PS.GivenUp(s.pend)), FlushKeys(PS.Retried(s.pend, now)));
    QueueBalances(s, Scan, s', then_);
  }

  lemma AllocatingBalances(s: State, a: Act, b: nat, s': State, then_: seq<Act>)
    requires FreesAreSafe(s, a) && BlockOf(a) == multiset{} && Allocates(s, b, s') && Held(then_) == multiset{b}
    ensures Balances(s, multiset{}, s', then_)
  {
    AllocBalances(s, b, s');
  }

  lemma RxLoopBalances(s: State, s': State, then_: seq<Act>)
    requires FreesAreSafe(s, RxLoop) && RunsRxLoop(s, s', then_)
    ensures Balances(s, multiset{}, s', then_)
  {
    if b: nat :| Allocates(s, b, s') && then_ == [Recv(b), RxLoop] {
      HeldTwo(Recv(b), RxLoop);
      AllocatingBalances(s, RxLoop, b, s', then_);
    } else {
      HeldOne(RxLoop);
      QuietBalances(s, RxLoop, s', then_);
    }
  }

  lemma RequestBalances(s: State, k: Key, s': State, then_: seq<Act>)
    requires FreesAreSafe(s, Request(k)) && RunsRequest(s, s', then_)
    ensures Balances(s, multiset{}, s', then_)
  {
    hide Balances, Allocates, Held;
    if b: nat :| Allocates(s, b, s') && then_ == [Free(b)] {
      HeldOne(Free(b));
      AllocatingBalances(s, Request(k), b, s', then_);
    } else {
      HeldNone(then_);
      QuietBalances(s, Request(k), s', then_);
    }
  }

  lemma ArpFrameBalances(s: State, b: nat, ifidx: int, s': State, then_: seq<Act>)
    requires FreesAreSafe(s, ArpFrame(b, ifidx)) && RunsArpFrame(s, b, ifidx, s', then_)
    ensures Balances(s, multiset{b}, s', then_)
  {
    ArpFrameActs(s, b, ifidx, s', then_);
    QuietBalances(s, ArpFrame(b, ifidx), s', then_);
  }

  /** Whatever arp_handle_frame does, it ends by freeing the frame, and holds no other block. */
  lemma ArpFrameActs(s: State, b: nat, ifidx: int, s': State, then_: seq<Act>)
    requires RunsArpFrame(s, b, ifidx, s', then_)
    ensures then_ != [] && then_[|then_| - 1] == Free(b) && Held(then_) == multiset{b}
    ensures forall j :: 0 <= j < |then_| - 1 ==> then_[j].Learn? || then_[j].FlushLookup?
  {
    hide Held, BlockOf, RunsArpFrame;
    var pre := ArpFrameShape(s, b, ifidx, s', then_);
    HeldThenFree(pre, b);
  }

  lemma HeldThenFree(pre: seq<Act>, b: nat)
    requires forall j :: 0 <= j < |pre| ==> BlockOf(pre[j]) == multiset{}
    ensures Held(pre + [Free(b)]) == multiset{b}
  {
    hide Held, BlockOf;
    HeldNone(pre);
    HeldConcat(pre, [Free(b)]);
    HeldOne(Free(b));
    FreeHolds(b);
  }

  lemma FreeHolds(b: nat)
    ensures BlockOf(Free(b)) == multiset{b}
  {}

  lemma ArpFrameShape(s: State, b: nat, ifidx: int, s': State, then_: seq<Act>) returns (pre: seq<Act>)
    requires RunsArpFrame(s, b, ifidx, s', then_)
    ensures then_ == pre + [Free(b)]
    ensures forall j :: 0 <= j < |pre| ==> (pre[j].Learn? || pre[j].FlushLookup?) && BlockOf(pre[j]) == multiset{}
  {
    hide FW.OnSubnetOf, FW.ArpOk, FW.IsRequest, FW.SenderOf;
    pre := then_[..|then_| - 1];
  }

  lemma {:induction false} HeldNone(acts: seq<Act>)
    requires forall j :: 0 <= j < |acts| ==> BlockOf(acts[j]) == multiset{}
    ensures Held(acts) == multiset{}
  {
    if acts != [] {
      HeldNone(acts[1..]);
    }
  }

  lemma TaskBalances(s: State, b: nat, s': State, then_: seq<Act>)
    requires FreesAreSafe(s, Task(b)) && RunsTask(s, b, s', then_)
    ensures Balances(s, multiset{b}, s', then_)
  {
    hide Balances, FS.Admitted;
    HeldOne(then_[0]);
    QuietBalances(s, Task(b), s', then_);
  }

  lemma HopBalances(s: State, b: nat, s': State, then_: seq<Act>)
    requires FreesAreSafe(s, Hop(b)) && RunsHop(s, b, s', then_)
    ensures Balances(s, multiset{b}, s', then_)
  {
    hide GoesFor, Balances;
    HeldOne(then_[0]);
    QuietBalances(s, Hop(b), s', then_);
  }

  lemma LookupIsQuiet(s: State, k: Key, s': State)
    requires LooksUp(s, k, s')
    ensures Quiet(s, s')
  {
    hide AT.Looked;
  }

  lemma HeldParkRequest(b: nat, k: Key)
    ensures Held([Park(b, k), Request(k)]) == multiset{b}
  {
    HeldTwo(Park(b, k), Request(k));
  }

  lemma DispatchBalances(s: State, b: nat, k: Key, s': State, then_: seq<Act>)
    requires FreesAreSafe(s, Dispatch(b, k)) && RunsDispatch(s, b, k, s', then_)
    ensures Balances(s, multiset{b}, s', then_)
  {
    hide Balances, LooksUp, Quiet, Held;
    LookupIsQuiet(s, k, s');
    if k in s.arp {
      HeldOne(then_[0]);
    } else {
      HeldParkRequest(b, k);
    }
    QuietBalances(s, Dispatch(b, k), s', then_);
  }

  lemma SendBalances(s: State, b: nat, k: Key, mac: Mac, s': State, then_: seq<Act>)
    requires FreesAreSafe(s, Send(b, k, mac)) && RunsSend(s, b, k, mac, s', then_)
    ensures Balances(s, multiset{b}, s', then_)
  {
    hide Balances, FS.Rewritten;
    HeldOne(Free(b));
    QuietBalances(s, Send(b, k, mac), s', then_);
  }

  /** The remaining acts are quiet and hold nothing. */
  lemma RestBalances(s: State, a: Act, s': State, then_: seq<Act>)
    requires FreesAreSafe(s, a) && Effect(s, a, s', then_)
    requires a.Stop? || a.FlushLookup? || a.Learn? || a.TimerLoop? || a.ArpTick?
    ensures Balances(s, multiset{}, s', then_)
  {
    hide Balances, LooksUp, AT.Learned, AT.Aged, Held, RunsRxLoop, RunsRecv, RunsSubmit, RunsTake, RunsTask, RunsHop, RunsDispatch,
         RunsPark, RunsSend, RunsFree, RunsRequest, RunsFlushPop, RunsArpFrame, RunsScan;
    if a.FlushLookup? {
      LookupIsQuiet(s, a.k, s');
    }
    HeldNone(then_);
    QuietBalances(s, a, s', then_);
  }

  lemma EffectBalances(s: State, a: Act, s': State, then_: seq<Act>)
    requires FreesAreSafe(s, a) && Effect(s, a, s', then_)
    ensures Balances(s, BlockOf(a), s', then_)
  {
    hide Balances, FreesAreSafe, RunsRxLoop, RunsRecv, RunsSubmit, RunsTake, RunsTask, RunsHop, RunsDispatch, RunsPark, RunsSend,
         RunsFree, RunsRequest, RunsFlushLookup, RunsFlushPop, RunsArpFrame, RunsLearn, RunsArpTick, RunsScan;
    match a
    case Free(b) => FreeBalances(s, b, s', then_);
    case Park(b, k) => ParkBalances(s, b, k, s', then_);
    case FlushPop(k, mac) => FlushPopBalances(s, k, mac, s', then_);
    case Scan => ScanBalances(s, s', then_);
    case Take => TakeBalances(s, s', then_);
    case Task(b) => TaskBalances(s, b, s', then_);
    case Dispatch(b, k) => DispatchBalances(s, b, k, s', then_);
    case Hop(b) => HopBalances(s, b, s', then_);
    case Send(b, k, mac) => SendBalances(s, b, k, mac, s', then_);
    case Recv(b) => RecvBalances(s, b, s', then_);
    case Submit(b) => SubmitBalances(s, b, s', then_);
    case RxLoop => RxLoopBalances(s, s', then_);
    case Request(k) => RequestBalances(s, k, s', then_);
    case ArpFrame(b, ifidx) => ArpFrameBalances(s, b, ifidx, s', then_);
    case _ => RestBalances(s, a, s', then_);
  }

  /** What the threads hold before and after thread t swaps its first act for others. */
  lemma HeldExchange(ths: seq<seq<Act>>, t: nat, then_: seq<Act>)
    requires t < |ths| && ths[t] != []
    ensures var others, rest := HeldByAll(ths[t := []]), Held(ths[t][1..]);
            && HeldByAll(ths) == others + (BlockOf(ths[t][0]) + rest)
            && HeldByAll(ths[t := then_ + ths[t][1..]]) == others + (Held(then_) + rest)
  {
    hide HeldByAll, Held;
    var ths' := ths[t := then_ + ths[t][1..]];
    HeldSplit(ths, t);
    HeldSplit(ths', t);
    HeldHead(ths[t]);
    assert ths'[t := []] == ths[t := []];
    HeldConcat(then_, ths[t][1..]);
  }

  lemma HeldHead(acts: seq<Act>)
    requires acts != []
    ensures Held(acts) == BlockOf(acts[0]) + Held(acts[1..])
  {}

  /** The act at the head of a thread is safe to run: a block it frees is owned. */
  lemma HeadIsSafe(s: State, t: nat)
    requires Partitioned(s) && t < |s.threads| && s.threads[t] != []
    ensures FreesAreSafe(s, s.threads[t][0])
  {
    if s.threads[t][0].Free? {
      if s.threads[t][0].b in s.arena {
        GuardHolds(s, t);
      } else {
        FreedIsLive(s, t, s.threads[t][0].b);
      }
    }
  }

  lemma FreedIsLive(s: State, t: nat, b: nat)
    requires Partitioned(s) && t < |s.threads| && s.threads[t] != [] && s.threads[t][0] == Free(b)
    ensures b in s.arena + s.heapLive
  {
    hide HeldByAll, Held, Shared;
    HeldExchange(s.threads, t, []);
    HeldIsLive(Shared(s), HeldByAll(s.threads[t := []]), b, Held(s.threads[t][1..]), s.arena, s.heapLive);
  }

  lemma HeldIsLive(x: multiset<nat>, others: multiset<nat>, b: nat, rest: multiset<nat>, arena: set<nat>, heap: set<nat>)
    requires x + (others + (multiset{b} + rest)) == multiset(arena + heap)
    ensures b in arena + heap
  {
    assert (x + (others + (multiset{b} + rest)))[b] > 0;
  }

  /** Conservation: whatever thread moves, every block is still in exactly one place. */
  lemma StepKeepsPartition(s: State, t: nat, s': State)
    requires Partitioned(s) && ThreadStep(s, t, s')
    ensures Partitioned(s')
  {
    hide Effect, Shared, FreesAreSafe, Held, HeldByAll;
    var a := s.threads[t][0];
    var then_ :| Effect(s, a, s', then_) && s'.threads == s.threads[t := then_ + s.threads[t][1..]];
    HeadIsSafe(s, t);
    EffectBalances(s, a, s', then_);
    HeldExchange(s.threads, t, then_);
    Settle(Shared(s), Shared(s'), Held(then_), Live(s), BlockOf(a), Live(s'), HeldByAll(s.threads[t := []]), Held(s.threads[t][1..]));
  }

  lemma Settle(x: multiset<nat>, x': multiset<nat>, h': multiset<nat>, v: multiset<nat>, h: multiset<nat>, v': multiset<nat>,
               others: multiset<nat>, rest: multiset<nat>)
    requires x' + h' + v == x + h + v'
    requires x + (others + (h + rest)) == v
    ensures x' + (others + (h' + rest)) == v'
  {
    forall e ensures (x' + (others + (h' + rest)))[e] == v'[e] {
      assert (x' + h' + v)[e] == (x + h + v')[e];
      assert (x + (others + (h + rest)))[e] == v[e];
    }
  }

  // ---------------------------------------------------------------- what the frames look like

  /** Unchanged since recvfrom. */
  predicate AsReceived(bl: Block) {
    |bl.frame.data| == MP.MP_PAYLOAD && bl.frame.len <= MP.MP_PAYLOAD && bl.frame.data == bl.recv
  }

  predicate Ready(bl: Block, k: Key) {
    AsReceived(bl) && FW.MarkedFor(bl.frame, k)
  }

  /** A forwarded frame is the received one but for what forward_send rewrites. */
  predicate SentOk(w: Sent) {
    && |w.recv| == MP.MP_PAYLOAD && w.len <= MP.MP_PAYLOAD && FS.Forwardable(w.recv, w.len)
    && w.bytes == FS.Rewritten(w.recv, w.dmac, w.smac)[..w.len] && w.ifidx == w.k.ifidx % 256
  }

  predicate ActFine(a: Act, blocks: map<nat, Block>) {
    match a
    case Submit(b) => b in blocks && AsReceived(blocks[b])
    case ArpFrame(b, _) => b in blocks && AsReceived(blocks[b])
    case Task(b) => b in blocks && AsReceived(blocks[b])
    case Dispatch(b, k) => b in blocks && Ready(blocks[b], k)
    case Park(b, k) => b in blocks && Ready(blocks[b], k)
    case Hop(b) => b in blocks && AsReceived(blocks[b]) && FS.HeaderOk(blocks[b].frame.data, blocks[b].frame.len)
    case Send(b, k, _) => b in blocks && Ready(blocks[b], k)
    case _ => true
  }

  predicate ActsFine(acts: seq<Act>, blocks: map<nat, Block>) {
    forall j :: 0 <= j < |acts| ==> ActFine(acts[j], blocks)
  }

  predicate RingFine(ring: seq<nat>, blocks: map<nat, Block>) {
    forall j :: 0 <= j < |ring| ==> ring[j] in blocks && AsReceived(blocks[ring[j]])
  }

  predicate PendFine(p: PS.Pend, blocks: map<nat, Block>) {
    forall i, b {:trigger b in p[i].frames} :: 0 <= i < |p| && b in p[i].frames ==> b in blocks && Ready(blocks[b], p[i].key)
  }

  predicate WireFine(wire: seq<Sent>) {
    forall j :: 0 <= j < |wire| ==> SentOk(wire[j])
  }

  ghost predicate Faithful(s: State) {
    && RingFine(s.ring, s.blocks) && PendFine(s.pend, s.blocks) && WireFine(s.wire)
    && forall t :: 0 <= t < |s.threads| ==> ActsFine(s.threads[t], s.blocks)
  }

  /** Only block b may differ. */
  predicate OnlyChanges(blocks: map<nat, Block>, blocks': map<nat, Block>, b: nat) {
    forall c :: c in blocks && c != b ==> c in blocks' && blocks'[c] == blocks[c]
  }

  lemma RingKept(ring: seq<nat>, blocks: map<nat, Block>, blocks': map<nat, Block>, b: nat)
    requires RingFine(ring, blocks) && OnlyChanges(blocks, blocks', b) && multiset(ring)[b] == 0
    ensures RingFine(ring, blocks')
  {
    hide AsReceived;
    forall j | 0 <= j < |ring| ensures ring[j] in blocks' && AsReceived(blocks'[ring[j]]) {
      assert ring[j] in multiset(ring);
    }
  }

  lemma {:induction false} PendKept(p: PS.Pend, blocks: map<nat, Block>, blocks': map<nat, Block>, b: nat)
    requires PendFine(p, blocks) && OnlyChanges(blocks, blocks', b) && PS.Parked(p)[b] == 0
    ensures PendFine(p, blocks')
  {
    hide Ready;
    forall i, c | 0 <= i < |p| && c in p[i].frames ensures c in blocks' && Ready(blocks'[c], p[i].key) {
      PS.ParkedSplit(p, i);
      assert c in multiset(p[i].frames);
    }
  }

  lemma {:induction false} HeldAt(acts: seq<Act>, j: nat)
    requires j < |acts|
    ensures BlockOf(acts[j]) <= Held(acts)
  {
    if j > 0 {
      HeldAt(acts[1..], j - 1);
    }
  }

  lemma ActsKept(acts: seq<Act>, blocks: map<nat, Block>, blocks': map<nat, Block>, b: nat)
    requires ActsFine(acts, blocks) && OnlyChanges(blocks, blocks', b) && Held(acts)[b] == 0
    ensures ActsFine(acts, blocks')
  {
    forall j | 0 <= j < |acts| ensures ActFine(acts[j], blocks') {
      HeldAt(acts, j);
      ActKept(acts[j], blocks, blocks', b);
    }
  }

  lemma ActKept(a: Act, blocks: map<nat, Block>, blocks': map<nat, Block>, b: nat)
    requires ActFine(a, blocks) && OnlyChanges(blocks, blocks', b) && BlockOf(a)[b] == 0
    ensures ActFine(a, blocks')
  {
    hide AsReceived, Ready, FS.HeaderOk;
  }

  /** The block an act may write: its own, or the one it allocates. */
  ghost predicate Writes(s: State, a: Act, s': State, b: nat) {
    && OnlyChanges(s.blocks, s'.blocks, b)
    && (BlockOf(a) == multiset{b} || (BlockOf(a) == multiset{} && (b in s.free || b !in s.arena + s.heapLive)))
  }

  /** Such a block is nowhere but with the act. */
  lemma Exclusive(s: State, t: nat, s': State, b: nat)
    requires Partitioned(s) && t < |s.threads| && s.threads[t] != [] && Writes(s, s.threads[t][0], s', b)
    ensures multiset(s.ring)[b] == 0 && PS.Parked(s.pend)[b] == 0
    ensures HeldByAll(s.threads[t := []])[b] == 0 && Held(s.threads[t][1..])[b] == 0
  {
    HeldSplit(s.threads, t);
    var a, rest := s.threads[t][0], s.threads[t][1..];
    var live := multiset(s.arena + s.heapLive);
    assert Shared(s) + (HeldByAll(s.threads[t := []]) + (BlockOf(a) + Held(rest))) == live;
    assert live[b] <= 1;
    assert b in s.free ==> multiset(s.free)[b] >= 1;
    assert (Shared(s) + (HeldByAll(s.threads[t := []]) + (BlockOf(a) + Held(rest))))[b] == live[b];
  }

  /** Every effect writes at most one block, and one it may write. */
  lemma EffectWrites(s: State, a: Act, s': State, then_: seq<Act>) returns (b: nat)
    requires Effect(s, a, s', then_) && s.arena + s.heapLive != {}
    ensures s'.blocks == s.blocks || Writes(s, a, s', b)
  {
    hide Route, RunsSubmit, RunsTake, RunsDispatch, RunsPark, RunsFree, RunsFlushLookup, RunsFlushPop, RunsArpFrame,
         RunsLearn, RunsArpTick, RunsScan, RunsTask, RunsHop, RunsSend, RunsRecv, RunsRxLoop, RunsRequest, Writes;
    b := 0;
    match a
    case RxLoop => b := RxLoopWrites(s, s', then_);
    case Request(k) => b := RequestWrites(s, k, s', then_);
    case Recv(c) => b := c; RecvWrites(s, c, s', then_);
    case Hop(c) => b := c; HopWrites(s, c, s', then_);
    case Send(c, k, mac) => b := c; SendWrites(s, c, k, mac, s', then_);
    case _ => OthersWriteNothing(s, a, s', then_);
  }

  lemma RxLoopWrites(s: State, s': State, then_: seq<Act>) returns (b: nat)
    requires RunsRxLoop(s, s', then_)
    ensures s'.blocks == s.blocks || Writes(s, RxLoop, s', b)
  {
    b := 0;
    if c: nat :| Allocates(s, c, s') && then_ == [Recv(c), RxLoop] { b := c; }
  }

  lemma RequestWrites(s: State, k: Key, s': State, then_: seq<Act>) returns (b: nat)
    requires RunsRequest(s, s', then_)
    ensures s'.blocks == s.blocks || Writes(s, Request(k), s', b)
  {
    b := 0;
    if c: nat :| Allocates(s, c, s') && then_ == [Free(c)] { b := c; }
  }

  lemma RecvWrites(s: State, b: nat, s': State, then_: seq<Act>)
    requires RunsRecv(s, b, s', then_)
    ensures Writes(s, Recv(b), s', b)
  {}

  lemma HopWrites(s: State, b: nat, s': State, then_: seq<Act>)
    requires RunsHop(s, b, s', then_)
    ensures Writes(s, Hop(b), s', b)
  {
    hide GoesFor;
  }

  lemma SendWrites(s: State, b: nat, k: Key, mac: Mac, s': State, then_: seq<Act>)
    requires RunsSend(s, b, k, mac, s', then_)
    ensures Writes(s, Send(b, k, mac), s', b)
  {
    hide FS.Rewritten;
  }

  lemma OthersWriteNothing(s: State, a: Act, s': State, then_: seq<Act>)
    requires Effect(s, a, s', then_)
    requires !a.RxLoop? && !a.Request? && !a.Recv? && !a.Hop? && !a.Send?
    ensures s'.blocks == s.blocks
  {
    hide AT.Looked, AT.Learned, AT.Aged, PS.Enqueued, PS.Retried, PS.Popped;
  }

  /** The new acts, queue, ring and wire of an effect are fine, given that the old ones survived its write. */
  ghost predicate NewFine(s: State, s': State, then_: seq<Act>) {
    && ActsFine(then_, s'.blocks) && RingFine(s'.ring, s'.blocks) && PendFine(s'.pend, s'.blocks)
    && (WireFine(s.wire) ==> WireFine(s'.wire))
  }

  lemma TaskFine(s: State, b: nat, s': State, then_: seq<Act>)
    requires RunsTask(s, b, s', then_) && ActFine(Task(b), s.blocks)
    requires RingFine(s.ring, s'.blocks) && PendFine(s.pend, s'.blocks)
    ensures NewFine(s, s', then_)
  {
    hide RingFine, PendFine, WireFine, FS.HeaderOk, FS.ForUs;
  }

  lemma HopFine(s: State, b: nat, s': State, then_: seq<Act>)
    requires RunsHop(s, b, s', then_) && ActFine(Hop(b), s.blocks)
    requires RingFine(s.ring, s'.blocks) && PendFine(s.pend, s'.blocks)
    ensures NewFine(s, s', then_)
  {
    hide RingFine, PendFine, WireFine, GoesFor, Ready, AsReceived, Marked, FS.HeaderOk;
    if k :| GoesFor(s, b, k) && s' == s.(blocks := s.blocks[b := Marked(s.blocks[b], k)], threads := s'.threads) && then_ == [Dispatch(b, k)] {
      RoutedIsReady(s, b, k);
    }
  }

  lemma RoutedIsReady(s: State, b: nat, k: Key)
    requires HasFrame(s, b) && AsReceived(s.blocks[b]) && GoesFor(s, b, k)
    requires FS.HeaderOk(s.blocks[b].frame.data, s.blocks[b].frame.len)
    ensures Ready(Marked(s.blocks[b], k), k)
  {
    hide FS.GoesVia, FS.HeaderOk;
  }

  lemma ParkFine(s: State, b: nat, k: Key, s': State, then_: seq<Act>)
    requires RunsPark(s, b, k, s', then_) && ActFine(Park(b, k), s.blocks)
    requires RingFine(s.ring, s'.blocks) && PendFine(s.pend, s'.blocks)
    ensures NewFine(s, s', then_)
  {
    hide RingFine, WireFine, Ready, PS.Enqueued;
    var now, freed :| PS.Enqueued(s.pend, k, b, now, s'.pend, freed)
      && s' == s.(pend := s'.pend, threads := s'.threads) && then_ == FreeAll(freed);
    FreeAllFine(freed, s'.blocks);
    forall j, c | 0 <= j < |s'.pend| && c in s'.pend[j].frames ensures c in s'.blocks && Ready(s'.blocks[c], s'.pend[j].key) {
      FW.EnqueuedFrame(s.pend, k, b, now, s'.pend, freed, j, c);
      if c != b || s'.pend[j].key != k {
        var i :| 0 <= i < |s.pend| && c in s.pend[i].frames && s.pend[i].key == s'.pend[j].key;
      }
    }
  }

  lemma {:induction false} FreeAllFine(c: seq<nat>, blocks: map<nat, Block>)
    ensures ActsFine(FreeAll(c), blocks)
  {
    if c != [] {
      FreeAllFine(c[1..], blocks);
      ActsFineConcat([Free(c[0])], FreeAll(c[1..]), blocks);
    }
  }

  lemma {:induction false} SendAllFine(c: seq<nat>, k: Key, mac: Mac, blocks: map<nat, Block>)
    requires forall j {:trigger c[j]} :: 0 <= j < |c| ==> ActFine(Send(c[j], k, mac), blocks)
    ensures ActsFine(SendAll(c, k, mac), blocks)
  {
    hide ActFine;
    if c != [] {
      assert forall j :: 0 <= j < |c[1..]| ==> c[1..][j] == c[j + 1];
      SendAllFine(c[1..], k, mac, blocks);
      assert c[0] == c[0];
      ActsFineConcat([Send(c[0], k, mac)], SendAll(c[1..], k, mac), blocks);
    }
  }

  lemma {:induction false} FlushKeysFine(p: PS.Pend, blocks: map<nat, Block>)
    ensures ActsFine(FlushKeys(p), blocks)
  {
    if p != [] {
      FlushKeysFine(p[1..], blocks);
      ActsFineConcat([Request(p[0].key), FlushLookup(p[0].key)], FlushKeys(p[1..]), blocks);
    }
  }

  lemma ActsFineConcat(a: seq<Act>, b: seq<Act>, blocks: map<nat, Block>)
    requires ActsFine(a, blocks) && ActsFine(b, blocks)
    ensures ActsFine(a + b, blocks)
  {
    hide ActFine;
    forall j | 0 <= j < |a + b| ensures ActFine((a + b)[j], blocks) {
      assert (a + b)[j] == if j < |a| then a[j] else b[j - |a|];
    }
  }

  lemma FlushPopFine(s: State, k: Key, mac: Mac, s': State, then_: seq<Act>)
    requires RunsFlushPop(s, k, mac, s', then_)
    requires RingFine(s.ring, s'.blocks) && PendFine(s.pend, s'.blocks)
    ensures NewFine(s, s', then_)
  {
    hide RingFine, WireFine, Ready;
    var p, q, c := s.pend, PS.Popped(s.pend, k).0, PS.Popped(s.pend, k).1;
    var i := PS.Pos(p, k);
    if i >= 0 {
      forall j | 0 <= j < |c| ensures ActFine(Send(c[j], k, mac), s'.blocks) {
        assert c[j] in p[i].frames;
      }
      forall j, b | 0 <= j < |q| && b in q[j].frames ensures b in s'.blocks && Ready(s'.blocks[b], q[j].key) {
        assert q[j] == p[if j < i then j else j + 1];
      }
    }
    SendAllFine(c, k, mac, s'.blocks);
  }

  lemma ScanFine(s: State, s': State, then_: seq<Act>)
    requires RunsScan(s, s', then_)
    requires RingFine(s.ring, s'.blocks) && PendFine(s.pend, s'.blocks)
    ensures NewFine(s, s', then_)
  {
    hide RingFine, WireFine, Ready;
    var now: U64 :| s' == s.(pend := PS.Retried(s.pend, now), threads := s'.threads)
      && then_ == FreeAll(PS.GivenUp(s.pend)) + FlushKeys(PS.Retried(s.pend, now));
    var q := PS.Retried(s.pend, now);
    FreeAllFine(PS.GivenUp(s.pend), s'.blocks);
    FlushKeysFine(q, s'.blocks);
    ActsFineConcat(FreeAll(PS.GivenUp(s.pend)), FlushKeys(q), s'.blocks);
    forall j, b | 0 <= j < |q| && b in q[j].frames ensures b in s'.blocks && Ready(s'.blocks[b], q[j].key) {
      var i := PS.RetriedNode(s.pend, now, j);
    }
  }

  lemma SendFine(s: State, b: nat, k: Key, mac: Mac, s': State, then_: seq<Act>)
    requires RunsSend(s, b, k, mac, s', then_) && ActFine(Send(b, k, mac), s.blocks)
    requires RingFine(s.ring, s'.blocks) && PendFine(s.pend, s'.blocks)
    ensures NewFine(s, s', then_)
  {
    hide RingFine, PendFine, FS.Rewritten, FS.Forwardable;
  }

  lemma RecvFine(s: State, b: nat, s': State, then_: seq<Act>)
    requires RunsRecv(s, b, s', then_)
    requires RingFine(s.ring, s'.blocks) && PendFine(s.pend, s'.blocks)
    ensures NewFine(s, s', then_)
  {
    hide RingFine, PendFine;
  }

  lemma TakeFine(s: State, s': State, then_: seq<Act>)
    requires RunsTake(s, s', then_)
    requires RingFine(s.ring, s'.blocks) && PendFine(s.pend, s'.blocks)
    ensures NewFine(s, s', then_)
  {
    hide PendFine, AsReceived;
  }

  lemma SubmitFine(s: State, b: nat, s': State, then_: seq<Act>)
    requires RunsSubmit(s, b, s', then_) && ActFine(Submit(b), s.blocks)
    requires RingFine(s.ring, s'.blocks) && PendFine(s.pend, s'.blocks)
    ensures NewFine(s, s', then_)
  {
    hide PendFine, AsReceived;
  }

  lemma ArpFrameFine(s: State, b: nat, ifidx: int, s': State, then_: seq<Act>)
    requires RunsArpFrame(s, b, ifidx, s', then_)
    requires RingFine(s.ring, s'.blocks) && PendFine(s.pend, s'.blocks)
    ensures NewFine(s, s', then_)
  {
    hide RingFine, PendFine, WireFine, FW.OnSubnetOf, FW.ArpOk, FW.IsRequest, FW.SenderOf, Held, ActFine, ActsFine, HasFrame;
    ArpFrameActs(s, b, ifidx, s', then_);
    CarefreeFine(then_, b, s'.blocks);
  }

  lemma CarefreeFine(acts: seq<Act>, b: nat, blocks: map<nat, Block>)
    requires acts != [] && acts[|acts| - 1] == Free(b)
    requires forall j :: 0 <= j < |acts| - 1 ==> acts[j].Learn? || acts[j].FlushLookup?
    ensures ActsFine(acts, blocks)
  {}

  lemma DispatchFine(s: State, b: nat, k: Key, s': State, then_: seq<Act>)
    requires RunsDispatch(s, b, k, s', then_) && ActFine(Dispatch(b, k), s.blocks)
    requires RingFine(s.ring, s'.blocks) && PendFine(s.pend, s'.blocks)
    ensures NewFine(s, s', then_)
  {
    hide RingFine, PendFine, AT.Looked, Ready, AsReceived;
  }

  /** The acts whose successors carry no obligation. */
  lemma RestFine(s: State, a: Act, s': State, then_: seq<Act>)
    requires Effect(s, a, s', then_)
    requires a.RxLoop? || a.Request? || a.Free? || a.Stop? || a.FlushLookup? || a.Learn? || a.TimerLoop? || a.ArpTick?
    requires RingFine(s.ring, s'.blocks) && PendFine(s.pend, s'.blocks)
    ensures NewFine(s, s', then_)
  {
    hide RingFine, PendFine, AT.Looked, AT.Learned, AT.Aged, RunsRecv, RunsSubmit, RunsTake, RunsTask, RunsHop, RunsDispatch,
         RunsPark, RunsSend, RunsFlushPop, RunsArpFrame, RunsScan;
  }

  lemma EffectFine(s: State, a: Act, s': State, then_: seq<Act>)
    requires Effect(s, a, s', then_) && ActFine(a, s.blocks)
    requires RingFine(s.ring, s'.blocks) && PendFine(s.pend, s'.blocks)
    ensures NewFine(s, s', then_)
  {
    hide NewFine, RingFine, PendFine, RunsRxLoop, RunsRecv, RunsSubmit, RunsTake, RunsTask, RunsHop, RunsDispatch, RunsPark, RunsSend,
         RunsFree, RunsRequest, RunsFlushLookup, RunsFlushPop, RunsArpFrame, RunsLearn, RunsArpTick, RunsScan, AsReceived, Ready;
    match a
    case Task(b) => TaskFine(s, b, s', then_);
    case Park(b, k) => ParkFine(s, b, k, s', then_);
    case FlushPop(k, mac) => FlushPopFine(s, k, mac, s', then_);
    case Scan => ScanFine(s, s', then_);
    case Hop(b) => HopFine(s, b, s', then_);
    case Send(b, k, mac) => SendFine(s, b, k, mac, s', then_);
    case Recv(b) => RecvFine(s, b, s', then_);
    case Take => TakeFine(s, s', then_);
    case Submit(b) => SubmitFine(s, b, s', then_);
    case ArpFrame(b, ifidx) => ArpFrameFine(s, b, ifidx, s', then_);
    case Dispatch(b, k) => DispatchFine(s, b, k, s', then_);
    case _ => RestFine(s, a, s', then_);
  }

  /** What was fine before a write that is exclusive to thread t stays fine. */
  lemma OldStaysFine(s: State, t: nat, s': State, b: nat)
    requires Partitioned(s) && Faithful(s) && t < |s.threads| && s.threads[t] != []
    requires s'.blocks == s.blocks || Writes(s, s.threads[t][0], s', b)
    ensures RingFine(s.ring, s'.blocks) && PendFine(s.pend, s'.blocks) && ActsFine(s.threads[t][1..], s'.blocks)
    ensures forall u :: 0 <= u < |s.threads| && u != t ==> ActsFine(s.threads[u], s'.blocks)
  {
    hide ActFine, RingFine, PendFine;
    assert ActsFine(s.threads[t][1..], s.blocks);
    if s'.blocks != s.blocks {
      Exclusive(s, t, s', b);
      RingKept(s.ring, s.blocks, s'.blocks, b);
      PendKept(s.pend, s.blocks, s'.blocks, b);
      ActsKept(s.threads[t][1..], s.blocks, s'.blocks, b);
      forall u | 0 <= u < |s.threads| && u != t ensures ActsFine(s.threads[u], s'.blocks) {
        HeldSplit(s.threads[t := []], u);
        ActsKept(s.threads[u], s.blocks, s'.blocks, b);
      }
    }
  }

  lemma StepKeepsFaithful(s: State, t: nat, s': State)
    requires Partitioned(s) && Faithful(s) && ThreadStep(s, t, s')
    ensures Faithful(s')
  {
    hide Effect, Partitioned, ActFine, RingFine, PendFine, WireFine;
    var a, rest := s.threads[t][0], s.threads[t][1..];
    var then_ :| Effect(s, a, s', then_) && s'.threads == s.threads[t := then_ + rest];
    assert s.arena + s.heapLive != {} by { SomeBlock(s); }
    var b := EffectWrites(s, a, s', then_);
    OldStaysFine(s, t, s', b);
    EffectFine(s, a, s', then_);
    ActsFineConcat(then_, rest, s'.blocks);
  }

  lemma SomeBlock(s: State)
    requires Partitioned(s)
    ensures s.arena + s.heapLive != {}
  {
    assert s.arena != {};
    var b :| b in s.arena;
    assert b in s.arena + s.heapLive;
  }

  // ---------------------------------------------------------------- the ring of tasks

  /** Tasks start in the order they were accepted, each once; a worker leaves only an empty ring behind, for good. */
  ghost predicate RingOk(s: State) {
    && s.accepted == s.started + s.ring && |s.ring| <= TR.TASK_CAP
    && forall w {:trigger s.threads[w]} :: 0 <= w < |s.threads| && w in s.workers ==>
         if s.threads[w] == [] then s.shutdown && s.ring == [] else s.threads[w][|s.threads[w]| - 1] == Take
  }

  /** How an effect may change the ring. */
  ghost predicate RingMoves(s: State, a: Act, s': State, then_: seq<Act>) {
    && s'.workers == s.workers && (s.shutdown ==> s'.shutdown)
    && (|| (s'.ring == s.ring && s'.accepted == s.accepted && s'.started == s.started && (a == Take ==> s.ring == [] && s.shutdown))
        || (a.Submit? && !s.shutdown && |s.ring| < TR.TASK_CAP && s'.ring == s.ring + [a.b] && s'.accepted == s.accepted + [a.b]
            && s'.started == s.started)
        || (a == Take && s.ring != [] && s'.ring == s.ring[1..] && s'.accepted == s.accepted && s'.started == s.started + [s.ring[0]]
            && then_ == [Task(s.ring[0]), Take]))
  }

  lemma EffectMovesRing(s: State, a: Act, s': State, then_: seq<Act>)
    requires Effect(s, a, s', then_) && |s.ring| <= TR.TASK_CAP
    ensures RingMoves(s, a, s', then_)
  {
    hide AT.Looked, AT.Learned, AT.Aged, PS.Enqueued, PS.Retried, PS.Popped, FS.Rewritten, GoesFor;
    match a
    case Submit(b) =>
    case Take =>
    case _ => OthersKeepRing(s, a, s', then_);
  }

  lemma OthersKeepRing(s: State, a: Act, s': State, then_: seq<Act>)
    requires Effect(s, a, s', then_) && !a.Submit? && !a.Take?
    ensures s'.workers == s.workers && (s.shutdown ==> s'.shutdown)
    ensures s'.ring == s.ring && s'.accepted == s.accepted && s'.started == s.started
  {
    hide AT.Looked, AT.Learned, AT.Aged, PS.Enqueued, PS.Retried, PS.Popped, PS.GivenUp, FS.Rewritten, FS.Admitted, GoesFor, HasFrame,
         Route, FreeAll, SendAll, FlushKeys, RunsSubmit, RunsTake, FW.ArpOk, FW.OnSubnetOf, FW.IsRequest, FW.SenderOf;
  }

  lemma StepKeepsRing(s: State, t: nat, s': State)
    requires RingOk(s) && ThreadStep(s, t, s')
    ensures RingOk(s')
  {
    hide Effect;
    var a, rest := s.threads[t][0], s.threads[t][1..];
    var then_ :| Effect(s, a, s', then_) && s'.threads == s.threads[t := then_ + rest];
    EffectMovesRing(s, a, s', then_);
    assert s.accepted == s.started + s.ring;
    if a == Take && s.ring != [] {
      assert s.ring == [s.ring[0]] + s.ring[1..];
    }
    forall w | 0 <= w < |s'.threads| && w in s'.workers
      ensures if s'.threads[w] == [] then s'.shutdown && s'.ring == [] else s'.threads[w][|s'.threads[w]| - 1] == Take
    {
      assert s.threads[w] == s.threads[w];
      if w == t && rest == [] {
        assert s.threads[w] == [a] && a == Take;
        assert s'.threads[w] == then_;
        if then_ != [] { TakeEnds(s, s', then_); }
      }
    }
  }

  lemma TakeEnds(s: State, s': State, then_: seq<Act>)
    requires Effect(s, Take, s', then_) && then_ != []
    ensures then_[|then_| - 1] == Take
  {}

  // ---------------------------------------------------------------- the queue

  lemma EffectKeepsQueue(s: State, a: Act, s': State, then_: seq<Act>)
    requires Effect(s, a, s', then_) && PS.Inv(s.pend)
    ensures PS.Inv(s'.pend)
  {
    hide PS.Inv, PS.Enqueued, PS.Retried, PS.Popped;
    match a
    case Park(b, k) =>
      var now, freed :| PS.Enqueued(s.pend, k, b, now, s'.pend, freed);
      PS.EnqueueKeeps(s.pend, k, b, now, s'.pend, freed);
    case FlushPop(k, mac) => PopKeeps(s.pend, k);
    case Scan =>
      var now: U64 :| s' == s.(pend := PS.Retried(s.pend, now), threads := s'.threads);
      PS.RetryKeeps(s.pend, now);
    case _ => OthersKeepQueue(s, a, s', then_);
  }

  lemma PopKeeps(p: PS.Pend, k: Key)
    requires PS.Inv(p)
    ensures PS.Inv(PS.Popped(p, k).0)
  {
    var i := PS.Pos(p, k);
    if i >= 0 { PS.WithoutKeeps(p, i); }
  }

  lemma OthersKeepQueue(s: State, a: Act, s': State, then_: seq<Act>)
    requires Effect(s, a, s', then_) && !a.Park? && !a.FlushPop? && !a.Scan?
    ensures s'.pend == s.pend
  {
    hide AT.Looked, AT.Learned, AT.Aged, FS.Rewritten, FS.Admitted, GoesFor, HasFrame, Route, RunsPark, RunsFlushPop, RunsScan,
         FW.ArpOk, FW.OnSubnetOf, FW.IsRequest, FW.SenderOf;
  }

  // ---------------------------------------------------------------- the cache

  /** Only a look-up, an insertion and the ageing touch the cache. */
  lemma OthersKeepCache(s: State, a: Act, s': State, then_: seq<Act>)
    requires Effect(s, a, s', then_) && !a.Dispatch? && !a.FlushLookup? && !a.Learn? && !a.ArpTick?
    ensures s'.arp == s.arp && s'.seen == s.seen
  {
    hide PS.Enqueued, PS.Retried, PS.Popped, PS.GivenUp, FS.Rewritten, FS.Admitted, GoesFor, HasFrame, Route, FreeAll, SendAll, FlushKeys;
    hide FW.ArpOk, FW.OnSubnetOf, FW.IsRequest, FW.SenderOf;
  }

  lemma LookedKeys(c: AT.Cache, k: Key, now: int)
    ensures AT.Looked(c, k, now).Keys == c.Keys
  {}

  lemma AgedKeys(c: AT.Cache, now: int, timeout: int)
    ensures AT.Aged(c, now, timeout).Keys <= c.Keys
  {}

  lemma EffectKeepsCap(s: State, a: Act, s': State, then_: seq<Act>)
    requires Effect(s, a, s', then_) && |s.arp| <= AT.ARP_CAP
    ensures |s'.arp| <= AT.ARP_CAP
  {
    hide AT.Learned, AT.Looked, AT.Aged;
    match a
    case Learn(k, mac) =>
      var now :| AT.Learned(s.arp, k, mac, now, s'.arp);
      AT.LearnStaysBounded(s.arp, k, mac, now, s'.arp);
    case Dispatch(_, k) =>
      var now :| s'.arp == AT.Looked(s.arp, k, now);
      LookedKeys(s.arp, k, now);
      FewerKeys(s'.arp, s.arp);
    case FlushLookup(k) =>
      var now :| s'.arp == AT.Looked(s.arp, k, now);
      LookedKeys(s.arp, k, now);
      FewerKeys(s'.arp, s.arp);
    case ArpTick =>
      var now :| s'.arp == AT.Aged(s.arp, now, s.timeout);
      AgedKeys(s.arp, now, s.timeout);
      FewerKeys(s'.arp, s.arp);
    case _ =>
      hide Effect;
      OthersKeepCache(s, a, s', then_);
  }

  lemma FewerKeys(m: AT.Cache, n: AT.Cache)
    requires m.Keys <= n.Keys
    ensures |m| <= |n|
  {
    SubsetSize(m.Keys, n.Keys);
    assert |m.Keys| == |m| && |n.Keys| == |n|;
  }

  /** Where a frame goes was looked up: the pair of next hop and MAC is one the cache has had. */
  predicate ActVouched(a: Act, seen: set<(Key, Mac)>) {
    (a.Send? ==> (a.k, a.mac) in seen) && (a.FlushPop? ==> (a.k, a.mac) in seen)
  }

  predicate ActsVouched(acts: seq<Act>, seen: set<(Key, Mac)>) {
    forall j :: 0 <= j < |acts| ==> ActVouched(acts[j], seen)
  }

  predicate WireVouched(wire: seq<Sent>, seen: set<(Key, Mac)>) {
    forall j :: 0 <= j < |wire| ==> (wire[j].k, wire[j].dmac) in seen
  }

  ghost predicate Vouched(s: State) {
    WireVouched(s.wire, s.seen) && forall t :: 0 <= t < |s.threads| ==> ActsVouched(s.threads[t], s.seen)
  }

  lemma VouchedConcat(a: seq<Act>, b: seq<Act>, seen: set<(Key, Mac)>)
    requires ActsVouched(a, seen) && ActsVouched(b, seen)
    ensures ActsVouched(a + b, seen)
  {
    hide ActVouched;
    forall j | 0 <= j < |a + b| ensures ActVouched((a + b)[j], seen) {
      assert (a + b)[j] == if j < |a| then a[j] else b[j - |a|];
    }
  }

  lemma {:induction false} FreeAllVouched(c: seq<nat>, seen: set<(Key, Mac)>)
    ensures ActsVouched(FreeAll(c), seen)
  {
    if c != [] {
      FreeAllVouched(c[1..], seen);
      VouchedConcat([Free(c[0])], FreeAll(c[1..]), seen);
    }
  }

  lemma {:induction false} FlushKeysVouched(p: PS.Pend, seen: set<(Key, Mac)>)
    ensures ActsVouched(FlushKeys(p), seen)
  {
    if p != [] {
      FlushKeysVouched(p[1..], seen);
      VouchedConcat([Request(p[0].key), FlushLookup(p[0].key)], FlushKeys(p[1..]), seen);
    }
  }

  lemma {:induction false} SendAllVouched(c: seq<nat>, k: Key, mac: Mac, seen: set<(Key, Mac)>)
    requires (k, mac) in seen
    ensures ActsVouched(SendAll(c, k, mac), seen)
  {
    if c != [] {
      SendAllVouched(c[1..], k, mac, seen);
      VouchedConcat([Send(c[0], k, mac)], SendAll(c[1..], k, mac), seen);
    }
  }

  lemma EffectVouches(s: State, a: Act, s': State, then_: seq<Act>)
    requires Effect(s, a, s', then_) && ActVouched(a, s.seen) && WireVouched(s.wire, s.seen)
    ensures s.seen <= s'.seen && ActsVouched(then_, s'.seen) && WireVouched(s'.wire, s'.seen)
  {
    hide RunsRxLoop, RunsRecv, RunsSubmit, RunsTake, RunsTask, RunsHop, RunsDispatch, RunsPark, RunsSend, RunsFree, RunsRequest,
         RunsFlushLookup, RunsFlushPop, RunsArpFrame, RunsLearn, RunsArpTick, RunsScan, WireVouched, ActsVouched;
    match a
    case Park(b, k) => ParkVouches(s, b, k, s', then_);
    case FlushPop(k, mac) => FlushPopVouches(s, k, mac, s', then_);
    case Scan => ScanVouches(s, s', then_);
    case ArpFrame(b, ifidx) => ArpFrameVouches(s, b, ifidx, s', then_);
    case Send(b, k, mac) => SendVouches(s, b, k, mac, s', then_);
    case Dispatch(b, k) => DispatchVouches(s, b, k, s', then_); LookupVouches(s, k, s');
    case FlushLookup(k) => FlushLookupVouches(s, k, s', then_); LookupVouches(s, k, s');
    case _ => OthersVouch(s, a, s', then_);
  }

  lemma FlushPopVouches(s: State, k: Key, mac: Mac, s': State, then_: seq<Act>)
    requires RunsFlushPop(s, k, mac, s', then_) && (k, mac) in s.seen
    ensures s.seen == s'.seen && s.wire == s'.wire && ActsVouched(then_, s'.seen)
  {
    hide PS.Popped, ActsVouched;
    SendAllVouched(PS.Popped(s.pend, k).1, k, mac, s'.seen);
  }

  lemma ParkVouches(s: State, b: nat, k: Key, s': State, then_: seq<Act>)
    requires RunsPark(s, b, k, s', then_)
    ensures s.seen == s'.seen && s.wire == s'.wire && ActsVouched(then_, s'.seen)
  {
    hide PS.Enqueued, ActsVouched;
    var now, freed :| PS.Enqueued(s.pend, k, b, now, s'.pend, freed) && then_ == FreeAll(freed);
    FreeAllVouched(freed, s'.seen);
  }

  lemma ScanVouches(s: State, s': State, then_: seq<Act>)
    requires RunsScan(s, s', then_)
    ensures s.seen == s'.seen && s.wire == s'.wire && ActsVouched(then_, s'.seen)
  {
    hide PS.Retried, PS.GivenUp, ActsVouched;
    var now: U64 :| s' == s.(pend := PS.Retried(s.pend, now), threads := s'.threads)
      && then_ == FreeAll(PS.GivenUp(s.pend)) + FlushKeys(PS.Retried(s.pend, now));
    FreeAllVouched(PS.GivenUp(s.pend), s'.seen);
    FlushKeysVouched(PS.Retried(s.pend, now), s'.seen);
    VouchedConcat(FreeAll(PS.GivenUp(s.pend)), FlushKeys(PS.Retried(s.pend, now)), s'.seen);
  }

  lemma LookupVouches(s: State, k: Key, s': State)
    requires LooksUp(s, k, s') && WireVouched(s.wire, s.seen)
    ensures s.seen <= s'.seen && WireVouched(s'.wire, s'.seen) && (k in s.arp ==> (k, s.arp[k].mac) in s'.seen)
  {
    hide AT.Looked;
  }

  lemma DispatchVouches(s: State, b: nat, k: Key, s': State, then_: seq<Act>)
    requires RunsDispatch(s, b, k, s', then_)
    ensures LooksUp(s, k, s') && ((k in s.arp ==> (k, s.arp[k].mac) in s'.seen) ==> ActsVouched(then_, s'.seen))
  {
    hide LooksUp;
  }

  lemma FlushLookupVouches(s: State, k: Key, s': State, then_: seq<Act>)
    requires RunsFlushLookup(s, k, s', then_)
    ensures LooksUp(s, k, s') && ((k in s.arp ==> (k, s.arp[k].mac) in s'.seen) ==> ActsVouched(then_, s'.seen))
  {
    hide LooksUp;
  }

  /** The acts that neither send nor look up. */
  lemma OthersVouch(s: State, a: Act, s': State, then_: seq<Act>)
    requires Effect(s, a, s', then_)
    requires !a.Park? && !a.FlushPop? && !a.Scan? && !a.ArpFrame? && !a.Send? && !a.Dispatch? && !a.FlushLookup?
    ensures s.seen == s'.seen && s.wire == s'.wire && ActsVouched(then_, s'.seen)
  {
    hide AT.Learned, AT.Aged, FS.Admitted, GoesFor, HasFrame, Marked,
         RunsPark, RunsFlushPop, RunsScan, RunsArpFrame, RunsSend, RunsDispatch, RunsFlushLookup;
  }

  lemma SendVouches(s: State, b: nat, k: Key, mac: Mac, s': State, then_: seq<Act>)
    requires RunsSend(s, b, k, mac, s', then_) && (k, mac) in s.seen && WireVouched(s.wire, s.seen)
    ensures s.seen == s'.seen && WireVouched(s'.wire, s'.seen) && ActsVouched(then_, s'.seen)
  {
    hide FS.Rewritten;
  }

  lemma ArpFrameVouches(s: State, b: nat, ifidx: int, s': State, then_: seq<Act>)
    requires RunsArpFrame(s, b, ifidx, s', then_)
    ensures s.seen == s'.seen && s.wire == s'.wire && ActsVouched(then_, s'.seen)
  {
    ArpFrameActs(s, b, ifidx, s', then_);
    hide FW.OnSubnetOf, FW.ArpOk, FW.IsRequest, FW.SenderOf;
  }

  lemma StepKeepsCache(s: State, t: nat, s': State)
    requires ThreadStep(s, t, s') && |s.arp| <= AT.ARP_CAP && Vouched(s)
    ensures |s'.arp| <= AT.ARP_CAP && Vouched(s') && s.seen <= s'.seen
  {
    hide Effect, ActVouched;
    var a, rest := s.threads[t][0], s.threads[t][1..];
    var then_ :| Effect(s, a, s', then_) && s'.threads == s.threads[t := then_ + rest];
    EffectKeepsCap(s, a, s', then_);
    EffectVouches(s, a, s', then_);
    forall u | 0 <= u < |s.threads| ensures ActsVouched(s.threads[u], s'.seen) {
      VouchedMore(s.threads[u], s.seen, s'.seen);
    }
    assert ActsVouched(rest, s'.seen) by { assert ActsVouched(s.threads[t], s'.seen); }
    VouchedConcat(then_, rest, s'.seen);
  }

  lemma VouchedMore(acts: seq<Act>, seen: set<(Key, Mac)>, seen': set<(Key, Mac)>)
    requires ActsVouched(acts, seen) && seen <= seen'
    ensures ActsVouched(acts, seen')
  {}

  // ---------------------------------------------------------------- every reachable state

  ghost predicate Inv(s: State) {
    Partitioned(s) && Faithful(s) && RingOk(s) && PS.Inv(s.pend) && |s.arp| <= AT.ARP_CAP && Vouched(s)
  }

  lemma InitIsInv(s: State)
    requires Init(s)
    ensures Inv(s)
  {
    hide Init;
    InitIsPartitioned(s);
    InitIsFaithful(s);
    InitIsVouched(s);
  }

  lemma InitIsVouched(s: State)
    requires Init(s)
    ensures Vouched(s) && |s.arp| <= AT.ARP_CAP
  {
    hide ActVouched;
    forall t: nat, j: nat | t < |s.threads| && j < |s.threads[t]| ensures ActVouched(s.threads[t][j], s.seen) {
      InitActs(s, t, j);
    }
  }

  lemma InitActs(s: State, t: nat, j: nat)
    requires Init(s) && t < |s.threads| && j < |s.threads[t]|
    ensures BlockOf(s.threads[t][j]) == multiset{} && ActFine(s.threads[t][j], s.blocks) && ActVouched(s.threads[t][j], s.seen)
  {}

  lemma InitIsPartitioned(s: State)
    requires Init(s)
    ensures Partitioned(s)
  {
    forall t: nat, j: nat | t < |s.threads| && j < |s.threads[t]| ensures BlockOf(s.threads[t][j]) == multiset{} {
      InitActs(s, t, j);
    }
    AllHeldNone(s.threads);
    hide BlockOf;
    assert s.arena + s.heapLive == s.arena;
    forall b | b in s.free ensures b in s.arena {
      assert b in multiset(s.free);
    }
  }

  lemma InitIsFaithful(s: State)
    requires Init(s)
    ensures Faithful(s) && RingOk(s) && PS.Inv(s.pend)
  {
    hide ActFine;
    forall t: nat, j: nat | t < |s.threads| && j < |s.threads[t]| ensures ActFine(s.threads[t][j], s.blocks) {
      InitActs(s, t, j);
    }
  }

  lemma {:induction false} AllHeldNone(ths: seq<seq<Act>>)
    requires forall t, j :: 0 <= t < |ths| && 0 <= j < |ths[t]| ==> BlockOf(ths[t][j]) == multiset{}
    ensures HeldByAll(ths) == multiset{}
  {
    if ths != [] {
      HeldNone(ths[0]);
      AllHeldNone(ths[1..]);
    }
  }

  /** Every step of every thread, and every change the control plane makes, keeps the invariant. */
  lemma NextKeepsInv(s: State, s': State)
    requires Inv(s) && Next(s, s')
    ensures Inv(s')
  {
    if t :| ThreadStep(s, t, s') {
      StepKeepsPartition(s, t, s');
      StepKeepsFaithful(s, t, s');
      StepKeepsRing(s, t, s');
      StepKeepsQueue(s, t, s');
      StepKeepsCache(s, t, s');
    } else {
      ControlKeepsInv(s, s');
    }
  }

  lemma StepKeepsQueue(s: State, t: nat, s': State)
    requires PS.Inv(s.pend) && ThreadStep(s, t, s')
    ensures PS.Inv(s'.pend)
  {
    hide Effect, PS.Inv;
    var then_ :| Effect(s, s.threads[t][0], s', then_);
    EffectKeepsQueue(s, s.threads[t][0], s', then_);
  }

  lemma ControlKeepsInv(s: State, s': State)
    requires Inv(s) && ControlStep(s, s')
    ensures Inv(s')
  {
    hide Partitioned, Faithful, RingOk, Vouched;
    hide PS.Inv, PendFine, RingFine, WireFine, ActsFine, PS.Parked, HeldByAll, ActsVouched, WireVouched;
    if k :| s' == s.(arp := s.arp - {k}) {
      FewerKeys(s'.arp, s.arp);
    }
    SameTables(s, s');
  }

  /** The invariant speaks of the cache's size and of nothing else the control plane changes. */
  lemma SameTables(s: State, s': State)
    requires Inv(s) && |s'.arp| <= AT.ARP_CAP && s' == s.(arp := s'.arp, cfg := s'.cfg, timeout := s'.timeout)
    ensures Inv(s')
  {
    hide Partitioned, Faithful, RingOk, Vouched, PS.Inv;
    SamePlaces(s, s');
    SameFrames(s, s');
  }

  lemma SamePlaces(s: State, s': State)
    requires Partitioned(s) && s' == s.(arp := s'.arp, cfg := s'.cfg, timeout := s'.timeout)
    ensures Partitioned(s')
  {
    hide PS.Parked, HeldByAll;
  }

  lemma SameFrames(s: State, s': State)
    requires Faithful(s) && RingOk(s) && Vouched(s) && s' == s.(arp := s'.arp, cfg := s'.cfg, timeout := s'.timeout)
    ensures Faithful(s') && RingOk(s') && Vouched(s')
  {
    hide PendFine, RingFine, WireFine, ActsFine, ActsVouched, WireVouched;
  }

  ghost predicate IsRun(trace: seq<State>) {
    trace != [] && Init(trace[0]) && forall i {:trigger trace[i]} :: 0 <= i < |trace| - 1 ==> Next(trace[i], trace[i + 1])
  }

  lemma RunSteps(trace: seq<State>, i: nat)
    requires IsRun(trace) && i + 1 < |trace|
    ensures Next(trace[i], trace[i + 1])
  {
    hide Next, Init;
    assert trace[i] == trace[i];
  }

  /** There are runs: the system can start with any arena, any configuration and any number of workers. */
  lemma RunsStart(arena: set<nat>, free: seq<nat>, cfg: FS.Config, n: nat) returns (s: State)
    requires |arena| == MP.MP_COUNT && multiset(free) == multiset(arena)
    ensures IsRun([s]) && |s.workers| == n && s.cfg == cfg && s.free == free
  {
    var workers := MP.Below(n + 1) - {0};
    s := State(arena, free, {}, multiset{}, map[], [], false, [], [], [], map[], {}, AT.ARP_TMO, cfg, [],
               [[RxLoop, Stop]] + seq(n, _ => [Take]) + [[TimerLoop]], workers);
    assert Init(s);
  }

  lemma {:induction false} RunIsInv(trace: seq<State>, i: nat)
    requires IsRun(trace) && i < |trace|
    ensures Inv(trace[i])
  {
    hide Inv, Next, Init;
    if i == 0 {
      InitIsInv(trace[0]);
    } else {
      RunIsInv(trace, i - 1);
      assert Next(trace[i - 1], trace[i]);
      NextKeepsInv(trace[i - 1], trace[i]);
    }
  }

  /** The cache had this entry at a state of the run. */
  ghost predicate CachedAt(trace: seq<State>, i: nat, k: Key, mac: Mac) {
    i < |trace| && k in trace[i].arp && trace[i].arp[k].mac == mac
  }

  /** Nothing is seen that the cache did not have. */
  lemma {:induction false} SeenWasCached(trace: seq<State>, i: nat, k: Key, mac: Mac) returns (j: nat)
    requires IsRun(trace) && i < |trace| && (k, mac) in trace[i].seen
    ensures j < i && CachedAt(trace, j, k, mac)
  {
    hide Init, Next;
    if i == 0 {
      StartsUnseen(trace[0]);
      assert false;
    } else if (k, mac) in trace[i - 1].seen {
      j := SeenWasCached(trace, i - 1, k, mac);
    } else {
      assert Next(trace[i - 1], trace[i]);
      StepSees(trace[i - 1], trace[i], k, mac);
      j := i - 1;
    }
  }

  lemma StartsUnseen(s: State)
    requires Init(s)
    ensures s.seen == {}
  {}

  lemma StepSees(s: State, s': State, k: Key, mac: Mac)
    requires Next(s, s') && (k, mac) in s'.seen && (k, mac) !in s.seen
    ensures k in s.arp && s.arp[k].mac == mac
  {
    hide Effect;
    if t: nat :| ThreadStep(s, t, s') {
      var then_ :| Effect(s, s.threads[t][0], s', then_);
      EffectSees(s, s.threads[t][0], s', then_);
    }
  }

  lemma EffectSees(s: State, a: Act, s': State, then_: seq<Act>)
    requires Effect(s, a, s', then_)
    ensures forall x :: x in s'.seen && x !in s.seen ==> x.0 in s.arp && s.arp[x.0].mac == x.1
  {
    hide AT.Looked, AT.Learned, AT.Aged;
    match a
    case Dispatch(_, _) =>
    case FlushLookup(_) =>
    case Learn(_, _) =>
    case ArpTick =>
    case _ =>
      hide Effect;
      OthersKeepCache(s, a, s', then_);
  }

  /** Every forwarded frame went to the MAC that the cache had, at some state before, for its next hop. */
  lemma SentToCachedMac(trace: seq<State>, i: nat, n: nat) returns (j: nat)
    requires IsRun(trace) && i < |trace| && n < |trace[i].wire|
    ensures j < i && CachedAt(trace, j, trace[i].wire[n].k, trace[i].wire[n].dmac)
  {
    hide Partitioned, Faithful, RingOk, PS.Inv, CachedAt;
    RunIsInv(trace, i);
    j := SeenWasCached(trace, i, trace[i].wire[n].k, trace[i].wire[n].dmac);
  }

  /** In every reachable state the pool, the ring, the queue, the cache and the wire are in order. */
  lemma ReachableStates(trace: seq<State>, i: nat)
    requires IsRun(trace) && i < |trace|
    ensures Partitioned(trace[i]) && RingOk(trace[i]) && |trace[i].arp| <= AT.ARP_CAP
    ensures |trace[i].pend| <= PS.PEND_MAX && |PS.Parked(trace[i].pend)| <= PS.PEND_MAX * PS.PEND_CHAIN_MAX
    ensures forall j :: 0 <= j < |trace[i].wire| ==> SentOk(trace[i].wire[j])
  {
    hide Partitioned, RingOk, SentOk, PS.Inv, PS.Parked, RingFine, PendFine;
    RunIsInv(trace, i);
    PS.QueueIsBounded(trace[i].pend);
  }

  // ---------------------------------------------------------------- how long a frame may stay parked

  ghost predicate ScanStep(s: State, s': State) {
    exists t: nat :: ThreadStep(s, t, s') && s.threads[t][0] == Scan
  }

  /** How many times pend_tick went over the queue between two states of a run. */
  ghost function Ticks(trace: seq<State>, i: nat, j: nat): nat
    requires i <= j < |trace|
    decreases j
  {
    if i == j then 0 else Ticks(trace, i, j - 1) + if ScanStep(trace[j - 1], trace[j]) then 1 else 0
  }

  /** A thread step never gives a parked frame its retries back. */
  lemma EffectAges(s: State, t: nat, s': State, then_: seq<Act>, b: nat, r: int)
    requires Partitioned(s) && t < |s.threads| && s.threads[t] != [] && Effect(s, s.threads[t][0], s', then_)
    requires b in PS.Parked(s.pend) && PS.ParkedAt(s'.pend, b, r)
    ensures PS.ParkedAt(s.pend, b, r) || (s.threads[t][0] == Scan && PS.ParkedAt(s.pend, b, r - 1))
    ensures s.threads[t][0] == Scan ==> PS.ParkedAt(s.pend, b, r - 1)
  {
    hide PS.Inv, PS.Enqueued, PS.Retried, PS.Popped, PS.ParkedAt, Partitioned, PS.Parked;
    var a := s.threads[t][0];
    match a
    case Park(c, k) =>
      var now, freed :| PS.Enqueued(s.pend, k, c, now, s'.pend, freed);
      HeldIsNotParked(s, t, s', c);
      PS.EnqueueKeepsRetries(s.pend, k, c, now, s'.pend, freed, b, r);
    case FlushPop(k, mac) => PS.PopKeepsRetries(s.pend, k, b, r);
    case Scan =>
      var now: U64 :| s' == s.(pend := PS.Retried(s.pend, now), threads := s'.threads);
      PS.RetryAges(s.pend, now, b, r);
    case _ => OthersKeepQueue(s, a, s', then_);
  }

  lemma HeldIsNotParked(s: State, t: nat, s': State, b: nat)
    requires Partitioned(s) && t < |s.threads| && s.threads[t] != [] && BlockOf(s.threads[t][0]) == multiset{b}
    ensures b !in PS.Parked(s.pend)
  {
    Exclusive(s, t, s, b);
  }

  lemma StepAges(s: State, s': State, b: nat, r: int)
    requires Partitioned(s) && Next(s, s') && b in PS.Parked(s.pend) && PS.ParkedAt(s'.pend, b, r)
    ensures PS.ParkedAt(s.pend, b, r) || PS.ParkedAt(s.pend, b, r - 1)
    ensures ScanStep(s, s') ==> PS.ParkedAt(s.pend, b, r - 1)
  {
    hide Partitioned, PS.ParkedAt, Effect, PS.Parked;
    if t: nat :| ThreadStep(s, t, s') && s.threads[t][0] == Scan {
      ThreadAges(s, t, s', b, r);
    } else if t: nat :| ThreadStep(s, t, s') {
      ThreadAges(s, t, s', b, r);
    }
  }

  lemma ThreadAges(s: State, t: nat, s': State, b: nat, r: int)
    requires Partitioned(s) && ThreadStep(s, t, s') && b in PS.Parked(s.pend) && PS.ParkedAt(s'.pend, b, r)
    ensures PS.ParkedAt(s.pend, b, r) || PS.ParkedAt(s.pend, b, r - 1)
    ensures s.threads[t][0] == Scan ==> PS.ParkedAt(s.pend, b, r - 1)
  {
    hide Partitioned, PS.ParkedAt, Effect, PS.Parked;
    var then_ :| Effect(s, s.threads[t][0], s', then_);
    EffectAges(s, t, s', then_, b, r);
  }

  ghost predicate ParkedFrom(trace: seq<State>, i: nat, j: nat, b: nat)
    requires i <= j < |trace|
  {
    forall k {:trigger trace[k]} :: i <= k <= j ==> b in PS.Parked(trace[k].pend)
  }

  lemma {:induction false} ParkedSomewhere(p: PS.Pend, b: nat)
    requires b in PS.Parked(p)
    ensures exists r :: PS.ParkedAt(p, b, r)
  {
    if b in multiset(p[0].frames) {
      assert b in p[0].frames && p[0].retries == p[0].retries;
      assert PS.ParkedAt(p, b, p[0].retries);
    } else {
      ParkedSomewhere(p[1..], b);
      var r :| PS.ParkedAt(p[1..], b, r);
      var i :| 0 <= i < |p[1..]| && b in p[1..][i].frames && p[1..][i].retries == r;
      assert b in p[i + 1].frames && p[i + 1].retries == r;
      assert PS.ParkedAt(p, b, r);
    }
  }

  lemma {:induction false} RetriesGrow(trace: seq<State>, i: nat, j: nat, b: nat, r: int) returns (r0: int)
    requires IsRun(trace) && i <= j < |trace| && ParkedFrom(trace, i, j, b) && PS.ParkedAt(trace[j].pend, b, r)
    ensures PS.ParkedAt(trace[i].pend, b, r0) && r0 + Ticks(trace, i, j) <= r
    decreases j
  {
    hide PS.ParkedAt, PS.Parked, Next, IsRun, Inv, ScanStep;
    if i == j {
      r0 := r;
    } else {
      var s := trace[j - 1];
      RunIsInv(trace, j - 1);
      assert Partitioned(s) by { InvIsPartitioned(s); }
      RunSteps(trace, j - 1);
      StepAges(s, trace[j], b, r);
      if PS.ParkedAt(s.pend, b, r - 1) {
        r0 := RetriesGrow(trace, i, j - 1, b, r - 1);
      } else {
        r0 := RetriesGrow(trace, i, j - 1, b, r);
      }
    }
  }

  lemma InvIsPartitioned(s: State)
    requires Inv(s)
    ensures Partitioned(s)
  {}

  /** No frame stays parked over more than ARP_RETRY_MAX ticks, whatever joins, flushes and evictions come between. */
  lemma {:induction false} ResidenceIsBounded(trace: seq<State>, i: nat, j: nat, b: nat)
    requires IsRun(trace) && i <= j < |trace| && ParkedFrom(trace, i, j, b)
    ensures Ticks(trace, i, j) <= PS.ARP_RETRY_MAX
  {
    hide PS.Parked, Next, Init, Ticks;
    RunIsInv(trace, i);
    RunIsInv(trace, j);
    assert b in PS.Parked(trace[j].pend);
    ParkedSomewhere(trace[j].pend, b);
    var r :| PS.ParkedAt(trace[j].pend, b, r);
    var r0 := RetriesGrow(trace, i, j, b, r);
    assert r0 >= 0 && r <= PS.ARP_RETRY_MAX;
  }

  // ---------------------------------------------------------------- where it goes

  /** The acts end the frame's wait: it will be sent, or freed. */
  ghost predicate Disposes(acts: seq<Act>, b: nat) {
    exists j :: 0 <= j < |acts| && (acts[j] == Free(b) || (acts[j].Send? && acts[j].b == b))
  }

  lemma {:induction false} FreeAllDisposes(c: seq<nat>, rest: seq<Act>, b: nat)
    requires b in c
    ensures Disposes(FreeAll(c) + rest, b)
  {
    if c[0] == b {
      assert (FreeAll(c) + rest)[0] == Free(b);
    } else {
      assert b in c[1..];
      FreeAllDisposes(c[1..], rest, b);
      var j :| 0 <= j < |FreeAll(c[1..]) + rest|
        && ((FreeAll(c[1..]) + rest)[j] == Free(b) || ((FreeAll(c[1..]) + rest)[j].Send? && (FreeAll(c[1..]) + rest)[j].b == b));
      assert (FreeAll(c) + rest)[j + 1] == (FreeAll(c[1..]) + rest)[j];
    }
  }

  lemma {:induction false} SendAllDisposes(c: seq<nat>, k: Key, mac: Mac, b: nat)
    requires b in c
    ensures Disposes(SendAll(c, k, mac), b)
  {
    var all := SendAll(c, k, mac);
    if c[0] == b {
      assert all[0] == Send(b, k, mac);
    } else {
      var later := SendAll(c[1..], k, mac);
      assert b in c[1..];
      SendAllDisposes(c[1..], k, mac, b);
      var j :| 0 <= j < |later| && (later[j] == Free(b) || (later[j].Send? && later[j].b == b));
      assert all[j + 1] == later[j];
    }
  }

  lemma GoneIsFreed(p': multiset<nat>, freed: seq<nat>, p: multiset<nat>, extra: multiset<nat>, b: nat)
    requires p' + multiset(freed) == p + extra && b in p && b !in p'
    ensures b in freed
  {
    assert (p' + multiset(freed))[b] == (p + extra)[b];
    assert b in multiset(freed);
  }

  /** A frame that leaves the queue is in the hands of the thread that took it, to be sent or freed. */
  lemma LeavesToBeSentOrFreed(s: State, t: nat, s': State, then_: seq<Act>, b: nat)
    requires t < |s.threads| && s.threads[t] != [] && Effect(s, s.threads[t][0], s', then_)
    requires b in PS.Parked(s.pend) && b !in PS.Parked(s'.pend)
    ensures Disposes(then_, b)
  {
    hide PS.Enqueued, PS.Retried, PS.Popped, PS.Parked, PS.GivenUp, Disposes;
    var a := s.threads[t][0];
    match a
    case Park(c, k) =>
      var now, freed :| PS.Enqueued(s.pend, k, c, now, s'.pend, freed) && then_ == FreeAll(freed);
      PS.EnqueueConserves(s.pend, k, c, now, s'.pend, freed);
      GoneIsFreed(PS.Parked(s'.pend), freed, PS.Parked(s.pend), multiset{c}, b);
      FreeAllDisposes(freed, [], b);
      assert FreeAll(freed) + [] == FreeAll(freed);
    case FlushPop(k, mac) =>
      PS.PopConserves(s.pend, k);
      GoneIsFreed(PS.Parked(s'.pend), PS.Popped(s.pend, k).1, PS.Parked(s.pend), multiset{}, b);
      SendAllDisposes(PS.Popped(s.pend, k).1, k, mac, b);
    case Scan =>
      var now: U64 :| s' == s.(pend := PS.Retried(s.pend, now), threads := s'.threads)
        && then_ == FreeAll(PS.GivenUp(s.pend)) + FlushKeys(PS.Retried(s.pend, now));
      PS.RetryConserves(s.pend, now);
      GoneIsFreed(PS.Parked(s'.pend), PS.GivenUp(s.pend), PS.Parked(s.pend), multiset{}, b);
      FreeAllDisposes(PS.GivenUp(s.pend), FlushKeys(PS.Retried(s.pend, now)), b);
    case _ => OthersKeepQueue(s, a, s', then_);
  }

  /** The step at which a frame leaves the queue, and where it then is. */
  ghost predicate LeavesAt(trace: seq<State>, k: nat, b: nat)
    requires k + 1 < |trace|
  {
    && b in PS.Parked(trace[k].pend) && b !in PS.Parked(trace[k + 1].pend)
    && exists t: nat, then_ :: t < |trace[k].threads| && trace[k].threads[t] != [] && Disposes(then_, b)
         && trace[k + 1].threads == trace[k].threads[t := then_ + trace[k].threads[t][1..]]
  }

  /** Every parked frame is on its way to be sent or freed by the time pend_tick has run ARP_RETRY_MAX + 1 times. */
  lemma {:induction false} ParkedFramesLeave(trace: seq<State>, i: nat, j: nat, b: nat) returns (k: nat)
    requires IsRun(trace) && i <= j < |trace| && b in PS.Parked(trace[i].pend) && Ticks(trace, i, j) > PS.ARP_RETRY_MAX
    ensures i <= k < j && LeavesAt(trace, k, b)
  {
    hide PS.Parked, Next, IsRun, Ticks, LeavesAt;
    k := i;
    while k < j && b in PS.Parked(trace[k + 1].pend)
      invariant i <= k <= j && ParkedFrom(trace, i, k, b)
    {
      k := k + 1;
    }
    if k == j {
      ResidenceIsBounded(trace, i, j, b);
    } else {
      RunSteps(trace, k);
      LeavingStep(trace, k, b);
    }
  }

  lemma LeavingStep(trace: seq<State>, k: nat, b: nat)
    requires k + 1 < |trace| && Next(trace[k], trace[k + 1])
    requires b in PS.Parked(trace[k].pend) && b !in PS.Parked(trace[k + 1].pend)
    ensures LeavesAt(trace, k, b)
  {
    hide Effect, PS.Parked, Disposes;
    var s, s' := trace[k], trace[k + 1];
    var t: nat :| ThreadStep(s, t, s');
    var then_ :| Effect(s, s.threads[t][0], s', then_) && s'.threads == s.threads[t := then_ + s.threads[t][1..]];
    LeavesToBeSentOrFreed(s, t, s', then_, b);
  }

  /** mp_free runs on the block. */
  ghost predicate FreedAt(trace: seq<State>, k: nat, b: nat)
    requires k + 1 < |trace|
  {
    exists t: nat :: ThreadStep(trace[k], t, trace[k + 1]) && trace[k].threads[t][0] == Free(b)
  }

  /** A thread that has a frame to dispose of keeps it until mp_free has run on it. */
  lemma DisposalGoesOn(s: State, s': State, u: nat, b: nat)
    requires Next(s, s') && u < |s.threads| && Disposes(s.threads[u], b)
    ensures |s'.threads| == |s.threads|
    ensures Disposes(s'.threads[u], b) || (ThreadStep(s, u, s') && s.threads[u][0] == Free(b))
  {
    hide Effect;
    if t: nat :| ThreadStep(s, t, s') {
      if t == u {
        HeadDisposes(s, u, s', b);
      }
    }
  }

  lemma HeadDisposes(s: State, u: nat, s': State, b: nat)
    requires ThreadStep(s, u, s') && Disposes(s.threads[u], b)
    ensures Disposes(s'.threads[u], b) || s.threads[u][0] == Free(b)
  {
    hide Effect;
    var a, rest := s.threads[u][0], s.threads[u][1..];
    var then_ :| Effect(s, a, s', then_) && s'.threads == s.threads[u := then_ + rest];
    var j :| 0 <= j < |s.threads[u]| && (s.threads[u][j] == Free(b) || (s.threads[u][j].Send? && s.threads[u][j].b == b));
    if j > 0 {
      assert s'.threads[u][|then_| + j - 1] == s.threads[u][j];
    } else if a != Free(b) {
      SentIsFreed(s, a, s', then_);
      assert s'.threads[u][0] == Free(b);
    }
  }

  lemma SentIsFreed(s: State, a: Act, s': State, then_: seq<Act>)
    requires Effect(s, a, s', then_) && a.Send?
    ensures then_ == [Free(a.b)]
  {
    hide FS.Rewritten;
  }

  lemma {:induction false} DisposalEnds(trace: seq<State>, i: nat, j: nat, u: nat, b: nat) returns (k: nat)
    requires i <= j < |trace| && forall l {:trigger trace[l]} :: i <= l < j ==> Next(trace[l], trace[l + 1])
    requires u < |trace[i].threads| && Disposes(trace[i].threads[u], b)
    requires u < |trace[j].threads| ==> !Disposes(trace[j].threads[u], b)
    ensures i <= k < j && FreedAt(trace, k, b)
    decreases j - i
  {
    hide Next, Disposes;
    assert Next(trace[i], trace[i + 1]);
    DisposalGoesOn(trace[i], trace[i + 1], u, b);
    if Disposes(trace[i + 1].threads[u], b) {
      k := DisposalEnds(trace, i + 1, j, u, b);
    } else {
      k := i;
    }
  }

  /**
   Every parked frame goes back to the pool: if pend_tick has run ARP_RETRY_MAX + 1 times since it was seen
   parked, and no thread has it in hand any more, mp_free has run on its block in between.
   */
  lemma ParkedFramesAreFreed(trace: seq<State>, i: nat, j: nat, b: nat) returns (k: nat)
    requires IsRun(trace) && i <= j < |trace| && b in PS.Parked(trace[i].pend) && Ticks(trace, i, j) > PS.ARP_RETRY_MAX
    requires forall t :: 0 <= t < |trace[j].threads| ==> !Disposes(trace[j].threads[t], b)
    ensures i <= k < j && FreedAt(trace, k, b)
  {
    hide PS.Parked, Next, IsRun, Ticks, Disposes, LeavesAt, FreedAt;
    var l := ParkedFramesLeave(trace, i, j, b);
    var u := TakerDisposes(trace, l, b);
    forall m | l + 1 <= m < j ensures Next(trace[m], trace[m + 1]) {
      RunSteps(trace, m);
    }
    k := DisposalEnds(trace, l + 1, j, u, b);
  }

  lemma TakerDisposes(trace: seq<State>, k: nat, b: nat) returns (u: nat)
    requires k + 1 < |trace| && LeavesAt(trace, k, b)
    ensures u < |trace[k + 1].threads| && Disposes(trace[k + 1].threads[u], b)
  {
    hide PS.Parked;
    var t: nat, then_: seq<Act> :| t < |trace[k].threads| && trace[k].threads[t] != [] && Disposes(then_, b)
         && trace[k + 1].threads == trace[k].threads[t := then_ + trace[k].threads[t][1..]];
    u := t;
    var j :| 0 <= j < |then_| && (then_[j] == Free(b) || (then_[j].Send? && then_[j].b == b));
    assert trace[k + 1].threads[t][j] == then_[j];
  }

  // ---------------------------------------------------------------- resolved chains leave

  /** The acts will look for k, or flush its chain. */
  predicate Owes(acts: seq<Act>, k: Key) {
    exists j :: 0 <= j < |acts| && (acts[j] == FlushLookup(k) || (acts[j].FlushPop? && acts[j].k == k))
  }

  ghost predicate FlushesAt(trace: seq<State>, l: nat, t: nat, k: Key)
    requires l + 1 < |trace|
  {
    ThreadStep(trace[l], t, trace[l + 1]) && trace[l].threads[t][0].FlushPop? && trace[l].threads[t][0].k == k
  }

  lemma OwesLater(a: seq<Act>, acts: seq<Act>, c: seq<Act>, k: Key)
    requires Owes(acts, k)
    ensures Owes(a + acts + c, k)
  {
    var j :| 0 <= j < |acts| && (acts[j] == FlushLookup(k) || (acts[j].FlushPop? && acts[j].k == k));
    assert (a + acts + c)[|a| + j] == acts[j];
  }

  /** The tick looks for the key of every chain the walk leaves. */
  lemma {:induction false} FlushKeysOwe(p: PS.Pend, k: Key)
    requires PS.Pos(p, k) >= 0
    ensures Owes(FlushKeys(p), k)
  {
    if p[0].key == k {
      assert FlushKeys(p)[1] == FlushLookup(k);
    } else {
      FlushKeysOwe(p[1..], k);
      var a, b := [Request(p[0].key), FlushLookup(p[0].key)], FlushKeys(p[1..]);
      OwesLater(a, b, [], k);
      assert a + b + [] == FlushKeys(p);
    }
  }

  lemma ScanOwes(s: State, t: nat, s': State, k: Key)
    requires ThreadStep(s, t, s') && s.threads[t][0] == Scan && PS.Pos(s'.pend, k) >= 0
    ensures t < |s'.threads| && Owes(s'.threads[t], k)
  {
    hide PS.Retried, PS.GivenUp, FlushKeys, Owes;
    var then_ :| Effect(s, Scan, s', then_) && s'.threads == s.threads[t := then_ + s.threads[t][1..]];
    var a := FreeAll(PS.GivenUp(s.pend));
    FlushKeysOwe(s'.pend, k);
    OwesLater(a, FlushKeys(s'.pend), s.threads[t][1..], k);
  }

  lemma LookupFinds(s: State, k: Key, s': State, then_: seq<Act>)
    requires Effect(s, FlushLookup(k), s', then_) && k in s.arp
    ensures then_ == [FlushPop(k, s.arp[k].mac)]
  {
    hide LooksUp;
  }

  /** While the key is in the cache a thread that owes a flush goes on owing it until it takes the chain. */
  lemma HeadOwes(s: State, t: nat, s': State, k: Key)
    requires ThreadStep(s, t, s') && Owes(s.threads[t], k) && k in s.arp
    ensures Owes(s'.threads[t], k) || (s.threads[t][0].FlushPop? && s.threads[t][0].k == k)
  {
    hide Effect;
    var acts := s.threads[t];
    var then_ :| Effect(s, acts[0], s', then_) && s'.threads == s.threads[t := then_ + acts[1..]];
    var j :| 0 <= j < |acts| && (acts[j] == FlushLookup(k) || (acts[j].FlushPop? && acts[j].k == k));
    if j > 0 {
      assert s'.threads[t][|then_| + j - 1] == acts[j];
    } else if acts[0] == FlushLookup(k) {
      LookupFinds(s, k, s', then_);
      assert s'.threads[t][0] == FlushPop(k, s.arp[k].mac);
    }
  }

  lemma StepOwes(s: State, s': State, t: nat, k: Key)
    requires Next(s, s') && t < |s.threads| && Owes(s.threads[t], k) && k in s.arp
    ensures |s'.threads| == |s.threads|
    ensures Owes(s'.threads[t], k) || (ThreadStep(s, t, s') && s.threads[t][0].FlushPop? && s.threads[t][0].k == k)
  {
    hide Effect, Owes;
    if u: nat :| ThreadStep(s, u, s') {
      if u == t {
        HeadOwes(s, t, s', k);
      }
    }
  }

  lemma FlushPops(s: State, k: Key, mac: Mac, s': State, then_: seq<Act>)
    requires Effect(s, FlushPop(k, mac), s', then_)
    ensures s'.pend == PS.Popped(s.pend, k).0
  {
    hide PS.Popped, SendAll;
  }

  /** No chain of the key is left once it was flushed. */
  lemma PopLeavesNone(s: State, t: nat, s': State, k: Key)
    requires ThreadStep(s, t, s') && s.threads[t][0].FlushPop? && s.threads[t][0].k == k && PS.Inv(s.pend)
    ensures PS.Pos(s'.pend, k) < 0
  {
    hide Effect, PS.Popped, PS.Inv, PS.Pos;
    var a := s.threads[t][0];
    var then_ :| Effect(s, a, s', then_);
    FlushPops(s, k, a.mac, s', then_);
    PS.PopLeavesNone(s.pend, k);
  }

  lemma {:induction false} OweIsPaid(trace: seq<State>, i: nat, j: nat, t: nat, k: Key) returns (l: nat)
    requires IsRun(trace) && i <= j < |trace| && (forall m :: i <= m < j ==> k in trace[m].arp)
    requires t < |trace[i].threads| && Owes(trace[i].threads[t], k)
    requires t < |trace[j].threads| ==> !Owes(trace[j].threads[t], k)
    ensures i <= l < j && FlushesAt(trace, l, t, k)
    decreases j - i
  {
    hide Next, IsRun, Owes;
    RunSteps(trace, i);
    StepOwes(trace[i], trace[i + 1], t, k);
    if Owes(trace[i + 1].threads[t], k) {
      l := OweIsPaid(trace, i + 1, j, t, k);
    } else {
      l := i;
    }
  }

  /**
   No resolution is missed, whatever the other threads do: if a chain of the key is left by the walk of a tick
   and the key stays in the cache, then by the time the thread is done with the key it has taken the chain
   in one step, after which nothing waits for the key.
   */
  lemma NoMissedResolution(trace: seq<State>, i: nat, j: nat, t: nat, k: Key) returns (l: nat)
    requires IsRun(trace) && i < j < |trace| && ThreadStep(trace[i], t, trace[i + 1]) && trace[i].threads[t][0] == Scan
    requires PS.Pos(trace[i + 1].pend, k) >= 0 && (forall m :: i < m < j ==> k in trace[m].arp)
    requires t < |trace[j].threads| ==> !Owes(trace[j].threads[t], k)
    ensures i < l < j && FlushesAt(trace, l, t, k) && PS.Pos(trace[l + 1].pend, k) < 0
  {
    hide Next, IsRun, Owes, ThreadStep, PS.Inv, Inv;
    ScanOwes(trace[i], t, trace[i + 1], k);
    l := OweIsPaid(trace, i + 1, j, t, k);
    RunIsInv(trace, l);
    assert PS.Inv(trace[l].pend) by { InvHasQueue(trace[l]); }
    PopLeavesNone(trace[l], t, trace[l + 1], k);
  }

  lemma InvHasQueue(s: State)
    requires Inv(s)
    ensures PS.Inv(s.pend)
  {}

  // ---------------------------------------------------------------- blocks that are lost

  /** Thread t asked for a frame, and recvfrom returned none. */
  ghost predicate FailsAt(s: State, t: nat, s': State) {
    && t < |s.threads| && s.threads[t] != [] && s.threads[t][0].Recv?
    && s'.threads == s.threads[t := s.threads[t][1..]] && exists n :: n <= 0 && Receives(s, s.threads[t][0].b, n, s', [])
  }

  ghost predicate FailedRecv(s: State, s': State) {
    exists t :: FailsAt(s, t, s')
  }

  ghost function Failures(trace: seq<State>, i: nat): nat
    requires i < |trace|
  {
    if i == 0 then 0 else Failures(trace, i - 1) + if FailedRecv(trace[i - 1], trace[i]) then 1 else 0
  }

  lemma EffectLeaks(s: State, t: nat, s': State, then_: seq<Act>)
    requires t < |s.threads| && s.threads[t] != [] && Effect(s, s.threads[t][0], s', then_)
    requires s'.threads == s.threads[t := then_ + s.threads[t][1..]]
    ensures s'.leaked == s.leaked || FailsAt(s, t, s')
  {
    hide Route;
    match s.threads[t][0]
    case Recv(b) =>
      var n :| Receives(s, b, n, s', then_);
      if n <= 0 {
        assert [] + s.threads[t][1..] == s.threads[t][1..];
      }
    case _ =>
      hide Effect;
      OthersLeakNothing(s, s.threads[t][0], s', then_);
  }

  lemma OthersLeakNothing(s: State, a: Act, s': State, then_: seq<Act>)
    requires Effect(s, a, s', then_) && !a.Recv?
    ensures s'.leaked == s.leaked
  {
    hide AT.Looked, AT.Learned, AT.Aged, PS.Enqueued, PS.Retried, PS.Popped, PS.GivenUp, FS.Rewritten, FS.Admitted, GoesFor, HasFrame,
         Route, FreeAll, SendAll, FlushKeys, RunsRecv, FW.ArpOk, FW.OnSubnetOf, FW.IsRequest, FW.SenderOf;
  }

  lemma StepLeaks(s: State, s': State)
    requires Next(s, s')
    ensures |s'.leaked| == |s.leaked| + if FailedRecv(s, s') then 1 else 0
  {
    hide Effect;
    if t: nat :| FailsAt(s, t, s') {
      assert FailedRecv(s, s');
    } else if t: nat :| ThreadStep(s, t, s') {
      var then_ :| Effect(s, s.threads[t][0], s', then_) && s'.threads == s.threads[t := then_ + s.threads[t][1..]];
      EffectLeaks(s, t, s', then_);
    }
  }

  /** Each failed receive loses one block, for good, and nothing else does. */
  lemma {:induction false} LeaksAreFailures(trace: seq<State>, i: nat)
    requires IsRun(trace) && i < |trace|
    ensures |trace[i].leaked| == Failures(trace, i)
  {
    hide Next, FailedRecv;
    if i > 0 {
      LeaksAreFailures(trace, i - 1);
      assert Next(trace[i - 1], trace[i]);
      StepLeaks(trace[i - 1], trace[i]);
    }
  }

  lemma {:induction false} NoFailureIff(trace: seq<State>, i: nat)
    requires i < |trace|
    ensures Failures(trace, i) == 0 <==> forall j {:trigger trace[j]} :: 0 <= j < i ==> !FailedRecv(trace[j], trace[j + 1])
  {
    hide FailedRecv;
    if i > 0 {
      NoFailureIff(trace, i - 1);
      if Failures(trace, i) == 0 {
        assert !FailedRecv(trace[i - 1], trace[i]);
      } else if !FailedRecv(trace[i - 1], trace[i]) {
        var j :| 0 <= j < i - 1 && FailedRecv(trace[j], trace[j + 1]);
        assert trace[j] == trace[j];
      } else {
        assert trace[i - 1] == trace[i - 1];
      }
    }
  }

  /** No block is lost if and only if no receive failed. */
  lemma NothingLeaksIff(trace: seq<State>, i: nat)
    requires IsRun(trace) && i < |trace|
    ensures trace[i].leaked == multiset{} <==> forall j {:trigger trace[j]} :: 0 <= j < i ==> !FailedRecv(trace[j], trace[j + 1])
  {
    hide IsRun, Failures, FailedRecv;
    LeaksAreFailures(trace, i);
    NoFailureIff(trace, i);
    if |trace[i].leaked| == 0 {
      assert trace[i].leaked == multiset{};
    }
  }

  /** From any start it takes one failed receive: the block on top of the free stack is gone. */
  lemma LeakingRun(arena: set<nat>, free: seq<nat>, cfg: FS.Config, n: nat, bl: Block) returns (trace: seq<State>)
    requires |arena| == MP.MP_COUNT && multiset(free) == multiset(arena)
    ensures IsRun(trace) && |trace| == 3 && free != [] && trace[2].leaked == multiset{free[|free| - 1]}
  {
    var s0: State := RunsStart(arena, free, cfg, n);
    assert |multiset(free)| == |multiset(arena)| == MP.MP_COUNT;
    var b := free[|free| - 1];
    var s1: State := s0.(free := free[..|free| - 1], blocks := s0.blocks[b := bl], threads := s0.threads[0 := [Recv(b), RxLoop] + [Stop]]);
    var s2: State := s1.(leaked := multiset{b}, threads := s1.threads[0 := [] + [RxLoop, Stop]]);
    trace := [s0, s1, s2];
    AllocatesFirst(s0, b, s1);
    LosesFirst(s1, b, s2);
  }

  lemma AllocatesFirst(s: State, b: nat, s': State)
    requires s.threads != [] && s.threads[0] == [RxLoop, Stop] && Allocates(s, b, s')
    requires s'.threads == s.threads[0 := [Recv(b), RxLoop] + [Stop]]
    ensures Next(s, s')
  {
    assert s.threads[0][1..] == [Stop];
    assert Effect(s, RxLoop, s', [Recv(b), RxLoop]);
    assert ThreadStep(s, 0, s');
  }

  lemma LosesFirst(s: State, b: nat, s': State)
    requires s.threads != [] && s.threads[0] == [Recv(b), RxLoop, Stop]
    requires s' == s.(leaked := s.leaked + multiset{b}, threads := s.threads[0 := [] + [RxLoop, Stop]])
    ensures Next(s, s')
  {
    assert s.threads[0][1..] == [RxLoop, Stop];
    assert Receives(s, b, 0, s', []);
    assert Effect(s, Recv(b), s', []);
    assert ThreadStep(s, 0, s');
  }
}
