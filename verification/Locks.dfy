/**
 The locks of the data plane and the order the code takes them in. Every path of the receive loop, the
 workers and the timer is a sequence of acquires and releases; threads interleave at that granularity.
 */
module Locks {
  import opened Basics

  datatype Lock = Ring | Cfg | Fw | Route | Arp | Pend | Pool | Log

  datatype Mode = Read | Write

  datatype Op = Acq(l: Lock, m: Mode) | Rel(l: Lock)

  type Path = seq<Op>

  type Held = map<Lock, Mode>

  /** A lock may be taken only while every lock already held has a smaller rank. The ARP and pending locks share theirs. */
  function Rank(l: Lock): nat {
    match l
    case Ring => 0
    case Cfg => 0
    case Fw => 0
    case Route => 0
    case Arp => 1
    case Pend => 1
    case Pool => 2
    case Log => 3
  }

  predicate MayTake(h: Held, l: Lock) {
    forall k :: k in h ==> Rank(k) < Rank(l)
  }

  /** What is held after a path, or None if the path breaks the order or releases what it does not hold. */
  function After(h: Held, p: Path): Option<Held>
    decreases |p|
  {
    if p == [] then Some(h)
    else match p[0]
      case Acq(l, m) => if MayTake(h, l) then After(h[l := m], p[1..]) else None
      case Rel(l) => if l in h then After(h - {l}, p[1..]) else None
  }

  /** The path keeps the order and gives back all it takes. */
  predicate Disciplined(p: Path) {
    After(map[], p) == Some(map[])
  }

  // ---------------------------------------------------------------- the paths of the code

  function Guarded(l: Lock, m: Mode, body: Path): Path {
    [Acq(l, m)] + body + [Rel(l)]
  }

  function Times(n: nat, p: Path): Path {
    if n == 0 then [] else p + Times(n - 1, p)
  }

  /** mp_alloc and mp_free; log_msg when the level lets it print. */
  const USE_POOL: Path := [Acq(Pool, Write), Rel(Pool)]
  const SAY_LOG: Path := [Acq(Log, Write), Rel(Log)]

  function Maybe(yes: bool, p: Path): Path {
    if yes then p else []
  }

  /** pend_enqueue: `freed` frames go while the lock is held, `said` and `told` are its two log lines. */
  function PendEnqueue(freed: nat, said: bool, refused: bool, told: bool): Path {
    Guarded(Pend, Write, Times(freed, USE_POOL) + Maybe(said, SAY_LOG)) + Maybe(refused, USE_POOL) + Maybe(told, SAY_LOG)
  }

  /** forward_flush_pending: the ARP lock is released before the pending lock is taken. */
  function FlushPending(hit: bool, frames: nat): Path {
    Guarded(Arp, Read, []) + Maybe(hit, Guarded(Pend, Write, []) + Times(frames, USE_POOL))
  }

  /** arp_request: a block is taken and given back. */
  function ArpRequest(sent: bool): Path {
    Maybe(sent, USE_POOL + USE_POOL)
  }

  datatype Task = Task(filtered: bool, routed: bool, dropped: bool, hit: bool, freed: nat, said: bool, refused: bool, told: bool, sent: bool)

  /** forward_task. */
  function ForwardTask(t: Task): Path {
    Maybe(t.filtered, Guarded(Fw, Read, [])) + Maybe(t.routed, Guarded(Route, Read, []))
    + if t.dropped then USE_POOL
      else Guarded(Arp, Read, [])
           + if t.hit then USE_POOL else PendEnqueue(t.freed, t.said, t.refused, t.told) + ArpRequest(t.sent)
  }

  /** The walk of pend_tick: nodes given up, each with its frames and a log line. */
  function GiveUps(nodes: seq<(nat, bool)>): Path {
    if nodes == [] then [] else Times(nodes[0].0, USE_POOL) + Maybe(nodes[0].1, SAY_LOG) + GiveUps(nodes[1..])
  }

  /** The flushes of pend_tick, after its lock is released. */
  function Flushes(keys: seq<(bool, bool, nat)>): Path {
    if keys == [] then [] else ArpRequest(keys[0].0) + FlushPending(keys[0].1, keys[0].2) + Flushes(keys[1..])
  }

  datatype Plan =
    | RxIdle                                                     // nothing received: the block is lost
    | RxDrop
    | RxIp(refused: bool)
    | RxArp(learn: bool, proxy: bool, routed: bool, flush: bool, hit: bool, frames: nat)
    | Work(task: Task)
    | Wait                                                       // a worker finds the ring empty
    | Tick(aged: nat, nodes: seq<(nat, bool)>, keys: seq<(bool, bool, nat)>)

  /** One turn of rx_loop, worker_main or timer_thread. */
  function PathOf(p: Plan): Path {
    match p
    case RxIdle => USE_POOL
    case RxDrop => USE_POOL + USE_POOL
    case RxIp(refused) => USE_POOL + Guarded(Ring, Write, []) + Maybe(refused, USE_POOL)
    case RxArp(learn, proxy, routed, flush, hit, frames) =>
      USE_POOL + Maybe(learn, Guarded(Arp, Write, [])) + Maybe(proxy, Guarded(Cfg, Write, [])) + Maybe(routed, Guarded(Route, Read, []))
      + Maybe(flush, FlushPending(hit, frames)) + USE_POOL
    case Work(task) => Guarded(Ring, Write, []) + ForwardTask(task)
    case Wait => Guarded(Ring, Write, [])
    case Tick(aged, nodes, keys) =>
      Guarded(Arp, Write, Times(aged, SAY_LOG)) + Guarded(Pend, Write, GiveUps(nodes)) + Flushes(keys)
  }

  // ---------------------------------------------------------------- all of them are disciplined

  lemma {:induction false} AfterConcat(h: Held, a: Path, b: Path)
    ensures After(h, a + b) == if After(h, a).Some? then After(After(h, a).value, b) else None
    decreases |a|
  {
    if a == [] {
      assert a + b == b;
    } else {
      assert (a + b)[1..] == a[1..] + b;
      match a[0]
      case Acq(l, m) => AfterConcat(h[l := m], a[1..], b);
      case Rel(l) => AfterConcat(h - {l}, a[1..], b);
    }
  }

  lemma Join(a: Path, b: Path)
    requires Disciplined(a) && Disciplined(b)
    ensures Disciplined(a + b)
  {
    AfterConcat(map[], a, b);
  }

  /** Every lock the path takes ranks above r. */
  predicate Above(p: Path, r: nat) {
    forall i :: 0 <= i < |p| && p[i].Acq? ==> Rank(p[i].l) > r
  }

  lemma AboveConcat(a: Path, b: Path, r: nat)
    requires Above(a, r) && Above(b, r)
    ensures Above(a + b, r)
  {
    forall i | 0 <= i < |a + b| && (a + b)[i].Acq? ensures Rank((a + b)[i].l) > r {
      assert (a + b)[i] == if i < |a| then a[i] else b[i - |a|];
    }
  }

  /** A path that stays above a lock can run while that lock is held, and leaves it held. */
  lemma {:induction false} UnderLock(l: Lock, m: Mode, h: Held, p: Path)
    requires Above(p, Rank(l)) && l !in h && After(h, p).Some? && l !in After(h, p).value
    requires forall k :: k in h ==> Rank(k) > Rank(l)
    ensures After(h[l := m], p) == Some(After(h, p).value[l := m])
    decreases |p|
  {
    if p != [] {
      assert Above(p[1..], Rank(l)) by { assert forall i :: 0 <= i < |p[1..]| ==> p[1..][i] == p[i + 1]; }
      match p[0]
      case Acq(k, n) =>
        assert p[0].Acq? && Rank(k) > Rank(l);
        assert h[l := m][k := n] == h[k := n][l := m];
        UnderLock(l, m, h[k := n], p[1..]);
      case Rel(k) =>
        assert h[l := m] - {k} == (h - {k})[l := m];
        UnderLock(l, m, h - {k}, p[1..]);
    }
  }

  lemma Nest(l: Lock, m: Mode, body: Path)
    requires Disciplined(body) && Above(body, Rank(l))
    ensures Disciplined(Guarded(l, m, body))
  {
    var h: Held := map[l := m];
    assert map[][l := m] == h;
    UnderLock(l, m, map[], body);
    AfterConcat(h, body, [Rel(l)]);
    assert h - {l} == map[];
    assert After(h, body + [Rel(l)]) == Some(map[]);
    assert Guarded(l, m, body) == [Acq(l, m)] + (body + [Rel(l)]);
    assert ([Acq(l, m)] + (body + [Rel(l)]))[1..] == body + [Rel(l)];
  }

  lemma Bare(l: Lock, m: Mode)
    ensures Disciplined(Guarded(l, m, []))
  {
    Nest(l, m, []);
  }

  lemma Leaf(l: Lock)
    ensures Disciplined([Acq(l, Write), Rel(l)])
  {
    Bare(l, Write);
    assert Guarded(l, Write, []) == [Acq(l, Write), Rel(l)];
  }

  lemma Leaves()
    ensures Disciplined(USE_POOL) && Disciplined(SAY_LOG)
  {
    Leaf(Pool);
    Leaf(Log);
  }

  lemma {:induction false} TimesDisciplined(n: nat, p: Path, r: nat)
    requires Disciplined(p) && Above(p, r)
    ensures Disciplined(Times(n, p)) && Above(Times(n, p), r)
  {
    if n > 0 {
      TimesDisciplined(n - 1, p, r);
      Join(p, Times(n - 1, p));
      AboveConcat(p, Times(n - 1, p), r);
    }
  }

  lemma PoolTimes(n: nat)
    ensures Disciplined(Times(n, USE_POOL)) && Above(Times(n, USE_POOL), Rank(Pend))
  {
    Leaves();
    TimesDisciplined(n, USE_POOL, Rank(Pend));
  }

  lemma FlushDisciplined(hit: bool, frames: nat)
    ensures Disciplined(FlushPending(hit, frames))
  {
    hide Disciplined, Guarded, Times;
    Empty();
    Bare(Arp, Read);
    Bare(Pend, Write);
    PoolTimes(frames);
    Join(Guarded(Pend, Write, []), Times(frames, USE_POOL));
    Join(Guarded(Arp, Read, []), Maybe(hit, Guarded(Pend, Write, []) + Times(frames, USE_POOL)));
  }

  lemma Empty()
    ensures Disciplined([])
  {}

  lemma RequestDisciplined(sent: bool)
    ensures Disciplined(ArpRequest(sent))
  {
    hide Disciplined;
    Empty();
    Leaves();
    Join(USE_POOL, USE_POOL);
  }

  lemma EnqueueDisciplined(freed: nat, said: bool, refused: bool, told: bool)
    ensures Disciplined(PendEnqueue(freed, said, refused, told))
  {
    Leaves();
    PoolTimes(freed);
    AboveConcat(Times(freed, USE_POOL), Maybe(said, SAY_LOG), Rank(Pend));
    hide Disciplined, Guarded, Times, Above;
    Empty();
    var body := Times(freed, USE_POOL) + Maybe(said, SAY_LOG);
    Join(Times(freed, USE_POOL), Maybe(said, SAY_LOG));
    Nest(Pend, Write, body);
    Join(Guarded(Pend, Write, body), Maybe(refused, USE_POOL));
    Join(Guarded(Pend, Write, body) + Maybe(refused, USE_POOL), Maybe(told, SAY_LOG));
  }

  lemma TaskDisciplined(t: Task)
    ensures Disciplined(ForwardTask(t))
  {
    hide Disciplined, Guarded, PendEnqueue, ArpRequest;
    Empty();
    Leaves();
    Bare(Fw, Read);
    Bare(Route, Read);
    Bare(Arp, Read);
    EnqueueDisciplined(t.freed, t.said, t.refused, t.told);
    RequestDisciplined(t.sent);
    Join(PendEnqueue(t.freed, t.said, t.refused, t.told), ArpRequest(t.sent));
    var last := if t.hit then USE_POOL else PendEnqueue(t.freed, t.said, t.refused, t.told) + ArpRequest(t.sent);
    Join(Guarded(Arp, Read, []), last);
    var tail := if t.dropped then USE_POOL else Guarded(Arp, Read, []) + last;
    Join(Maybe(t.filtered, Guarded(Fw, Read, [])), Maybe(t.routed, Guarded(Route, Read, [])));
    Join(Maybe(t.filtered, Guarded(Fw, Read, [])) + Maybe(t.routed, Guarded(Route, Read, [])), tail);
  }

  lemma {:induction false} GiveUpsDisciplined(nodes: seq<(nat, bool)>)
    ensures Disciplined(GiveUps(nodes)) && Above(GiveUps(nodes), Rank(Pend))
  {
    if nodes != [] {
      var a, b, c := Times(nodes[0].0, USE_POOL), Maybe(nodes[0].1, SAY_LOG), GiveUps(nodes[1..]);
      Leaves();
      PoolTimes(nodes[0].0);
      GiveUpsDisciplined(nodes[1..]);
      AboveConcat(a, b, Rank(Pend));
      AboveConcat(a + b, c, Rank(Pend));
      Empty();
      Join(a, b);
      Join(a + b, c);
    }
  }

  lemma {:induction false} FlushesDisciplined(keys: seq<(bool, bool, nat)>)
    ensures Disciplined(Flushes(keys))
  {
    hide Disciplined, ArpRequest, FlushPending;
    Empty();
    if keys != [] {
      var a, b := ArpRequest(keys[0].0), FlushPending(keys[0].1, keys[0].2);
      RequestDisciplined(keys[0].0);
      FlushDisciplined(keys[0].1, keys[0].2);
      FlushesDisciplined(keys[1..]);
      Join(a, b);
      Join(a + b, Flushes(keys[1..]));
    }
  }

  lemma TickDisciplined(aged: nat, nodes: seq<(nat, bool)>, keys: seq<(bool, bool, nat)>)
    ensures Disciplined(PathOf(Tick(aged, nodes, keys)))
  {
    Leaves();
    TimesDisciplined(aged, SAY_LOG, Rank(Arp));
    GiveUpsDisciplined(nodes);
    FlushesDisciplined(keys);
    hide Disciplined, Guarded, Times, GiveUps, Flushes, Above;
    Nest(Arp, Write, Times(aged, SAY_LOG));
    Nest(Pend, Write, GiveUps(nodes));
    var a, b := Guarded(Arp, Write, Times(aged, SAY_LOG)), Guarded(Pend, Write, GiveUps(nodes));
    Join(a, b);
    Join(a + b, Flushes(keys));
  }

  lemma RxArpDisciplined(learn: bool, proxy: bool, routed: bool, flush: bool, hit: bool, frames: nat)
    ensures Disciplined(PathOf(RxArp(learn, proxy, routed, flush, hit, frames)))
  {
    hide Disciplined, Guarded, FlushPending;
    Empty();
    Leaves();
    Bare(Arp, Write);
    Bare(Cfg, Write);
    Bare(Route, Read);
    FlushDisciplined(hit, frames);
    var a, b, c, d := Maybe(learn, Guarded(Arp, Write, [])), Maybe(proxy, Guarded(Cfg, Write, [])),
                      Maybe(routed, Guarded(Route, Read, [])), Maybe(flush, FlushPending(hit, frames));
    Join(USE_POOL, a);
    Join(USE_POOL + a, b);
    Join(USE_POOL + a + b, c);
    Join(USE_POOL + a + b + c, d);
    Join(USE_POOL + a + b + c + d, USE_POOL);
  }

  /** Every path of the data plane takes its locks by strictly growing rank and releases them all. */
  lemma PathsAreDisciplined(p: Plan)
    ensures Disciplined(PathOf(p))
  {
    Leaves();
    Empty();
    Bare(Ring, Write);
    hide Disciplined, Guarded, ForwardTask;
    match p
    case RxIdle =>
    case RxDrop => Join(USE_POOL, USE_POOL);
    case RxIp(refused) =>
      Join(USE_POOL, Guarded(Ring, Write, []));
      Join(USE_POOL + Guarded(Ring, Write, []), Maybe(refused, USE_POOL));
    case RxArp(learn, proxy, routed, flush, hit, frames) => RxArpDisciplined(learn, proxy, routed, flush, hit, frames);
    case Work(task) =>
      TaskDisciplined(task);
      Join(Guarded(Ring, Write, []), ForwardTask(task));
    case Wait =>
    case Tick(aged, nodes, keys) => TickDisciplined(aged, nodes, keys);
  }

  // ---------------------------------------------------------------- interleaved

  /** What a thread holds, and what is left of its path. */
  datatype Thread = Thread(held: Held, todo: Path)

  type State = seq<Thread>

  /** No other thread holds the lock, or all of them and this one only read. */
  predicate Available(s: State, t: nat, l: Lock, m: Mode)
    requires t < |s|
  {
    forall u :: 0 <= u < |s| && u != t && l in s[u].held ==> m == Read && s[u].held[l] == Read
  }

  predicate Enabled(s: State, t: nat)
    requires t < |s|
  {
    s[t].todo != [] && (s[t].todo[0].Acq? ==> Available(s, t, s[t].todo[0].l, s[t].todo[0].m))
  }

  function Moved(th: Thread): Thread
    requires th.todo != []
  {
    match th.todo[0]
    case Acq(l, m) => Thread(th.held[l := m], th.todo[1..])
    case Rel(l) => Thread(th.held - {l}, th.todo[1..])
  }

  /** A thread makes its next move, or an idle one starts another turn. */
  ghost predicate Next(s: State, s': State) {
    exists t :: 0 <= t < |s| &&
      ((Enabled(s, t) && s' == s[t := Moved(s[t])])
       || (s[t].todo == [] && exists p :: s' == s[t := Thread(s[t].held, PathOf(p))]))
  }

  ghost predicate Init(s: State) {
    forall t :: 0 <= t < |s| ==> s[t] == Thread(map[], [])
  }

  ghost predicate Inv(s: State) {
    && (forall t :: 0 <= t < |s| ==> After(s[t].held, s[t].todo) == Some(map[]))
    && (forall t, l, k :: 0 <= t < |s| && l in s[t].held && k in s[t].held && l != k ==> Rank(l) != Rank(k))
    && (forall t, u, l :: 0 <= t < |s| && 0 <= u < |s| && t != u && l in s[t].held && l in s[u].held ==>
          s[t].held[l] == Read && s[u].held[l] == Read)
  }

  lemma MoveKeepsInv(s: State, t: nat)
    requires Inv(s) && t < |s| && Enabled(s, t)
    ensures Inv(s[t := Moved(s[t])])
  {
    assert After(s[t].held, s[t].todo) == Some(map[]);
    hide PathOf, After, Inv;
    match s[t].todo[0]
    case Acq(l, m) => TakeKeepsInv(s, t, l, m);
    case Rel(l) => GiveKeepsInv(s, t, l);
  }

  lemma TakeKeepsInv(s: State, t: nat, l: Lock, m: Mode)
    requires Inv(s) && t < |s| && s[t].todo != [] && s[t].todo[0] == Acq(l, m) && Available(s, t, l, m)
    ensures Inv(s[t := Thread(s[t].held[l := m], s[t].todo[1..])])
  {
    hide PathOf;
    assert After(s[t].held, s[t].todo) == Some(map[]);
    assert MayTake(s[t].held, l);
  }

  lemma GiveKeepsInv(s: State, t: nat, l: Lock)
    requires Inv(s) && t < |s| && s[t].todo != [] && s[t].todo[0] == Rel(l)
    ensures Inv(s[t := Thread(s[t].held - {l}, s[t].todo[1..])])
  {
    hide PathOf;
    assert After(s[t].held, s[t].todo) == Some(map[]);
  }

  lemma StartKeepsInv(s: State, t: nat, p: Plan)
    requires Inv(s) && t < |s| && s[t].todo == []
    ensures Inv(s[t := Thread(s[t].held, PathOf(p))])
  {
    hide PathOf;
    assert After(s[t].held, s[t].todo) == Some(s[t].held);
    PathsAreDisciplined(p);
  }

  lemma NextKeepsInv(s: State, s': State)
    requires Inv(s) && Next(s, s')
    ensures Inv(s')
  {
    hide Inv, PathOf, Moved;
    var t: nat :| t < |s| &&
      ((Enabled(s, t) && s' == s[t := Moved(s[t])])
       || (s[t].todo == [] && exists p :: s' == s[t := Thread(s[t].held, PathOf(p))]));
    if s[t].todo == [] && exists p :: s' == s[t := Thread(s[t].held, PathOf(p))] {
      var p :| s' == s[t := Thread(s[t].held, PathOf(p))];
      StartKeepsInv(s, t, p);
    } else {
      MoveKeepsInv(s, t);
    }
  }

  ghost predicate IsRun(trace: seq<State>) {
    trace != [] && Init(trace[0]) && forall i {:trigger trace[i]} :: 0 <= i < |trace| - 1 ==> Next(trace[i], trace[i + 1])
  }

  /** There are runs, and in them threads in the middle of a path: say, one that took any plan. */
  lemma RunsStart(n: nat, p: Plan) returns (trace: seq<State>)
    requires 0 < n
    ensures IsRun(trace) && |trace| == 2 && |trace[1]| == n && trace[1][0].todo == PathOf(p)
  {
    hide PathOf;
    var idle: State := seq(n, _ => Thread(map[], []));
    var s := idle[0 := Thread(map[], PathOf(p))];
    assert idle[0].todo == [];
    assert Next(idle, s);
    trace := [idle, s];
  }

  lemma {:induction false} RunIsInv(trace: seq<State>, i: nat)
    requires IsRun(trace) && i < |trace|
    ensures Inv(trace[i])
  {
    hide Next;
    if i > 0 {
      RunIsInv(trace, i - 1);
      assert Next(trace[i - 1], trace[i]);
      hide Inv;
      NextKeepsInv(trace[i - 1], trace[i]);
    }
  }

  /** Of all held locks, one of the highest rank. */
  lemma {:induction false} TopHolder(s: State, r: nat) returns (u: nat, l: Lock)
    requires exists t, k :: 0 <= t < |s| && k in s[t].held
    requires forall t, k :: 0 <= t < |s| && k in s[t].held ==> Rank(k) <= r
    ensures u < |s| && l in s[u].held
    ensures forall t, k :: 0 <= t < |s| && k in s[t].held ==> Rank(k) <= Rank(l)
  {
    if t: nat, k :| t < |s| && k in s[t].held && Rank(k) == r {
      u, l := t, k;
    } else {
      var t: nat, k :| t < |s| && k in s[t].held;
      assert Rank(k) < r;
      u, l := TopHolder(s, r - 1);
    }
  }

  lemma SomeoneEnabled(s: State, t: nat) returns (u: nat)
    requires Inv(s) && t < |s| && s[t].todo != []
    ensures u < |s| && Enabled(s, u)
  {
    if exists v, k :: 0 <= v < |s| && k in s[v].held {
      assert forall v, k :: 0 <= v < |s| && k in s[v].held ==> Rank(k) <= 3;
      var l;
      u, l := TopHolder(s, 3);
      assert After(s[u].held, s[u].todo) == Some(map[]);
    } else {
      u := t;
      assert After(s[t].held, s[t].todo) == Some(map[]);
    }
  }

  /** Deadlock freedom: while any thread is in the middle of its path, some thread can make its next move. */
  lemma NoDeadlock(trace: seq<State>, i: nat)
    requires IsRun(trace) && i < |trace| && exists t :: 0 <= t < |trace[i]| && trace[i][t].todo != []
    ensures exists u: nat :: u < |trace[i]| && Enabled(trace[i], u)
  {
    hide IsRun, Inv;
    RunIsInv(trace, i);
    var t: nat :| t < |trace[i]| && trace[i][t].todo != [];
    var u := SomeoneEnabled(trace[i], t);
  }

  /** No thread ever holds the ARP lock and the pending lock together, in either order. */
  lemma ArpAndPendNeverNest(trace: seq<State>, i: nat, t: nat)
    requires IsRun(trace) && i < |trace| && t < |trace[i]|
    ensures !(Arp in trace[i][t].held && Pend in trace[i][t].held)
  {
    hide IsRun;
    RunIsInv(trace, i);
    assert Rank(Arp) == Rank(Pend) && Arp != Pend;
  }
}
