/**
 The value loop of Pump and the arithmetic of Cuts: an order and its bytes reach the automaton if and only if
 the arithmetic says so.
 */
module Delivery {
  import opened Cuts
  import opened RemoteSpec
  import opened Pump

  ghost predicate Takes(env: Env, from: nat, n: nat) {
    forall i :: from <= i < from + n ==> env.takes(i)
  }

  /** The flow at a phase, for a line that starts a transfer of the bytes f. */
  ghost predicate At(p: Phase, g: Flow, r: Ref, line: Bytes, f: Bytes, env: Env) {
    var q, total := Fold(r, line + [NEWLINE], env), |line| + 1 + |f|;
    p.got == g.got <= total
    && match p
       case Awaiting(got) =>
         got <= |line| && got <= LINE_LIMIT && !g.over && g.ref == r && g.buf == line[..got]
       case Lost(got) => g.over && g.ref == r && |g.buf| == got
       case Raw(got, held) =>
         |line| < got && |line| + 1 + held <= got && held < IBUF
         && var m := got - |line| - 1 - held;
            g.ref == Fold(q, f[..m], env) && g.buf == f[m..m + held] && (m < |f| ==> !g.over && Moving(g.ref, |f| - m, env, r.pos + |line| + 1 + m))
  }

  /** In the transfer, with so many bytes due. */
  ghost predicate Moving(q: Ref, due: nat, env: Env, pos: nat) {
    !Stopped(q) && q.line == [] && InTransfer(q.core) && q.core.bleft == due && q.pos == pos
  }

  ghost predicate Ordered(r: Ref, line: Bytes, n: nat, env: Env) {
    !Stopped(r) && !r.core.binary && r.line == [] && NEWLINE !in line && n > 0
    && Moving(Fold(r, line + [NEWLINE], env), n, env, r.pos + |line| + 1)
  }

  /** No newline yet, or too many bytes. */
  lemma TalkTurned(r: Ref, all: Bytes, env: Env)
    requires !r.core.binary && (NEWLINE !in all || |all| > LINE_LIMIT)
    ensures Turned(r, all, env) == (|all| <= LINE_LIMIT, 0)
  {
    hide LinesEaten;
    if NEWLINE !in all {
      NoLineEats(r, all, env);
    }
  }

  lemma OrderTurned(r: Ref, line: Bytes, n: nat, all: Bytes, env: Env)
    requires Ordered(r, line, n, env) && line + [NEWLINE] <= all && |all| <= LINE_LIMIT
    ensures Turned(r, all, env) == (true, |line| + 1)
  {
    hide LinesEaten, Fold, Moving;
    OrderTransfers(Fold(r, line + [NEWLINE], env), n, env, r.pos + |line| + 1);
    assert all[..|line|] == line && all[|line|] == NEWLINE && all[..|line| + 1] == line + [NEWLINE];
    LineEats(r, all, |line|, env);
  }

  /** One recv, with what its turn does. */
  lemma ReceivedIs(g: Flow, stream: Bytes, cut: nat, n: nat, all: Bytes, t: (bool, nat), env: Env)
    requires !Ends(g, stream) && n == Segment(cut, IBUF - |g.buf|, |stream| - g.got)
    requires all == g.buf + stream[g.got..g.got + n] && Turned(g.ref, all, env) == t && t.1 <= |all|
    ensures Received(g, stream, cut, env) == Flow(Fold(g.ref, all[..t.1], env), all[t.1..], g.got + n, !t.0)
  {
    hide Fold, Turned;
  }

  /** Bytes of the line without its newline, or too many bytes. */
  lemma LineStays(r: Ref, line: Bytes, f: Bytes, n: nat, all: Bytes, env: Env)
    requires Ordered(r, line, |f|, env) && n <= |line| + 1 + |f| && all == (line + [NEWLINE] + f)[..n]
    requires n <= |line| || n > LINE_LIMIT
    ensures Turned(r, all, env) == (n <= LINE_LIMIT, 0)
    ensures At(if n > LINE_LIMIT then Lost(n) else Awaiting(n), Flow(Fold(r, all[..0], env), all[0..], n, n > LINE_LIMIT), r, line, f, env)
  {
    hide Fold, Turned, Moving;
    assert all[..0] == [] && all[0..] == all && (n <= |line| ==> all == line[..n]);
    NothingFolds(r, env);
    TalkTurned(r, all, env);
  }

  /** The newline, and what came along with it. */
  lemma OrderComes(r: Ref, line: Bytes, f: Bytes, n: nat, all: Bytes, env: Env)
    requires Ordered(r, line, |f|, env) && |line| < n <= |line| + 1 + |f| && all == (line + [NEWLINE] + f)[..n]
    requires n <= LINE_LIMIT
    ensures Turned(r, all, env) == (true, |line| + 1)
    ensures At(Raw(n, n - |line| - 1), Flow(Fold(r, all[..|line| + 1], env), all[|line| + 1..], n, false), r, line, f, env)
  {
    hide Fold, Turned, Moving;
    assert all[..|line| + 1] == line + [NEWLINE] && all[|line| + 1..] == f[..n - |line| - 1] && f[..0] == [];
    NothingFolds(Fold(r, line + [NEWLINE], env), env);
    OrderTurned(r, line, |f|, all, env);
  }

  lemma AtLine(p: Phase, g: Flow, r: Ref, line: Bytes, f: Bytes, env: Env)
    requires Ordered(r, line, |f|, env) && At(p, g, r, line, f, env) && p.Awaiting?
    ensures g == Flow(r, line[..p.got], p.got, false) && |g.buf| == p.got <= |line| && p.got <= LINE_LIMIT && !g.ref.core.closed
  {
    hide Fold, Moving;
  }

  lemma LineNext(p: Phase, g: Flow, r: Ref, line: Bytes, f: Bytes, cut: nat, env: Env)
    requires Ordered(r, line, |f|, env) && At(p, g, r, line, f, env) && p.Awaiting? && p.got < |line| + 1 + |f|
    ensures At(Next(p, cut, |line|, |line| + 1 + |f|), Received(g, line + [NEWLINE] + f, cut, env), r, line, f, env)
  {
    hide Fold, Turned, Moving, Received, Ordered, At;
    AtLine(p, g, r, line, f, env);
    var stream := line + [NEWLINE] + f;
    var m := Segment(cut, IBUF - p.got, |stream| - p.got);
    var n := p.got + m;
    var all := stream[..n];
    LineArrives(line, f, p.got, n);
    if n <= |line| || n > LINE_LIMIT {
      LineStays(r, line, f, n, all, env);
      ReceivedIs(g, stream, cut, m, all, (n <= LINE_LIMIT, 0), env);
    } else {
      OrderComes(r, line, f, n, all, env);
      ReceivedIs(g, stream, cut, m, all, (true, |line| + 1), env);
    }
  }

  lemma LineArrives(line: Bytes, f: Bytes, k: nat, n: nat)
    requires k <= |line| && k <= n <= |line| + 1 + |f|
    ensures line[..k] + (line + [NEWLINE] + f)[k..n] == (line + [NEWLINE] + f)[..n]
  {}

  lemma OrderTransfers(q: Ref, due: nat, env: Env, pos: nat)
    requires Moving(q, due, env, pos)
    ensures q.core.binary && !q.core.closed
  {}

  lemma Pieces(f: Bytes, m: nat, n: nat, all: Bytes)
    requires m <= n <= |f| && all == f[m..n]
    ensures f[..m] + all == f[..n] && all[..|all|] == all && all[|all|..] == [] && f[n..n + 0] == []
  {}

  /** Raw bytes in the middle of the transfer that starts at q. */
  lemma RawMoves(q: Ref, pos: nat, f: Bytes, m: nat, n: nat, g: Ref, all: Bytes, env: Env)
    requires Takes(env, pos, |f|) && m < n <= |f| && all == f[m..n]
    requires g == Fold(q, f[..m], env) && Moving(g, |f| - m, env, pos + m)
    ensures var (go, e) := Turned(g, all, env);
            && e == |all| && Fold(g, all[..e], env) == Fold(q, f[..n], env)
            && (n < |f| ==> go && Moving(Fold(q, f[..n], env), |f| - n, env, pos + n))
  {
    hide Fold, Turned, Moving;
    Pieces(f, m, n, all);
    AllMoves(g, all, |f| - m, env, pos + m);
    FoldConcat(q, f[..m], all, env);
  }

  lemma AtRaw(p: Phase, g: Flow, r: Ref, line: Bytes, f: Bytes, env: Env)
    requires At(p, g, r, line, f, env) && p.Raw? && p.got < |line| + 1 + |f|
    ensures var m := p.got - |line| - 1 - p.held;
            && 0 <= m <= m + p.held < |f| && |g.buf| == p.held < IBUF && g.buf == f[m..m + p.held] && !g.over && g.got == p.got
            && g.ref == Fold(Fold(r, line + [NEWLINE], env), f[..m], env) && Moving(g.ref, |f| - m, env, r.pos + |line| + 1 + m)
            && !g.ref.core.closed && g.ref.core.binary
  {
    hide Fold;
  }

  lemma RawIsAt(n: nat, g: Flow, r: Ref, line: Bytes, f: Bytes, env: Env)
    requires n <= |f| && g.got == |line| + 1 + n && g.buf == []
    requires g.ref == Fold(Fold(r, line + [NEWLINE], env), f[..n], env)
    requires n < |f| ==> !g.over && Moving(g.ref, |f| - n, env, r.pos + |line| + 1 + n)
    ensures At(Raw(|line| + 1 + n, 0), g, r, line, f, env)
  {
    hide Fold, Moving;
  }

  lemma RawNext(p: Phase, g: Flow, r: Ref, line: Bytes, f: Bytes, cut: nat, env: Env)
    requires Ordered(r, line, |f|, env) && Takes(env, r.pos + |line| + 1, |f|) && At(p, g, r, line, f, env)
    requires p.Raw? && p.got < |line| + 1 + |f|
    ensures At(Next(p, cut, |line|, |line| + 1 + |f|), Received(g, line + [NEWLINE] + f, cut, env), r, line, f, env)
  {
    hide Fold, Turned, Moving, Received, Ordered, Takes, At;
    AtRaw(p, g, r, line, f, env);
    var stream := line + [NEWLINE] + f;
    var m := p.got - |line| - 1 - p.held;
    var d := Segment(cut, IBUF - p.held, |stream| - p.got);
    var n := m + p.held + d;
    var all := f[m..n];
    RawArrives(line, f, m, m + p.held, n);
    RawMoves(Fold(r, line + [NEWLINE], env), r.pos + |line| + 1, f, m, n, g.ref, all, env);
    ReceivedIs(g, stream, cut, d, all, Turned(g.ref, all, env), env);
    RawIsAt(n, Received(g, stream, cut, env), r, line, f, env);
  }

  lemma RawArrives(line: Bytes, f: Bytes, m: nat, k: nat, n: nat)
    requires m <= k <= n <= |f|
    ensures f[m..k] + (line + [NEWLINE] + f)[|line| + 1 + k..|line| + 1 + n] == f[m..n]
  {
    assert (line + [NEWLINE] + f)[|line| + 1..] == f;
  }

  /** All that a turn of the transfer has goes through. */
  lemma AllMoves(q: Ref, all: Bytes, due: nat, env: Env, pos: nat)
    requires Moving(q, due, env, pos) && 0 < |all| <= due && Takes(env, pos, due)
    ensures Turned(q, all, env).1 == |all|
    ensures |all| < due ==> Turned(q, all, env).0 && Moving(Fold(q, all, env), due - |all|, env, pos + |all|)
  {
    hide Fold, Turned, InTransfer, Moved, LandedRef, Taken, LinesEaten;
    OrderTransfers(q, due, env, pos);
    RawTurned(q, all, all, env);
    AllTaken(env, pos, |all|);
    RawRun(q, all, env);
    MovedTalks(q.core, all);
    assert all[|all|..] == [];
    NoLineEats(Fold(q, all, env), [], env);
    if |all| < due {
      MovedStays(q.core, all);
    }
  }

  lemma {:induction false} AllTaken(env: Env, pos: nat, n: nat)
    requires Takes(env, pos, n)
    ensures Taken(env, pos, n) == n
    decreases n
  {
    if n > 0 {
      AllTaken(env, pos + 1, n - 1);
    }
  }

  lemma NextIsAt(p: Phase, g: Flow, r: Ref, line: Bytes, f: Bytes, cut: nat, env: Env)
    requires Ordered(r, line, |f|, env) && Takes(env, r.pos + |line| + 1, |f|) && At(p, g, r, line, f, env)
    ensures At(Next(p, cut, |line|, |line| + 1 + |f|), Received(g, line + [NEWLINE] + f, cut, env), r, line, f, env)
  {
    hide Fold, Turned, InTransfer;
    var stream := line + [NEWLINE] + f;
    if p.got < |stream| {
      match p
      case Awaiting(got) => LineNext(p, g, r, line, f, cut, env);
      case Lost(got) =>
      case Raw(got, held) => RawNext(p, g, r, line, f, cut, env);
    }
  }

  lemma {:induction false} PhasesAreAt(r: Ref, line: Bytes, f: Bytes, cuts: seq<nat>, env: Env)
    requires Ordered(r, line, |f|, env) && Takes(env, r.pos + |line| + 1, |f|)
    ensures At(Phases(cuts, |line|, |line| + 1 + |f|), Pumped(Flow(r, [], 0, false), line + [NEWLINE] + f, cuts, env), r, line, f, env)
  {
    hide At, Received, Next, Ordered, Takes;
    if cuts == [] {
      StartIsAt(r, line, f, env);
    } else {
      var t := cuts[..|cuts| - 1];
      var stream := line + [NEWLINE] + f;
      PhasesAreAt(r, line, f, t, env);
      NextIsAt(Phases(t, |line|, |line| + 1 + |f|), Pumped(Flow(r, [], 0, false), stream, t, env), r, line, f, cuts[|cuts| - 1], env);
    }
  }

  lemma StartIsAt(r: Ref, line: Bytes, f: Bytes, env: Env)
    ensures At(Awaiting(0), Flow(r, [], 0, false), r, line, f, env)
  {
    assert line[..0] == [];
  }

  /**
   The receive loop hands the whole of an order and its bytes to the automaton if and only if the arithmetic
   says so; otherwise a proper prefix.
   */
  lemma DeliveredIff(r: Ref, line: Bytes, f: Bytes, cuts: seq<nat>, env: Env)
    requires Ordered(r, line, |f|, env) && Takes(env, r.pos + |line| + 1, |f|)
    ensures var stream := line + [NEWLINE] + f;
            var g := Pumped(Flow(r, [], 0, false), stream, cuts, env);
            |g.buf| <= g.got && (Delivers(cuts, |line|, |stream|) <==> g.got - |g.buf| == |stream|)
  {
    hide Pumped, Phases, Fold, Ordered, Takes;
    PhasesAreAt(r, line, f, cuts, env);
  }

  /** The stream brings a line and its bytes behind other bytes, and no recv mixes the two: the client waited for its answer. */
  ghost predicate Sent(stream: Bytes, cuts: seq<nat>, pre: Bytes, a: seq<nat>, line: Bytes, f: Bytes, b: seq<nat>) {
    stream == pre + (line + [NEWLINE] + f) && cuts == a + b
  }
}
