/**
 The receive loop of src/remote.c as a value: what a turn eats of the bytes it has, and what a list of cuts
 makes of a stream. Remote proves the code against it.
 */
module Pump {
  import opened Basics
  import opened Cuts
  import opened RemoteSpec
  import Text
  import U = Upgrade

  // ---------------------------------------------------------------- one turn

  function NewlineAt(b: Bytes): (k: nat)
    ensures k <= |b| && NEWLINE !in b[..k] && (k < |b| ==> b[k] == NEWLINE)
  {
    if b == [] || b[0] == NEWLINE then 0
    else
      var k := 1 + NewlineAt(b[1..]);
      assert b[..k] == [b[0]] + b[1..][..k - 1];
      k
  }

  lemma {:induction false} NewlineIsAt(b: Bytes, k: nat)
    requires k <= |b| && NEWLINE !in b[..k] && (k < |b| ==> b[k] == NEWLINE)
    ensures NewlineAt(b) == k
  {
    if k > 0 {
      assert b[0] in b[..k] && b[1..][..k - 1] == b[..k][1..];
      NewlineIsAt(b[1..], k - 1);
    }
  }

  /** How many bytes process_lines eats: complete lines, up to `exit` or the start of raw bytes. */
  ghost function LinesEaten(r: Ref, buf: Bytes, env: Env): (n: nat)
    ensures n <= |buf|
    decreases |buf|
  {
    var k := NewlineAt(buf);
    if k == |buf| then 0
    else
      var q := Fold(r, buf[..k + 1], env);
      k + 1 + if q.core.closed || q.core.binary then 0 else LinesEaten(q, buf[k + 1..], env)
  }

  /** Whether the loop goes on after a turn with these bytes in the buffer, and how many of them it eats. */
  ghost function Turned(r: Ref, all: Bytes, env: Env): (t: (bool, nat))
    ensures t.1 <= |all|
  {
    if r.core.binary then
      var n := Min(|all|, r.core.bleft);
      var q := Fold(r, all[..n], env);
      if q.broken || q.core.gone then (false, n)
      else if q.core.binary then (true, n)
      else (true, n + LinesEaten(q, all[n..], env))
    else if |all| > LINE_LIMIT then (false, 0)
    else (true, LinesEaten(r, all, env))
  }

  // ---------------------------------------------------------------- a whole connection

  /** The automaton after the bytes eaten, the bytes still in the buffer, how many were received, and whether the loop broke. */
  datatype Flow = Flow(ref: Ref, buf: Bytes, got: nat, over: bool)

  predicate Ends(f: Flow, stream: Bytes) {
    f.over || f.ref.core.closed || f.got >= |stream| || |f.buf| >= IBUF
  }

  /** One recv and its turn. */
  ghost function Received(f: Flow, stream: Bytes, cut: nat, env: Env): Flow {
    if Ends(f, stream) then f
    else
      var n := Segment(cut, IBUF - |f.buf|, |stream| - f.got);
      var all := f.buf + stream[f.got..f.got + n];
      var (go, e) := Turned(f.ref, all, env);
      Flow(Fold(f.ref, all[..e], env), all[e..], f.got + n, !go)
  }

  ghost function Pumped(f: Flow, stream: Bytes, cuts: seq<nat>, env: Env): Flow {
    if cuts == [] then f else Received(Pumped(f, stream, cuts[..|cuts| - 1], env), stream, cuts[|cuts| - 1], env)
  }

  lemma {:induction false} EndedStays(f: Flow, stream: Bytes, a: seq<nat>, b: seq<nat>, env: Env)
    requires Ends(Pumped(f, stream, a, env), stream)
    ensures Pumped(f, stream, a + b, env) == Pumped(f, stream, a, env)
  {
    hide Fold, Turned;
    if b == [] {
      assert a + b == a;
    } else {
      assert (a + b)[..|a + b| - 1] == a + b[..|b| - 1];
      EndedStays(f, stream, a, b[..|b| - 1], env);
    }
  }

  /** Every recv brings at least a byte: while the loop runs, it has got as many bytes as it has cuts, or all. */
  lemma {:induction false} PumpedBrings(f: Flow, stream: Bytes, cuts: seq<nat>, env: Env)
    requires f.got <= |stream|
    ensures var g := Pumped(f, stream, cuts, env);
            g.got <= |stream| && (!g.over && !g.ref.core.closed && |g.buf| < IBUF && g.got < |stream| ==> |cuts| <= g.got - f.got)
  {
    hide Fold, Turned;
    if cuts != [] {
      PumpedBrings(f, stream, cuts[..|cuts| - 1], env);
    }
  }

  lemma NothingFolds(r: Ref, env: Env)
    ensures Fold(r, [], env) == r
  {}

  /** One line of process_lines. */
  lemma LineEats(r: Ref, buf: Bytes, k: nat, env: Env)
    requires k < |buf| && NEWLINE !in buf[..k] && buf[k] == NEWLINE
    ensures var q := Fold(r, buf[..k + 1], env);
            LinesEaten(r, buf, env) == k + 1 + if q.core.closed || q.core.binary then 0 else LinesEaten(q, buf[k + 1..], env)
  {
    NewlineIsAt(buf, k);
    hide Fold;
  }

  lemma NoLineEats(r: Ref, buf: Bytes, env: Env)
    requires NEWLINE !in buf
    ensures LinesEaten(r, buf, env) == 0
  {
    assert buf[..|buf|] == buf;
    NewlineIsAt(buf, |buf|);
    hide Fold;
  }

  /** A turn in the middle of a transfer. */
  lemma RawTurned(r: Ref, all: Bytes, taken: Bytes, env: Env)
    requires r.core.binary && |taken| == Min(|all|, r.core.bleft) && taken <= all
    ensures var q := Fold(r, taken, env);
            Turned(r, all, env) ==
              if q.broken || q.core.gone then (false, |taken|)
              else if q.core.binary then (true, |taken|)
              else (true, |taken| + LinesEaten(q, all[|taken|..], env))
  {
    hide Fold, LinesEaten;
    assert all[..|taken|] == taken;
  }

  // ---------------------------------------------------------------- what every flow keeps

  /**
   The bytes eaten and the bytes in the buffer are, together, the bytes received; the automaton has taken
   the eaten ones. What is in the buffer of a loop that goes on is a line begun, or raw bytes behind an order
   that the next recv will pick up; there is room for that recv. A loop that broke was stopped by the
   automaton, or by a buffer grown too long outside a transfer.
   */
  ghost predicate Framed(r: Ref, f: Flow, stream: Bytes, env: Env) {
    && |f.buf| <= f.got <= |stream|
    && var used := stream[..f.got - |f.buf|];
       && used + f.buf == stream[..f.got] && f.ref == Fold(r, used, env)
       && if f.over then Stopped(f.ref) || (!f.ref.core.binary && |f.buf| > LINE_LIMIT)
          else Waiting(f) && (f.ref.core.closed || if f.ref.core.binary then f.buf == [] || EndsLine(used) else NEWLINE !in f.buf)
  }

  ghost predicate Waiting(f: Flow) {
    !f.ref.broken && !f.ref.core.gone && f.ref.line == [] && (f.ref.core.closed || Tidy(f.ref.core)) && |f.buf| < IBUF
  }

  predicate EndsLine(s: Bytes) {
    s != [] && s[|s| - 1] == NEWLINE
  }

  /** A loop that still runs at the end has served every cut: it got everything, or a byte at least for each cut. */
  predicate Complete(f: Flow, stream: Bytes, cuts: seq<nat>) {
    !f.over && !f.ref.core.closed ==> f.got == |stream| || |cuts| <= f.got
  }

  /** What process_lines leaves. */
  ghost predicate LinesLeft(r: Ref, buf: Bytes, n: nat, env: Env) {
    && n <= |buf|
    && var q := Fold(r, buf[..n], env);
       && !q.broken && !q.core.gone && q.line == [] && (q.core.closed || Tidy(q.core))
       && (q.core.closed || q.core.binary || NEWLINE !in buf[n..])
       && (if n == 0 then q == r else buf[n - 1] == NEWLINE)
  }

  lemma {:induction false} LinesEatenLeaves(r: Ref, buf: Bytes, env: Env)
    requires !Stopped(r) && !r.core.binary && r.line == [] && Tidy(r.core)
    ensures LinesLeft(r, buf, LinesEaten(r, buf, env), env)
    decreases |buf|
  {
    hide Fold, Tidy, LinesLeft, LinesEaten;
    var k := NewlineAt(buf);
    if k == |buf| {
      assert buf[..k] == buf;
      NoLineEats(r, buf, env);
      NothingLeft(r, buf, env);
    } else {
      var head, tail := buf[..k + 1], buf[k + 1..];
      assert head == buf[..k] + [NEWLINE];
      LineEats(r, buf, k, env);
      OneLineTidy(r, buf[..k], env);
      OneLineStays(r, buf[..k], env);
      var q := Fold(r, head, env);
      if !q.core.closed && !q.core.binary {
        LinesEatenLeaves(q, tail, env);
      }
      LineThenLeft(r, buf, k, if q.core.closed || q.core.binary then 0 else LinesEaten(q, tail, env), env);
    }
  }

  lemma NothingLeft(r: Ref, buf: Bytes, env: Env)
    requires !Stopped(r) && r.line == [] && Tidy(r.core) && NEWLINE !in buf
    ensures LinesLeft(r, buf, 0, env)
  {
    NothingFolds(r, env);
    hide Fold, Tidy;
    assert buf[..0] == [] && buf[0..] == buf;
  }

  lemma LineThenLeft(r: Ref, buf: Bytes, k: nat, n: nat, env: Env)
    requires k < |buf| && buf[k] == NEWLINE && k + 1 + n <= |buf|
    requires var q := Fold(r, buf[..k + 1], env);
             && !q.broken && !q.core.gone && q.line == [] && (q.core.closed || Tidy(q.core))
             && if q.core.closed || q.core.binary then n == 0 else LinesLeft(q, buf[k + 1..], n, env)
    ensures LinesLeft(r, buf, k + 1 + n, env)
  {
    hide Fold, Tidy;
    var head, tail := buf[..k + 1], buf[k + 1..];
    FoldConcat(r, head, tail[..n], env);
    assert buf[..k + 1 + n] == head + tail[..n] && buf[k + 1 + n..] == tail[n..];
    assert n > 0 ==> tail[n - 1] == buf[k + n];
    NothingFolds(Fold(r, head, env), env);
    assert tail[..0] == [];
  }

  lemma OneLineTidy(r: Ref, line: Bytes, env: Env)
    requires !Stopped(r) && !r.core.binary && r.line == [] && NEWLINE !in line && Tidy(r.core)
    ensures var q := Fold(r, line + [NEWLINE], env); !q.broken && (q.core.closed || Tidy(q.core)) && (q.core.binary ==> !q.core.closed)
  {
    hide Fold, Handled, LineText, Tidy;
    LineFolds(r, line, env);
    HandledKeepsTidy(r.core, LineText(line), env, r.pos + |line|);
  }

  lemma OneLineStays(r: Ref, line: Bytes, env: Env)
    requires !Stopped(r) && !r.core.binary && r.line == [] && NEWLINE !in line
    ensures var q := Fold(r, line + [NEWLINE], env); q.line == [] && !q.core.gone
  {
    hide Fold, Handled, LineText;
    LineFolds(r, line, env);
    HandledStays(r.core, LineText(line), env, r.pos + |line|);
  }

  lemma HandledStays(c: Core, line: string, env: Env, pos: nat)
    ensures Handled(c, line, env, pos).gone == c.gone
  {
    hide Argv, Text.Strtoul, U.Begun;
  }

  lemma {:induction false} FoldKeepsTidy(r: Ref, s: Bytes, env: Env)
    requires Stopped(r) || Tidy(r.core)
    ensures Stopped(Fold(r, s, env)) || Tidy(Fold(r, s, env).core)
  {
    hide Fed, Tidy;
    if s == [] {
      NothingFolds(r, env);
    } else {
      FoldKeepsTidy(r, s[..|s| - 1], env);
      FedKeepsTidy(Fold(r, s[..|s| - 1], env), s[|s| - 1], env);
    }
  }

  // ---------------------------------------------------------------- turns and flows

  /** What a run of raw bytes, no more than are due, comes to. */
  lemma RawRun(r: Ref, data: Bytes, env: Env)
    requires !Stopped(r) && InTransfer(r.core) && 0 < |data| <= r.core.bleft
    ensures var q := Fold(r, data, env);
            if Taken(env, r.pos, |data|) < |data| then q.broken
            else if |data| < r.core.bleft then q == r.(core := Moved(r.core, data), pos := r.pos + |data|) && InTransfer(q.core)
            else q == LandedRef(r, Moved(r.core, data), |data|, env)
  {
    hide Fold, Moved, LandedRef, InTransfer;
    var n := Taken(env, r.pos, |data|);
    if n < |data| {
      RawBreaks(r, data, n, env);
    } else if |data| < r.core.bleft {
      RawFolds(r, data, env);
      MovedStays(r.core, data);
    } else {
      RawLands(r, data, env);
    }
  }

  lemma LandedStays(r: Ref, c: Core, n: nat, env: Env)
    requires n > 0
    ensures var q := LandedRef(r, c, n, env); q.line == r.line && q.core.closed == c.closed && !q.core.binary
  {
    hide U.Finished;
  }

  lemma MovedTalks(c: Core, data: Bytes)
    ensures Moved(c, data).closed == c.closed && Moved(c, data).gone == c.gone && Moved(c, data).binary == c.binary
  {
    hide U.Wrote;
  }

  /** What a turn leaves. */
  ghost predicate TurnLeft(r: Ref, all: Bytes, go: bool, e: nat, env: Env) {
    && e <= |all|
    && var q := Fold(r, all[..e], env);
       if go then
         && !q.broken && !q.core.gone && q.line == [] && (q.core.closed || Tidy(q.core)) && |all| - e < IBUF
         && (q.core.closed || if q.core.binary then all[e..] == [] || EndsLine(all[..e]) else NEWLINE !in all[e..])
       else Stopped(q) || (!q.core.binary && |all| > LINE_LIMIT && e == 0)
  }

  lemma TurnedLeaves(r: Ref, all: Bytes, env: Env)
    requires !Stopped(r) && r.line == [] && Tidy(r.core) && 0 < |all| <= IBUF
    ensures TurnLeft(r, all, Turned(r, all, env).0, Turned(r, all, env).1, env)
  {
    hide Fold, LinesEaten, InTransfer, Moved;
    if r.core.binary {
      RawTurnLeaves(r, all, env);
    } else if |all| > LINE_LIMIT {
      assert all[..0] == [];
      NothingFolds(r, env);
    } else {
      LinesEatenLeaves(r, all, env);
    }
  }

  lemma RawTurnLeaves(r: Ref, all: Bytes, env: Env)
    requires !Stopped(r) && r.line == [] && Tidy(r.core) && r.core.binary && 0 < |all| <= IBUF
    ensures TurnLeft(r, all, Turned(r, all, env).0, Turned(r, all, env).1, env)
  {
    hide Fold, LinesEaten, InTransfer, Moved, LandedRef, Turned, Tidy, TurnLeft, Taken;
    TidyIsTransfer(r.core);
    var n := Min(|all|, r.core.bleft);
    var taken, rest := all[..n], all[n..];
    var q := Fold(r, taken, env);
    RawTurned(r, all, taken, env);
    RawRun(r, taken, env);
    MovedTalks(r.core, taken);
    LandedStays(r, Moved(r.core, taken), n, env);
    FoldKeepsTidy(r, taken, env);
    if q.broken || q.core.gone {
      TurnBroke(r, all, n, env);
    } else if q.core.binary {
      TurnGoesOn(r, all, n, env);
    } else {
      LinesEatenLeaves(q, rest, env);
      TurnFinished(r, all, n, LinesEaten(q, rest, env), env);
    }
  }

  lemma TidyIsTransfer(c: Core)
    requires Tidy(c) && c.binary
    ensures InTransfer(c) && c.bleft > 0
  {}

  lemma TurnBroke(r: Ref, all: Bytes, n: nat, env: Env)
    requires n <= |all| && Stopped(Fold(r, all[..n], env))
    ensures TurnLeft(r, all, false, n, env)
  {
    hide Fold;
  }

  lemma TurnGoesOn(r: Ref, all: Bytes, n: nat, env: Env)
    requires n == |all| && !Stopped(Fold(r, all[..n], env)) && Fold(r, all[..n], env).line == [] && Tidy(Fold(r, all[..n], env).core)
    ensures TurnLeft(r, all, true, n, env)
  {
    hide Fold, Tidy;
  }

  lemma TurnFinished(r: Ref, all: Bytes, n: nat, m: nat, env: Env)
    requires 0 < n && n + m <= |all| <= IBUF
    requires !Fold(r, all[..n], env).core.binary && LinesLeft(Fold(r, all[..n], env), all[n..], m, env)
    ensures TurnLeft(r, all, true, n + m, env)
  {
    hide Fold, Tidy;
    FoldConcat(r, all[..n], all[n..][..m], env);
    assert all[..n + m] == all[..n] + all[n..][..m] && all[n + m..] == all[n..][m..];
    assert m > 0 ==> all[n..][m - 1] == all[n + m - 1];
  }

  lemma ReceivedIsFramed(r: Ref, f: Flow, stream: Bytes, cut: nat, env: Env)
    requires Framed(r, f, stream, env)
    ensures Framed(r, Received(f, stream, cut, env), stream, env)
  {
    hide Fold, Turned, Tidy, Framed, TurnLeft;
    if !Ends(f, stream) {
      FramedRuns(r, f, stream, env);
      var n := Segment(cut, IBUF - |f.buf|, |stream| - f.got);
      var all := f.buf + stream[f.got..f.got + n];
      TurnedLeaves(f.ref, all, env);
      StepIsFramed(r, f, stream, n, Turned(f.ref, all, env).0, Turned(f.ref, all, env).1, env);
    }
  }

  lemma FramedRuns(r: Ref, f: Flow, stream: Bytes, env: Env)
    requires Framed(r, f, stream, env) && !Ends(f, stream)
    ensures !Stopped(f.ref) && f.ref.line == [] && Tidy(f.ref.core)
  {
    hide Fold, Tidy;
  }

  lemma StepIsFramed(r: Ref, f: Flow, stream: Bytes, n: nat, go: bool, e: nat, env: Env)
    requires Framed(r, f, stream, env) && f.got + n <= |stream|
    requires TurnLeft(f.ref, f.buf + stream[f.got..f.got + n], go, e, env)
    ensures var all := f.buf + stream[f.got..f.got + n];
            Framed(r, Flow(Fold(f.ref, all[..e], env), all[e..], f.got + n, !go), stream, env)
  {
    hide Fold, Tidy;
    var all, m := f.buf + stream[f.got..f.got + n], f.got - |f.buf|;
    UsedThenLeft(stream, m, f.buf, f.got, n, e);
    FoldConcat(r, stream[..m], all[..e], env);
  }

  /** What is eaten joins what was used, and the rest of the buffer follows it. */
  lemma UsedThenLeft(stream: Bytes, m: nat, buf: Bytes, got: nat, n: nat, e: nat)
    requires m + |buf| == got && got + n <= |stream| && stream[..m] + buf == stream[..got] && e <= |buf| + n
    ensures var all := buf + stream[got..got + n];
            stream[..m] + all[..e] == stream[..m + e] && stream[..m + e] + all[e..] == stream[..got + n]
  {
    var all := buf + stream[got..got + n];
    assert stream[..m] + all == stream[..got + n];
    assert stream[..m + e] == stream[..got + n][..m + e];
  }

  /** Every flow, whatever the stream and the cuts. */
  lemma {:induction false} PumpedIsFramed(r: Ref, stream: Bytes, cuts: seq<nat>, env: Env)
    requires !Stopped(r) && r.line == [] && Tidy(r.core)
    ensures Framed(r, Pumped(Flow(r, [], 0, false), stream, cuts, env), stream, env)
  {
    hide Received, Framed, Tidy;
    if cuts == [] {
      StartIsFramed(r, stream, env);
    } else {
      var t := cuts[..|cuts| - 1];
      PumpedIsFramed(r, stream, t, env);
      ReceivedIsFramed(r, Pumped(Flow(r, [], 0, false), stream, t, env), stream, cuts[|cuts| - 1], env);
    }
  }

  lemma StartIsFramed(r: Ref, stream: Bytes, env: Env)
    requires !Stopped(r) && r.line == [] && Tidy(r.core)
    ensures Framed(r, Flow(r, [], 0, false), stream, env)
  {
    NothingFolds(r, env);
    hide Fold, Tidy;
    assert stream[..0] == [] && [] + [] == stream[..0];
  }

  lemma PumpedIsComplete(r: Ref, stream: Bytes, cuts: seq<nat>, env: Env)
    requires !Stopped(r) && r.line == [] && Tidy(r.core)
    ensures Complete(Pumped(Flow(r, [], 0, false), stream, cuts, env), stream, cuts)
  {
    PumpedIsFramed(r, stream, cuts, env);
    PumpedBrings(Flow(r, [], 0, false), stream, cuts, env);
    hide Pumped, Fold, Tidy;
  }

  // ---------------------------------------------------------------- a loop that starts anew

  function Shifted(g: Flow, n: nat): Flow {
    g.(got := g.got + n)
  }

  lemma SliceShifts(pre: Bytes, stream: Bytes, from: nat, to: nat)
    requires from <= to <= |stream|
    ensures (pre + stream)[|pre| + from..|pre| + to] == stream[from..to]
  {}

  lemma ReceivedShifts(g: Flow, pre: Bytes, stream: Bytes, cut: nat, env: Env)
    ensures Received(Shifted(g, |pre|), pre + stream, cut, env) == Shifted(Received(g, stream, cut, env), |pre|)
  {
    hide Fold, Turned;
    if !Ends(g, stream) {
      SliceShifts(pre, stream, g.got, g.got + Segment(cut, IBUF - |g.buf|, |stream| - g.got));
    }
  }

  /** A loop that starts with nothing in the buffer does not know what came before. */
  lemma {:induction false} PumpedShifts(h: Flow, r: Ref, pre: Bytes, a: seq<nat>, stream: Bytes, b: seq<nat>, env: Env)
    requires Pumped(h, pre + stream, a, env) == Flow(r, [], |pre|, false)
    ensures Pumped(h, pre + stream, a + b, env) == Shifted(Pumped(Flow(r, [], 0, false), stream, b, env), |pre|)
  {
    hide Received;
    if b == [] {
      assert a + b == a;
    } else {
      var t := b[..|b| - 1];
      assert (a + b)[..|a + b| - 1] == a + t;
      PumpedShifts(h, r, pre, a, stream, t, env);
      ReceivedShifts(Pumped(Flow(r, [], 0, false), stream, t, env), pre, stream, b[|b| - 1], env);
    }
  }

  // ---------------------------------------------------------------- when the cuts show

  /** The same connection, but for a line begun. */
  predicate Alike(q: Ref, d: Ref) {
    q.core == d.core && q.broken == d.broken
  }

  /** Nothing in these bytes makes the connection do anything. */
  predicate Idle(q: Ref, rest: Bytes) {
    Stopped(q) || if q.core.binary then rest == [] else NEWLINE !in rest
  }

  /** A later connection that has handled a line, or a raw byte, since q, which was in a transfer. */
  predicate Past(q: Ref, d: Ref) {
    d.broken || |d.core.lines| > |q.core.lines| || (|d.core.lines| == |q.core.lines| && (d.core.binary ==> d.core.bleft < q.core.bleft))
  }

  lemma RawKeepsLines(q: Ref, b: Byte, env: Env)
    requires !Stopped(q) && q.core.binary
    ensures var d := Fed(q, b, env); d.core.lines == q.core.lines && (d.broken || !d.core.binary || d.core.bleft < q.core.bleft)
  {
    hide U.Wrote, U.Finished;
  }

  lemma ObeyedKeepsLines(c: Core, argv: seq<string>, env: Env, pos: nat)
    requires argv != []
    ensures Obeyed(c, argv, env, pos).lines == c.lines
  {
    hide U.Begun, Text.Strtoul, Command;
  }

  lemma ExecutedKeepsLines(c: Core, line: string, env: Env, pos: nat)
    ensures Executed(c, line, env, pos).lines == c.lines
  {
    hide Argv, Command, Obeyed;
    if Argv(line) != [] {
      ObeyedKeepsLines(c, Argv(line), env, pos);
    }
  }

  lemma NewlineAddsLine(q: Ref, env: Env)
    requires !Stopped(q) && !q.core.binary
    ensures |Fed(q, NEWLINE, env).core.lines| == |q.core.lines| + 1
  {
    hide Fed, LineText, Executed;
    NewlineFeeds(q, env);
    ExecutedKeepsLines(q.core.(lines := q.core.lines + [LineText(q.line)]), LineText(q.line), env, q.pos);
  }

  lemma CharKeepsCore(q: Ref, b: Byte, env: Env)
    requires Stopped(q) || (!q.core.binary && b != NEWLINE)
    ensures Alike(q, Fed(q, b, env)) && Fed(q, b, env).core.lines == q.core.lines
  {}

  lemma FedGoesPast(q: Ref, d: Ref, b: Byte, env: Env)
    requires Past(q, d)
    ensures Past(q, Fed(d, b, env))
  {
    hide Fed;
    if Stopped(d) || (!d.core.binary && b != NEWLINE) {
      CharKeepsCore(d, b, env);
    } else if d.core.binary {
      RawKeepsLines(d, b, env);
    } else {
      NewlineAddsLine(d, env);
    }
  }

  lemma {:induction false} RawGoesPast(q: Ref, s: Bytes, env: Env)
    requires !Stopped(q) && q.core.binary && s != []
    ensures Past(q, Fold(q, s, env))
  {
    hide Fed, Past;
    var t, b := s[..|s| - 1], s[|s| - 1];
    if t == [] {
      hide Fed;
      assert Fold(q, t, env) == q;
      OneRawIsPast(q, b, env);
    } else {
      RawGoesPast(q, t, env);
      FedGoesPast(q, Fold(q, t, env), b, env);
    }
  }

  lemma OneRawIsPast(q: Ref, b: Byte, env: Env)
    requires !Stopped(q) && q.core.binary
    ensures Past(q, Fed(q, b, env))
  {
    hide Fed;
    RawKeepsLines(q, b, env);
  }

  lemma {:induction false} LinesGrow(q: Ref, s: Bytes, env: Env)
    ensures |Fold(q, s, env).core.lines| >= |q.core.lines|
  {
    hide Fed;
    if s != [] {
      var d, b := Fold(q, s[..|s| - 1], env), s[|s| - 1];
      LinesGrow(q, s[..|s| - 1], env);
      if Stopped(d) || (!d.core.binary && b != NEWLINE) {
        CharKeepsCore(d, b, env);
      } else if d.core.binary {
        RawKeepsLines(d, b, env);
      } else {
        NewlineAddsLine(d, env);
      }
    }
  }

  lemma LineShows(q: Ref, s: Bytes, env: Env)
    requires !Stopped(q) && !q.core.binary && NEWLINE in s
    ensures |Fold(q, s, env).core.lines| > |q.core.lines|
  {
    hide Fold, Fed;
    var k := NewlineAt(s);
    var a, b := s[..k], s[k + 1..];
    assert s == (a + [NEWLINE]) + b;
    LineGathers(q, a, env);
    FoldSnoc(q, a, NEWLINE, env);
    NewlineAddsLine(Fold(q, a, env), env);
    FoldConcat(q, a + [NEWLINE], b, env);
    LinesGrow(Fold(q, a + [NEWLINE], env), b, env);
  }

  /** More bytes leave the connection as it is exactly when there is nothing in them to handle. */
  lemma IdleIff(q: Ref, rest: Bytes, env: Env)
    ensures Alike(q, Fold(q, rest, env)) <==> Idle(q, rest)
  {
    hide Fold;
    if Stopped(q) {
      FoldStopped(q, rest, env);
    } else if q.core.binary {
      if rest == [] {
        NothingFolds(q, env);
      } else {
        RawGoesPast(q, rest, env);
      }
    } else if NEWLINE in rest {
      LineShows(q, rest, env);
    } else {
      LineGathers(q, rest, env);
    }
  }

  /** The loop broke on more than 8192 bytes, with a whole line among them. */
  predicate BrokeOnLimit(f: Flow) {
    f.over && !Stopped(f.ref) && |f.buf| > LINE_LIMIT && NEWLINE in f.buf
  }

  /** Raw bytes wait in the buffer for a recv that does not come. */
  predicate HoldsRaw(f: Flow) {
    !f.over && !Stopped(f.ref) && f.ref.core.binary && f.buf != []
  }

  /**
   For every stream and all cuts: the connection is as if the automaton had taken the whole stream if and only
   if what the loop left of it has nothing to handle in it. A loop that received everything misses something
   only in two ways: it broke on its limit, or raw bytes came along with their order and nothing came after them.
   */
  lemma CutsShowIff(r: Ref, stream: Bytes, cuts: seq<nat>, env: Env)
    requires !Stopped(r) && r.line == [] && Tidy(r.core)
    ensures var g := Pumped(Flow(r, [], 0, false), stream, cuts, env);
            && |g.buf| <= g.got <= |stream|
            && (Alike(g.ref, Fold(r, stream, env)) <==> Idle(g.ref, stream[g.got - |g.buf|..]))
            && (g.got == |stream| ==> (Alike(g.ref, Fold(r, stream, env)) <==> !BrokeOnLimit(g) && !HoldsRaw(g)))
            && (HoldsRaw(g) ==> EndsLine(stream[..g.got - |g.buf|]))
  {
    hide Fold, Pumped, Tidy, Alike;
    var g := Pumped(Flow(r, [], 0, false), stream, cuts, env);
    PumpedIsFramed(r, stream, cuts, env);
    var m := g.got - |g.buf|;
    assert stream == stream[..m] + stream[m..];
    FoldConcat(r, stream[..m], stream[m..], env);
    IdleIff(g.ref, stream[m..], env);
    if g.got == |stream| {
      assert stream[..g.got] == stream;
      BufferIsRest(stream, m, g.buf);
    }
  }

  lemma BufferIsRest(stream: Bytes, m: nat, buf: Bytes)
    requires m <= |stream| && stream[..m] + buf == stream
    ensures stream[m..] == buf
  {
    assert (stream[..m] + buf)[m..] == buf;
  }
}
