/**
 A configuration sent with `putconf`, from the wire to the file it replaces: what any byte stream on the
 management connection can make of the configuration, and what one accepted order with its bytes makes of it.
 */
module ConfigUpload {
  import opened Basics
  import opened Text
  import opened RemoteSpec
  import opened Cuts
  import opened Pump
  import opened Delivery
  import U = Upgrade

  /** The line orders a configuration of n bytes. */
  ghost predicate Orders(line: string, n: nat) {
    var argv := Argv(line);
    |line| < LINE_MAX && |argv| >= 2 && argv[0] == "putconf" && Strtoul(argv[1]) == n && 0 < n <= MAX_CONF
  }

  /** An accepted order for the bytes f, on an authorized connection that waits for a command. */
  ghost predicate PutOrder(r: Ref, line: Bytes, f: Bytes, env: Env) {
    Fresh(r) && r.core.authed && NEWLINE !in line && Orders(LineText(line), |f|) && env.opens(r.pos + |line|)
  }

  /** Every byte can be written, and the file renamed. */
  ghost predicate Lands(r: Ref, line: Bytes, f: Bytes, env: Env) {
    Takes(env, r.pos + |line| + 1, |f|) && env.renames(r.pos + |line| + |f|)
  }

  // ---------------------------------------------------------------- one order

  lemma CommandIs(w: string, name: string)
    requires |name| < 15
    ensures Command(w) == name <==> w == name
  {}

  lemma OrderRuns(c: Core, line: string, n: nat, env: Env, pos: nat)
    requires c.authed && Orders(line, n) && env.opens(pos)
    ensures Handled(c, line, env, pos) == c.(lines := c.lines + [line], binary := true, bleft := n, mode := PutConf, tmp := Some([]))
  {
    hide Argv, Strtoul;
    CommandIs(Argv(line)[0], "putconf");
  }

  /** The connection behind the order. */
  lemma OrderFolds(r: Ref, line: Bytes, f: Bytes, env: Env)
    requires PutOrder(r, line, f, env)
    ensures var q := Fold(r, line + [NEWLINE], env);
            && Moving(q, |f|, env, r.pos + |line| + 1) && q.core.mode == PutConf && q.core.tmp == Some([])
            && q.core.conf == r.core.conf && q.core.up == r.core.up && q.core.authed == r.core.authed
  {
    hide Fold, Handled, LineText, Orders;
    LineFolds(r, line, env);
    hide Fresh;
    OrderSize(LineText(line), |f|);
    OrderRuns(r.core, LineText(line), |f|, env, r.pos + |line|);
    FreshRuns(r);
  }

  lemma OrderSize(line: string, n: nat)
    requires Orders(line, n)
    ensures n > 0
  {}

  lemma FreshRuns(r: Ref)
    requires Fresh(r)
    ensures !Stopped(r) && !r.core.closed && !r.core.gone && r.core.up.up.None?
  {}

  /** The file and the configuration after the raw bytes. */
  lemma BytesFold(q: Ref, f: Bytes, env: Env)
    requires Moving(q, |f|, env, q.pos) && q.core.mode == PutConf && q.core.tmp == Some([])
    ensures var t := Fold(q, f, env);
            var all, moves := Takes(env, q.pos, |f|), env.renames(q.pos + |f| - 1);
            && t.core.conf == (if all && moves then Some(f) else q.core.conf) && t.broken == !(all && moves)
            && (all ==> t.core.tmp.None? && !t.core.binary) && Ended(t.core).2.None? && Ended(t.core).0 == q.core.up
  {
    hide Fold;
    var n := Taken(env, q.pos, |f|);
    if n < |f| {
      RawBreaks(q, f, n, env);
      assert !env.takes(q.pos + n);
    } else {
      RawLands(q, f, env);
      assert [] + f == f && f[..|f|] == f;
    }
  }

  /**
   An accepted order followed by its bytes ends with exactly those bytes as the configuration if and only if
   every byte can be written and the file renamed; otherwise the connection breaks and the configuration is
   what it was. Refused at its end, the transfer leaves no temporary file, and no upgrade or file is touched.
   */
  lemma PutInstallsIff(r: Ref, line: Bytes, f: Bytes, env: Env)
    requires PutOrder(r, line, f, env)
    ensures var q := Fold(r, line + [NEWLINE] + f, env);
            && q.core.conf == (if Lands(r, line, f, env) then Some(f) else r.core.conf) && q.broken == !Lands(r, line, f, env)
            && (Takes(env, r.pos + |line| + 1, |f|) ==> q.core.tmp.None? && !q.core.binary)
            && Ended(q.core) == (r.core.up, q.core.conf, None)
  {
    hide Fold, PutOrder, Takes, Moving, U.Aborted;
    FoldConcat(r, line + [NEWLINE], f, env);
    OrderFolds(r, line, f, env);
    assert Moving(Fold(r, line + [NEWLINE], env), |f|, env, r.pos + |line| + 1);
    MovingPos(Fold(r, line + [NEWLINE], env), |f|, env, r.pos + |line| + 1);
    BytesFold(Fold(r, line + [NEWLINE], env), f, env);
  }

  lemma MovingPos(q: Ref, due: nat, env: Env, pos: nat)
    requires Moving(q, due, env, pos)
    ensures q.pos == pos && Moving(q, due, env, q.pos) && 0 < due == q.core.bleft && !Stopped(q)
  {}

  // ---------------------------------------------------------------- an order, as far as it comes

  lemma PartFolds(q: Ref, data: Bytes, due: nat, env: Env)
    requires Moving(q, due, env, q.pos) && q.core.mode == PutConf && |data| < due
    ensures var t := Fold(q, data, env); Ended(t.core) == (q.core.up, q.core.conf, None)
  {
    hide Fold;
    var n := Taken(env, q.pos, |data|);
    if n < |data| {
      RawBreaks(q, data, n, env);
    } else {
      RawFolds(q, data, env);
    }
  }

  lemma PutPart(r: Ref, line: Bytes, f: Bytes, used: Bytes, env: Env)
    requires PutOrder(r, line, f, env) && used <= line + [NEWLINE] + f && used != line + [NEWLINE] + f
    ensures Ended(Fold(r, used, env).core) == (Ended(r.core).0, r.core.conf, None)
  {
    hide Fold, U.Aborted, Moving, Orders;
    if |used| <= |line| {
      assert used == line[..|used|];
      LineGathers(r, used, env);
    } else {
      var q, data := Fold(r, line + [NEWLINE], env), used[|line| + 1..];
      assert used == line + [NEWLINE] + data;
      FoldConcat(r, line + [NEWLINE], data, env);
      OrderFolds(r, line, f, env);
      MovingPos(q, |f|, env, r.pos + |line| + 1);
      PartFolds(q, data, |f|, env);
      NothingAborts(r.core);
    }
  }

  lemma NothingAborts(c: Core)
    requires c.up.up.None?
    ensures Ended(c).0 == c.up
  {}

  /**
   The code's receive loop, for every way the order and its bytes are cut: the configuration is exactly those
   bytes if and only if the cuts deliver them, every byte can be written and the file renamed. In every other
   case it is what it was; no temporary file stays, and no upgrade or other file is touched.
   */
  lemma SegmentedPutIff(r: Ref, line: Bytes, f: Bytes, cuts: seq<nat>, env: Env)
    requires PutOrder(r, line, f, env)
    ensures var stream := line + [NEWLINE] + f;
            var g := Pumped(Flow(r, [], 0, false), stream, cuts, env);
            Ended(g.ref.core) ==
              (r.core.up, if Delivers(cuts, |line|, |stream|) && Lands(r, line, f, env) then Some(f) else r.core.conf, None)
  {
    hide Fold, Pumped, Delivers, Orders, Takes, Ended, Moving, PutOrder, Ordered, Framed;
    var stream := line + [NEWLINE] + f;
    var g := Pumped(Flow(r, [], 0, false), stream, cuts, env);
    PutIsOrdered(r, line, f, env);
    PumpedIsFramed(r, stream, cuts, env);
    var used := Used(r, g, stream, env);
    if Takes(env, r.pos + |line| + 1, |f|) {
      DeliveredIff(r, line, f, cuts, env);
    }
    if used == stream {
      PutInstallsIff(r, line, f, env);
      EndedConf(g.ref.core);
    } else {
      PutPart(r, line, f, used, env);
      NothingAborts(r.core);
    }
  }

  lemma EndedConf(c: Core)
    ensures Ended(c).1 == c.conf
  {}

  lemma PutIsOrdered(r: Ref, line: Bytes, f: Bytes, env: Env)
    requires PutOrder(r, line, f, env)
    ensures !Stopped(r) && r.line == [] && Tidy(r.core) && r.core.up.up.None? && Ordered(r, line, |f|, env)
  {
    hide Fold, Orders, LineText, Moving;
    OrderFolds(r, line, f, env);
    MovingPos(Fold(r, line + [NEWLINE], env), |f|, env, r.pos + |line| + 1);
  }

  lemma Used(r: Ref, g: Flow, stream: Bytes, env: Env) returns (used: Bytes)
    requires Framed(r, g, stream, env)
    ensures used <= stream && g.ref == Fold(r, used, env)
    ensures |g.buf| <= g.got && (used == stream <==> g.got - |g.buf| == |stream|)
  {
    hide Fold;
    used := stream[..g.got - |g.buf|];
  }

  /** The bytes before the order are served, and the connection, authorized, waits for a command. */
  ghost predicate PutServed(r: Ref, stream: Bytes, pre: Bytes, a: seq<nat>, line: Bytes, f: Bytes, env: Env) {
    var q := Fold(r, pre, env);
    Pumped(Flow(r, [], 0, false), stream, a, env) == Flow(q, [], |pre|, false) && PutOrder(q, line, f, env)
  }

  /** The configuration once an order sent like this has come to its end. */
  ghost function ConfAfter(r: Ref, pre: Bytes, line: Bytes, f: Bytes, b: seq<nat>, env: Env): Option<Bytes> {
    var q := Fold(r, pre, env);
    if Delivers(b, |line|, |line| + 1 + |f|) && Lands(q, line, f, env) then Some(f) else q.core.conf
  }

  lemma LaterPutIff(r: Ref, pre: Bytes, a: seq<nat>, line: Bytes, f: Bytes, b: seq<nat>, env: Env)
    requires PutServed(r, pre + (line + [NEWLINE] + f), pre, a, line, f, env)
    ensures var g := Pumped(Flow(r, [], 0, false), pre + (line + [NEWLINE] + f), a + b, env);
            Ended(g.ref.core) == (Fold(r, pre, env).core.up, ConfAfter(r, pre, line, f, b, env), None)
  {
    hide Fold, Pumped, PutOrder, Delivers, Ended, Lands;
    var q := Fold(r, pre, env);
    PumpedShifts(Flow(r, [], 0, false), q, pre, a, line + [NEWLINE] + f, b, env);
    SegmentedPutIff(q, line, f, b, env);
  }

  // ---------------------------------------------------------------- every stream

  /** The line that ends with the newline before position i of the stream orders n bytes. */
  ghost predicate OrderedAt(s: Bytes, i: nat, n: nat) {
    0 < i <= |s| && s[i - 1] == NEWLINE && exists j: nat :: OrderAt(s, j, i, n)
  }

  ghost predicate OrderAt(s: Bytes, j: nat, i: nat, n: nat) {
    j < i <= |s| && NEWLINE !in s[j..i - 1] && Orders(LineText(s[j..i - 1]), n)
  }

  /**
   f is, byte for byte, what follows a `putconf` line for as many bytes in the stream, the file could be opened
   at that line, every byte written and the file renamed at the last. The stream starts at position base.
   */
  ghost predicate PutIn(s: Bytes, f: Bytes, base: nat, env: Env) {
    exists i: nat :: PutAt(s, i, f, base, env)
  }

  ghost predicate PutAt(s: Bytes, i: nat, f: Bytes, base: nat, env: Env) {
    && OrderedAt(s, i, |f|) && i + |f| <= |s| && f == s[i..i + |f|]
    && env.opens(base + i - 1) && Takes(env, base + i, |f|) && env.renames(base + i + |f| - 1)
  }

  /** What the automaton knows of a transfer in progress. */
  ghost predicate Tracked(r: Ref, s: Bytes, base: nat, env: Env) {
    Stopped(r) ||
    (&& Begun(r, s, base)
     && (r.core.binary && r.core.mode == PutConf ==>
           var t := r.core.tmp.value;
           var i := |s| - |t|;
           && i >= 0 && t == s[i..] && OrderedAt(s, i, |t| + r.core.bleft) && env.opens(base + i - 1)
           && Takes(env, base + i, |t|)))
  }

  lemma StillOrdered(s: Bytes, t: Bytes, i: nat, n: nat)
    requires OrderedAt(s, i, n)
    ensures OrderedAt(s + t, i, n)
  {
    hide LineText, Orders;
    var j: nat :| OrderAt(s, j, i, n);
    assert (s + t)[j..i - 1] == s[j..i - 1];
    assert OrderAt(s + t, j, i, n);
    assert (s + t)[i - 1] == s[i - 1];
  }

  lemma StillPut(s: Bytes, t: Bytes, f: Bytes, base: nat, env: Env)
    requires PutIn(s, f, base, env)
    ensures PutIn(s + t, f, base, env)
  {
    hide OrderedAt, Takes;
    var i: nat :| PutAt(s, i, f, base, env);
    StillOrdered(s, t, i, |f|);
    assert (s + t)[i..i + |f|] == s[i..i + |f|];
    assert PutAt(s + t, i, f, base, env);
  }

  lemma ConfFeeds(r: Ref, b: Byte, env: Env)
    requires !Stopped(r) && InTransfer(r.core) && r.core.mode == PutConf
    ensures var q, t := Fed(r, b, env), r.core.tmp.value + [b];
            && q.line == r.line && q.pos == r.pos + 1
            && (if !env.takes(r.pos) then q.broken && q.core.conf == r.core.conf
                else if r.core.bleft > 1 then q.core == r.core.(tmp := Some(t), bleft := r.core.bleft - 1) && !q.broken
                else if env.renames(r.pos) then
                  q.core == r.core.(tmp := None, bleft := 0, binary := false, conf := Some(t)) && !q.broken
                else q.broken && q.core.conf == r.core.conf)
  {
    assert [b][..1] == [b];
  }

  /** One more byte of a configuration. */
  lemma ConfByte(r: Ref, s: Bytes, b: Byte, env: Env, base: nat)
    requires Tracked(r, s, base, env) && !Stopped(r) && r.core.binary && r.core.mode == PutConf
    ensures var q := Fed(r, b, env);
            Tracked(q, s + [b], base, env)
            && (q.core.conf == r.core.conf || (q.core.conf.Some? && PutIn(s + [b], q.core.conf.value, base, env)))
  {
    hide OrderedAt, Fed;
    var t, u := r.core.tmp.value, s + [b];
    var i := |s| - |t|;
    ConfFeeds(r, b, env);
    assert u[i..] == t + [b];
    StillOrdered(s, [b], i, |t| + r.core.bleft);
    if env.takes(r.pos) && r.core.bleft == 1 && env.renames(r.pos) {
      assert u[i..i + |t + [b]|] == t + [b];
      assert PutAt(u, i, t + [b], base, env);
    }
  }

  /** One more byte of an upgrade. */
  lemma UpgradeByte(r: Ref, s: Bytes, b: Byte, env: Env, base: nat)
    requires Tracked(r, s, base, env) && !Stopped(r) && r.core.binary && r.core.mode == Upgrading
    ensures var q := Fed(r, b, env); Tracked(q, s + [b], base, env) && q.core.conf == r.core.conf
  {
    hide OrderedAt, Fed, Tidy;
    FedKeepsTidy(r, b, env);
    UpgradeFeeds(r, b, env);
  }

  lemma UpgradeFeeds(r: Ref, b: Byte, env: Env)
    requires !Stopped(r) && r.core.binary && r.core.mode == Upgrading
    ensures var q := Fed(r, b, env);
            q.core.conf == r.core.conf && q.core.mode == Upgrading && q.line == r.line && q.pos == r.pos + 1
  {
    hide U.Wrote, U.Finished;
  }

  /** One more byte of a line. */
  lemma LineByte(r: Ref, s: Bytes, b: Byte, env: Env, base: nat)
    requires Tracked(r, s, base, env) && !Stopped(r) && !r.core.binary
    ensures var q := Fed(r, b, env); Tracked(q, s + [b], base, env) && q.core.conf == r.core.conf
  {
    hide Handled, LineText, OrderedAt, Tidy, FedRaw;
    FedKeepsTidy(r, b, env);
    if b == NEWLINE {
      NewlineFeeds(r, env);
      CommandRuns(r.core, LineText(r.line), env, r.pos);
      OrderEnds(r, s, env, base);
      assert (s + [b])[|s| + 1..] == [];
    } else {
      assert (s + [b])[|s + [b]| - |r.line + [b]|..] == r.line + [b];
    }
  }

  lemma OrderEnds(r: Ref, s: Bytes, env: Env, base: nat)
    requires Begun(r, s, base) && !Stopped(r) && !r.core.binary
    ensures var d := Handled(r.core, LineText(r.line), env, r.pos);
            d.binary && d.mode == PutConf ==>
              d.tmp == Some([]) && OrderedAt(s + [NEWLINE], |s| + 1, d.bleft) && env.opens(base + |s|)
  {
    hide Handled, LineText, Orders, Tidy;
    CommandRuns(r.core, LineText(r.line), env, r.pos);
    var t, j, d := s + [NEWLINE], |s| - |r.line|, Handled(r.core, LineText(r.line), env, r.pos);
    assert t[j..|s|] == r.line;
    if d.binary && d.mode == PutConf {
      assert OrderAt(t, j, |t|, d.bleft);
    }
  }

  lemma CommandRuns(c: Core, line: string, env: Env, pos: nat)
    requires !c.binary
    ensures var d := Handled(c, line, env, pos);
            d.conf == c.conf && (d.binary && d.mode == PutConf ==> d.tmp == Some([]) && Orders(line, d.bleft) && env.opens(pos))
  {
    hide U.Begun, Argv, Strtoul, Command;
    var argv := Argv(line);
    if argv != [] {
      CommandIs(argv[0], "putconf");
    }
  }

  lemma {:induction false} StreamIsTracked(r: Ref, s: Bytes, env: Env)
    requires Fresh(r)
    ensures var q := Fold(r, s, env);
            Tracked(q, s, r.pos, env) && (q.core.conf == r.core.conf || (q.core.conf.Some? && PutIn(s, q.core.conf.value, r.pos, env)))
  {
    hide Tracked, PutIn, Fed;
    if s == [] {
      NothingTracked(r, env);
    } else {
      var t, b := s[..|s| - 1], s[|s| - 1];
      StreamIsTracked(r, t, env);
      var q := Fold(r, t, env);
      assert s == t + [b];
      if Stopped(q) {
        FedStopped(q, b, env, s, r.pos);
      } else {
        OneByte(q, t, b, env, r.pos);
      }
      if q.core.conf.Some? && PutIn(t, q.core.conf.value, r.pos, env) {
        StillPut(t, [b], q.core.conf.value, r.pos, env);
      }
    }
  }

  lemma OneByte(r: Ref, s: Bytes, b: Byte, env: Env, base: nat)
    requires Tracked(r, s, base, env) && !Stopped(r)
    ensures var q := Fed(r, b, env);
            Tracked(q, s + [b], base, env)
            && (q.core.conf == r.core.conf || (q.core.conf.Some? && PutIn(s + [b], q.core.conf.value, base, env)))
  {
    hide PutIn, Fed, OrderedAt;
    if !r.core.binary {
      LineByte(r, s, b, env, base);
    } else if r.core.mode == PutConf {
      ConfByte(r, s, b, env, base);
    } else {
      UpgradeByte(r, s, b, env, base);
    }
  }

  lemma NothingTracked(r: Ref, env: Env)
    requires Fresh(r)
    ensures Tracked(r, [], r.pos, env)
  {}

  lemma FedStopped(r: Ref, b: Byte, env: Env, s: Bytes, base: nat)
    requires Stopped(r)
    ensures Fed(r, b, env) == r && Tracked(r, s, base, env)
  {}

  /** A temporary file is that of a putconf in progress, or of one that broke off. */
  ghost predicate Temporary(r: Ref) {
    (Stopped(r) || Tidy(r.core)) && (r.core.tmp.Some? ==> r.core.mode == PutConf)
  }

  lemma FedKeepsTemporary(r: Ref, b: Byte, env: Env)
    requires Temporary(r)
    ensures Temporary(Fed(r, b, env))
  {
    hide Handled, U.Wrote, U.Finished, U.Whole;
    FedKeepsTidy(r, b, env);
    if !Stopped(r) && !r.core.binary && b == NEWLINE {
      HandledTemporary(r.core, LineText(r.line), env, r.pos);
    }
  }

  lemma HandledTemporary(c: Core, line: string, env: Env, pos: nat)
    requires c.tmp.None?
    ensures var d := Handled(c, line, env, pos); d.tmp.Some? ==> d.mode == PutConf
  {
    hide U.Begun, Argv, Strtoul, Command;
  }

  lemma {:induction false} StreamIsTemporary(r: Ref, s: Bytes, env: Env)
    requires Temporary(r)
    ensures Temporary(Fold(r, s, env))
  {
    hide Temporary, Fed;
    if s != [] {
      StreamIsTemporary(r, s[..|s| - 1], env);
      FedKeepsTemporary(Fold(r, s[..|s| - 1], env), s[|s| - 1], env);
    }
  }

  /**
   Whatever bytes a connection sends, the configuration is at the end what it was at the start, or exactly the
   bytes behind a `putconf` line of the stream that announced as many; and no temporary file is left.
   */
  lemma OnlyPutsInstall(r: Ref, s: Bytes, env: Env)
    requires Fresh(r)
    ensures var (_, conf, tmp) := Ended(Fold(r, s, env).core);
            (conf == r.core.conf || (conf.Some? && PutIn(s, conf.value, r.pos, env))) && tmp.None?
  {
    hide PutIn, Fold;
    StreamIsTracked(r, s, env);
    StreamIsTemporary(r, s, env);
  }
}
