/**
 The management connection (src/remote.c) as an automaton that takes one byte at a time: lines are
 commands, `putconf` and `upgrade` announce a count of raw bytes that follow. What the code does with
 whole received segments is proved against it in Remote.
 */
module RemoteSpec {
  import opened Basics
  import opened Text
  import U = Upgrade

  type Bytes = seq<Byte>

  const NEWLINE: Byte := 10
  const RETURN: Byte := 13
  const LINE_MAX := 512
  const MAX_CONF := 256 * 1024

  datatype Mode = Line | PutConf | Upgrading

  /**
   What the rest of the world answers when asked after so many bytes of the stream: the password, the link
   of the running executable, and whether opening, writing a byte, closing, renaming and execv work.
   */
  datatype Env = Env(password: nat -> string, link: nat -> string, opens: nat -> bool, takes: nat -> bool,
                     closes: nat -> bool, renames: nat -> bool, execs: nat -> bool)

  /**
   The connection without its buffer: `up` holds the upgrade session and the disk, `conf` the last
   configuration installed, `lines` every command handled so far.
   */
  datatype Core = Core(authed: bool, closed: bool, gone: bool, binary: bool, bleft: nat, mode: Mode,
                       up: U.State, conf: Option<Bytes>, tmp: Option<Bytes>, lines: seq<string>)

  // ---------------------------------------------------------------- lines

  function UpToNul(b: Bytes): (s: Bytes)
    ensures |s| <= |b| && s == b[..|s|] && (|s| < |b| ==> b[|s|] == 0) && 0 !in s
  {
    if b == [] || b[0] == 0 then []
    else
      var t := UpToNul(b[1..]);
      assert b[..1 + |t|] == [b[0]] + b[1..][..|t|];
      [b[0]] + t
  }

  function Chars(b: Bytes): (s: string)
    ensures |s| == |b|
  {
    seq(|b|, i requires 0 <= i < |b| => b[i] as char)
  }

  function WithoutReturn(b: Bytes): Bytes {
    if b != [] && b[|b| - 1] == RETURN then b[..|b| - 1] else b
  }

  /** The command in the bytes before a newline. */
  function LineText(b: Bytes): string {
    Chars(UpToNul(WithoutReturn(b)))
  }

  /** The words of a command line: the 24th is all the rest. */
  function Argv(line: string): seq<string> {
    Words(line, 24)
  }

  /** The 16-byte copy of the first word. */
  function Command(w: string): string {
    if |w| > 15 then w[..15] else w
  }

  /** handle_line. */
  ghost function Handled(c: Core, line: string, env: Env, pos: nat): Core {
    Executed(c.(lines := c.lines + [line]), line, env, pos)
  }

  ghost function Executed(c: Core, line: string, env: Env, pos: nat): Core {
    var argv := Argv(line);
    if |line| >= LINE_MAX || argv == [] then c
    else
      var first := Command(argv[0]);
      if first == "auth" then
        c.(authed := c.authed || env.password(pos) == "" || (|argv| >= 2 && argv[1] == env.password(pos)))
      else if !c.authed then c
      else Obeyed(c, argv, env, pos)
  }

  /** What an authorized connection may ask for. */
  ghost function Obeyed(c: Core, argv: seq<string>, env: Env, pos: nat): Core
    requires argv != []
  {
    var first := Command(argv[0]);
    if first == "getconf" then c
    else if first == "putconf" && |argv| >= 2 then HandledPutConf(c, Strtoul(argv[1]), env, pos)
    else if first == "upgrade" && |argv| >= 3 then HandledUpgrade(c, Strtoul(argv[1]), argv[2], env, pos)
    else c.(closed := c.closed || argv[0] == "exit")
  }

  function HandledPutConf(c: Core, size: nat, env: Env, pos: nat): Core {
    if size == 0 || size > MAX_CONF || !env.opens(pos) then c
    else c.(binary := true, bleft := size, mode := PutConf, tmp := Some([]))
  }

  ghost function HandledUpgrade(c: Core, size: nat, sha: string, env: Env, pos: nat): Core {
    var (up, ok) := U.Begun(c.up, Some(sha), size, env.link(pos), env.opens(pos));
    if ok then c.(binary := true, bleft := size, mode := Upgrading, up := up) else c.(up := up)
  }

  // ---------------------------------------------------------------- raw bytes

  /** bin_write, when fwrite takes n bytes. */
  function Put(c: Core, data: Bytes, n: nat): (Core, bool)
    requires n <= |data|
  {
    match c.mode
    case Line => (c, true)
    case PutConf => (c.(tmp := Some((if c.tmp.Some? then c.tmp.value else []) + data[..n])), n == |data|)
    case Upgrading => if c.up.up.None? then (c, true) else var (up, ok) := U.Wrote(c.up, data, n); (c.(up := up), ok)
  }

  /** bin_finish. */
  function Landed(c: Core, env: Env, pos: nat): (Core, bool) {
    match c.mode
    case Line => (c, true)
    case PutConf => if env.renames(pos) then (c.(conf := c.tmp, tmp := None), true) else (c.(tmp := None), false)
    case Upgrading =>
      var (up, ok) := U.Finished(c.up, env.closes(pos), env.renames(pos));
      (c.(up := up, gone := c.gone || (ok && env.execs(pos))), ok)
  }

  // ---------------------------------------------------------------- the automaton

  /** `line` is the line begun, `pos` the bytes taken so far; `broken` says the code left its receive loop on an error. */
  datatype Ref = Ref(core: Core, line: Bytes, pos: nat, broken: bool)

  predicate Stopped(r: Ref) {
    r.broken || r.core.closed || r.core.gone
  }

  ghost function Fed(r: Ref, b: Byte, env: Env): Ref {
    if Stopped(r) then r
    else if r.core.binary then FedRaw(r, b, env)
    else if b == NEWLINE then Ref(Handled(r.core, LineText(r.line), env, r.pos), [], r.pos + 1, false)
    else r.(line := r.line + [b], pos := r.pos + 1)
  }

  function FedRaw(r: Ref, b: Byte, env: Env): Ref {
    var (c, ok) := Put(r.core, [b], if env.takes(r.pos) then 1 else 0);
    if !ok then r.(core := c, pos := r.pos + 1, broken := true)
    else if c.bleft > 1 then r.(core := c.(bleft := c.bleft - 1), pos := r.pos + 1)
    else
      var (d, landed) := Landed(c.(bleft := 0, binary := false), env, r.pos);
      Ref(d, r.line, r.pos + 1, !landed)
  }

  ghost function Fold(r: Ref, s: Bytes, env: Env): Ref {
    if s == [] then r else Fed(Fold(r, s[..|s| - 1], env), s[|s| - 1], env)
  }

  lemma {:induction false} FoldConcat(r: Ref, a: Bytes, b: Bytes, env: Env)
    ensures Fold(r, a + b, env) == Fold(Fold(r, a, env), b, env)
  {
    if b == [] {
      assert a + b == a;
    } else {
      assert (a + b)[..|a + b| - 1] == a + b[..|b| - 1];
      FoldConcat(r, a, b[..|b| - 1], env);
    }
  }

  lemma FoldSnoc(r: Ref, s: Bytes, b: Byte, env: Env)
    ensures Fold(r, s + [b], env) == Fed(Fold(r, s, env), b, env)
  {
    assert (s + [b])[..|s + [b]| - 1] == s;
  }

  lemma {:induction false} FoldStopped(r: Ref, s: Bytes, env: Env)
    requires Stopped(r)
    ensures Fold(r, s, env) == r
  {
    if s != [] {
      FoldStopped(r, s[..|s| - 1], env);
    }
  }

  /**
   The upgrade session and its disk, the configuration and the temporary file of a putconf once the connection
   has ended (the tail of conn_thread).
   */
  function Ended(c: Core): (U.State, Option<Bytes>, Option<Bytes>) {
    (if c.mode == Upgrading then U.Aborted(c.up) else c.up, c.conf, if c.mode == PutConf then None else c.tmp)
  }

  /** A connection between two commands. */
  ghost predicate Fresh(r: Ref) {
    !Stopped(r) && !r.core.binary && r.core.up.up.None? && r.core.tmp.None? && r.line == []
  }

  /** What the automaton, while it runs, knows of the stream so far: the line begun is the end of it. */
  ghost predicate Begun(r: Ref, s: Bytes, base: nat) {
    && Tidy(r.core) && r.pos == base + |s|
    && (if r.core.binary then r.line == [] else |r.line| <= |s| && r.line == s[|s| - |r.line|..] && NEWLINE !in r.line)
  }

  // ---------------------------------------------------------------- whole lines and whole runs of raw bytes

  lemma {:induction false} LineGathers(r: Ref, s: Bytes, env: Env)
    requires !Stopped(r) && !r.core.binary && NEWLINE !in s
    ensures Fold(r, s, env) == r.(line := r.line + s, pos := r.pos + |s|)
  {
    if s == [] {
      assert r.line + s == r.line;
    } else {
      var t := s[..|s| - 1];
      LineGathers(r, t, env);
      assert s == t + [s[|s| - 1]] && s[|s| - 1] in s;
      assert r.line + s == (r.line + t) + [s[|s| - 1]];
    }
  }

  lemma NewlineFeeds(r: Ref, env: Env)
    requires !Stopped(r) && !r.core.binary
    ensures Fed(r, NEWLINE, env) == Ref(Handled(r.core, LineText(r.line), env, r.pos), [], r.pos + 1, false)
  {}

  /** A complete line is handled as one. */
  lemma LineFolds(r: Ref, s: Bytes, env: Env)
    requires !Stopped(r) && !r.core.binary && r.line == [] && NEWLINE !in s
    ensures Fold(r, s + [NEWLINE], env) == Ref(Handled(r.core, LineText(s), env, r.pos + |s|), [], r.pos + |s| + 1, false)
  {
    hide Fold, Handled, LineText, FedRaw;
    LineGathers(r, s, env);
    FoldSnoc(r, s, NEWLINE, env);
    assert [] + s == s;
    NewlineFeeds(r.(line := s, pos := r.pos + |s|), env);
  }

  /** While raw bytes are due, the transfer in progress knows how many. */
  ghost predicate InTransfer(c: Core) {
    && c.binary && c.bleft > 0 && !c.closed && !c.gone && c.mode != Line
    && (c.mode == PutConf ==> c.tmp.Some? && c.up.up.None?)
    && (c.mode == Upgrading ==> U.Whole(c.up, U.File(c.up.disk, U.New(c.up.exe)))
                                && c.bleft == c.up.up.value.expected - c.up.up.value.received)
  }

  ghost predicate Tidy(c: Core) {
    (if c.binary then InTransfer(c) else c.up.up.None?) && (c.tmp.Some? ==> c.binary && c.mode == PutConf)
  }

  /** Two writes that both go through are one. */
  lemma PutTwice(c: Core, a: Bytes, b: Bytes)
    requires InTransfer(c) && |a| + |b| <= c.bleft
    ensures var (d, ok) := Put(c, a, |a|);
            ok && Put(d, b, |b|) == Put(c, a + b, |a + b|) && Put(d, b, |b|).1
  {
    if c.mode == Upgrading {
      UpgradeTwice(c.up, U.File(c.up.disk, U.New(c.up.exe)), a, b);
      hide U.Wrote, U.Whole;
    } else {
      assert a[..|a|] == a && b[..|b|] == b && (a + b)[..|a + b|] == a + b;
      assert (c.tmp.value + a) + b == c.tmp.value + (a + b);
    }
  }

  lemma UpgradeTwice(s: U.State, f: Bytes, a: Bytes, b: Bytes)
    requires U.Whole(s, f) && |f| + |a| + |b| <= s.up.value.expected
    ensures var (t, ok) := U.Wrote(s, a, |a|);
            ok && t.up.Some? && U.Wrote(t, b, |b|) == U.Wrote(s, a + b, |a + b|) && U.Wrote(t, b, |b|).1
  {
    var u := s.up.value;
    assert a[..|a|] == a && b[..|b|] == b && (a + b)[..|a + b|] == a + b;
    assert (f + a) + b == f + (a + b) && (u.hashed + a) + b == u.hashed + (a + b);
    FirstTwice(u.first, a, b);
    hide U.FirstFour;
    var k := U.New(s.exe);
    assert s.disk[k := f + a][k := f + a + b] == s.disk[k := f + (a + b)];
  }

  lemma FirstTwice(first: Bytes, a: Bytes, b: Bytes)
    ensures U.FirstFour(U.FirstFour(first, a), b) == U.FirstFour(first, a + b)
  {}

  /** A write that fails part way leaves, once the connection has ended, what the bytes that fitted leave. */
  lemma PutFails(c: Core, data: Bytes, n: nat)
    requires InTransfer(c) && n < |data| <= c.bleft
    ensures var (d, ok) := Put(c, data[..n], n);
            ok && !Put(d, [data[n]], 0).1 && !Put(c, data, n).1 && Ended(Put(d, [data[n]], 0).0) == Ended(Put(c, data, n).0)
  {
    if c.mode == Upgrading {
      UpgradeFails(c.up, U.File(c.up.disk, U.New(c.up.exe)), data, n);
      hide U.Wrote, U.Whole, U.Aborted;
    }
  }

  lemma UpgradeFails(s: U.State, f: Bytes, data: Bytes, n: nat)
    requires U.Whole(s, f) && n < |data| && |f| + |data| <= s.up.value.expected
    ensures var (t, ok) := U.Wrote(s, data[..n], n);
            && ok && t.up.Some? && !U.Wrote(t, [data[n]], 0).1 && !U.Wrote(s, data, n).1
            && U.Aborted(U.Wrote(t, [data[n]], 0).0) == U.Aborted(U.Wrote(s, data, n).0)
  {
    var k := U.New(s.exe);
    var x, y := f + data[..n], f + data[..n] + [data[n]][..0];
    assert s.disk[k := x][k := y] - {k} == s.disk[k := x] - {k};
    assert data[..n][..n] == data[..n];
  }

  /** How many of k bytes fwrite takes. */
  function Taken(env: Env, pos: nat, k: nat): (n: nat)
    ensures n <= k && (forall i :: pos <= i < pos + n ==> env.takes(i)) && (n < k ==> !env.takes(pos + n))
    decreases k
  {
    if k == 0 || !env.takes(pos) then 0 else 1 + Taken(env, pos + 1, k - 1)
  }

  /** The connection after a run of raw bytes that were all written. */
  function Moved(c: Core, data: Bytes): Core {
    Put(c, data, |data|).0.(bleft := if c.bleft >= |data| then c.bleft - |data| else 0)
  }

  lemma MovedStays(c: Core, data: Bytes)
    requires InTransfer(c) && |data| < c.bleft
    ensures InTransfer(Moved(c, data)) && Moved(c, data).bleft == c.bleft - |data| && Put(c, data, |data|).1
  {
    if c.mode == Upgrading {
      U.WroteIsWhole(c.up, U.File(c.up.disk, U.New(c.up.exe)), data, |data|);
    }
  }

  /** Raw bytes that do not end the transfer go through as one write. */
  lemma {:induction false} RawFolds(r: Ref, data: Bytes, env: Env)
    requires !Stopped(r) && InTransfer(r.core) && |data| < r.core.bleft
    requires forall i :: r.pos <= i < r.pos + |data| ==> env.takes(i)
    ensures Fold(r, data, env) == r.(core := Moved(r.core, data), pos := r.pos + |data|)
    decreases |data|
  {
    hide U.Wrote, U.Whole;
    if data == [] {
      NothingMoves(r.core);
    } else {
      var t, b := data[..|data| - 1], data[|data| - 1];
      assert data == t + [b];
      RawFolds(r, t, env);
      FoldSnoc(r, t, b, env);
      PutTwice(r.core, t, [b]);
      MovedStays(r.core, t);
      hide Fold, Put;
      RawByte(r.(core := Moved(r.core, t), pos := r.pos + |t|), b, env);
      MovedTwice(r.core, t, b);
    }
  }

  lemma NothingMoves(c: Core)
    requires InTransfer(c)
    ensures Moved(c, []) == c
  {
    if c.mode == Upgrading {
      var u, k := c.up.up.value, U.New(c.up.exe);
      assert c.up.disk[k] + [] == c.up.disk[k] && c.up.disk[k := c.up.disk[k]] == c.up.disk;
      assert u.first + [] == u.first && u.hashed + [] == u.hashed;
      assert U.Wrote(c.up, [], 0).0 == c.up;
    } else {
      assert c.tmp.value + [] == c.tmp.value;
    }
  }

  lemma MovedTwice(c: Core, t: Bytes, b: Byte)
    requires InTransfer(c) && |t| + 1 <= c.bleft
    ensures var d := Put(Moved(c, t), [b], 1);
            d.1 && d.0.(bleft := c.bleft - |t| - 1) == Moved(c, t + [b]) && d.0.bleft == c.bleft - |t|
  {
    hide U.Wrote, U.Whole;
    PutTwice(c, t, [b]);
  }

  lemma RawByte(r: Ref, b: Byte, env: Env)
    requires !Stopped(r) && r.core.binary && env.takes(r.pos) && Put(r.core, [b], 1).1
    ensures var c := Put(r.core, [b], 1).0;
            Fed(r, b, env) == if c.bleft > 1 then r.(core := c.(bleft := c.bleft - 1), pos := r.pos + 1)
                              else var (d, landed) := Landed(c.(bleft := 0, binary := false), env, r.pos);
                                   Ref(d, r.line, r.pos + 1, !landed)
  {}

  /** The raw bytes that end the transfer go through as one write and its finish. */
  lemma RawLands(r: Ref, data: Bytes, env: Env)
    requires !Stopped(r) && InTransfer(r.core) && |data| == r.core.bleft
    requires forall i :: r.pos <= i < r.pos + |data| ==> env.takes(i)
    ensures Fold(r, data, env) == LandedRef(r, Moved(r.core, data), |data|, env)
  {
    hide U.Wrote, U.Whole, Landed, Fold, Put;
    var t, b := data[..|data| - 1], data[|data| - 1];
    var m := Moved(r.core, t);
    RawFolds(r, t, env);
    FoldSnoc(r, t, b, env);
    MovedStays(r.core, t);
    MovedTwice(r.core, t, b);
    hide Moved;
    assert data == t + [b];
    var q := r.(core := m, pos := r.pos + |t|);
    assert Fold(r, data, env) == Fed(q, b, env);
    RawByte(q, b, env);
  }

  function LandedRef(r: Ref, moved: Core, n: nat, env: Env): Ref
    requires n > 0
  {
    var (d, landed) := Landed(moved.(bleft := 0, binary := false), env, r.pos + n - 1);
    Ref(d, r.line, r.pos + n, !landed)
  }

  /** A byte that cannot be written breaks the connection. */
  lemma RawBreaks(r: Ref, data: Bytes, n: nat, env: Env)
    requires !Stopped(r) && InTransfer(r.core) && n < |data| <= r.core.bleft
    requires (forall i :: r.pos <= i < r.pos + n ==> env.takes(i)) && !env.takes(r.pos + n)
    ensures Fold(r, data, env).broken && Ended(Fold(r, data, env).core) == Ended(Put(r.core, data, n).0)
    ensures SameTalk(Fold(r, data, env).core, r.core)
  {
    hide U.Wrote, U.Whole, Fold, Ended, Put, Moved;
    var head, rest := data[..n + 1], data[n + 1..];
    RawBreaksAt(r, data, n, env);
    FoldConcat(r, head, rest, env);
    assert data == head + rest;
    FoldStopped(Fold(r, head, env), rest, env);
  }

  lemma RawBreaksAt(r: Ref, data: Bytes, n: nat, env: Env)
    requires !Stopped(r) && InTransfer(r.core) && n < |data| <= r.core.bleft
    requires (forall i :: r.pos <= i < r.pos + n ==> env.takes(i)) && !env.takes(r.pos + n)
    ensures Fold(r, data[..n + 1], env).broken && Ended(Fold(r, data[..n + 1], env).core) == Ended(Put(r.core, data, n).0)
    ensures SameTalk(Fold(r, data[..n + 1], env).core, r.core)
  {
    hide U.Wrote, U.Whole, Fold, Ended, Put;
    var t, b := data[..n], data[n];
    assert data[..n + 1] == t + [b];
    RawFolds(r, t, env);
    FoldSnoc(r, t, b, env);
    PutFails(r.core, data, n);
    MovedStays(r.core, t);
    EndedIgnores(Put(r.core, t, n).0, r.core.bleft - n, [b]);
    assert Moved(r.core, t) == Put(r.core, t, n).0.(bleft := r.core.bleft - n);
    PutIsSilent(r.core, t, n);
    hide Moved;
    RawFails(r.(core := Moved(r.core, t), pos := r.pos + n), b, env);
    PutIsSilent(Moved(r.core, t), [b], 0);
  }

  /** The same commands, and neither or both replaced by a new program. */
  predicate SameTalk(c: Core, d: Core) {
    c.lines == d.lines && c.gone == d.gone
  }

  lemma PutIsSilent(c: Core, data: Bytes, n: nat)
    requires n <= |data|
    ensures SameTalk(Put(c, data, n).0, c)
  {
    hide U.Wrote;
  }

  lemma RawFails(r: Ref, b: Byte, env: Env)
    requires !Stopped(r) && r.core.binary && !env.takes(r.pos) && !Put(r.core, [b], 0).1
    ensures Fed(r, b, env) == r.(core := Put(r.core, [b], 0).0, pos := r.pos + 1, broken := true)
  {}

  lemma EndedIgnores(c: Core, n: nat, data: Bytes)
    ensures Ended(Put(c.(bleft := n), data, 0).0) == Ended(Put(c, data, 0).0)
    ensures Put(c.(bleft := n), data, 0).1 == Put(c, data, 0).1
  {}

  /** The newest byte keeps the books in order. */
  lemma FedKeepsTidy(r: Ref, b: Byte, env: Env)
    requires Stopped(r) || Tidy(r.core)
    ensures Stopped(Fed(r, b, env)) || Tidy(Fed(r, b, env).core)
  {
    if !Stopped(r) && r.core.binary {
      hide Handled;
      if r.core.mode == Upgrading {
        var f, n := U.File(r.core.up.disk, U.New(r.core.up.exe)), if env.takes(r.pos) then 1 else 0;
        U.WroteIsWhole(r.core.up, f, [b], n);
        if n == 1 {
          U.FinishInstallsIff(U.Wrote(r.core.up, [b], 1).0, f + [b], env.closes(r.pos), env.renames(r.pos));
        }
      }
    } else if !Stopped(r) && b == NEWLINE {
      HandledKeepsTidy(r.core, LineText(r.line), env, r.pos);
    }
  }

  lemma HandledKeepsTidy(c: Core, line: string, env: Env, pos: nat)
    requires Tidy(c) && !c.binary && !c.closed && !c.gone
    ensures var d := Handled(c, line, env, pos); (d.closed || Tidy(d)) && !d.gone && (d.binary ==> !d.closed)
  {
    hide Argv;
    var argv := Argv(line);
    if |argv| >= 3 {
      U.BegunIsWhole(c.up, Some(argv[2]), Strtoul(argv[1]), env.link(pos), env.opens(pos));
    }
  }
}
