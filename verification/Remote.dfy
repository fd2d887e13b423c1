/** The connection of src/remote.c: a receive buffer, the line protocol, and raw transfers, on whatever segments recv delivers. */
module Remote {
  import opened Basics
  import opened Cuts
  import opened Pump
  import opened RemoteSpec
  import opened Text
  import U = Upgrade

  // ---------------------------------------------------------------- C strings in the buffer

  lemma {:induction false} NulStops(x: Bytes, y: Bytes)
    ensures UpToNul(x + [0] + y) == UpToNul(x)
  {
    if x == [] {
      assert (x + [0] + y)[0] == 0;
    } else {
      assert (x + [0] + y)[1..] == x[1..] + [0] + y;
      NulStops(x[1..], y);
    }
  }

  /** The line process_lines terminates in place: the newline becomes a NUL, and so does a return before it. */
  function Terminated(b: Bytes): (t: Bytes)
    ensures |t| == |b| + 1
  {
    if b != [] && b[|b| - 1] == RETURN then b[..|b| - 1] + [0, 0] else b + [0]
  }

  lemma TerminatedReads(b: Bytes)
    ensures UpToNul(Terminated(b)) == UpToNul(WithoutReturn(b))
  {
    var w := WithoutReturn(b);
    if w == b {
      NulStops(w, []);
      assert w + [0] + [] == b + [0];
    } else {
      NulStops(w, [0]);
      assert w + [0] + [0] == w + [0, 0];
    }
  }

  // ---------------------------------------------------------------- the connection

  /** A buffer while the bytes from n on move to its front: i of them have. */
  ghost predicate Slid(c: Bytes, was: Bytes, n: nat, i: nat) {
    n + i <= |was| <= |c| && c[..i] == was[n..n + i] && c[n + i..|was|] == was[n + i..]
  }

  lemma SlidesOn(c: Bytes, was: Bytes, n: nat, i: nat)
    requires Slid(c, was, n, i) && n + i < |was|
    ensures i < n + i + 1 <= |c| && Slid(c[i := c[n + i]], was, n, i + 1)
  {
    assert c[n + i] == c[n + i..|was|][0] == was[n + i];
    assert was[n..n + (i + 1)] == was[n..n + i] + [was[n + i]];
    assert c[i := c[n + i]][..i + 1] == c[..i] + [c[n + i]];
    assert c[i := c[n + i]][n + (i + 1)..|was|] == c[n + i..|was|][1..];
  }

  lemma SlideStarts(c: Bytes, len: nat, was: Bytes, n: nat)
    requires n <= len <= |c| && was == c[..len]
    ensures Slid(c, was, n, 0)
  {}

  lemma SlideEnds(c: Bytes, was: Bytes, n: nat)
    requires n <= |was| && Slid(c, was, n, |was| - n)
    ensures |was| <= |c| && c[..|was| - n] == was[n..]
  {}

  class Conn {
    var authed: bool
    var closed: bool
    var gone: bool
    const ibuf: array<Byte>
    var ilen: nat
    var binary: bool
    var bleft: nat
    var mode: Mode
    var tmp: Option<Bytes>
    var conf: Option<Bytes>
    const session: U.Session
    /** Every command handled so far. */
    ghost var lines: seq<string>
    /** How many bytes of the stream were taken: what the environment is asked by. */
    var pos: nat

    ghost predicate Valid()
      reads this, session, session.hc, session.hc.state, session.hc.buf, session.first4
    {
      ibuf.Length == IBUF && ilen <= IBUF && session.Valid() && ibuf !in session.Parts()
    }

    ghost function View(): Core
      reads this, session, session.hc, session.first4
    {
      Core(authed, closed, gone, binary, bleft, mode, session.View(), conf, tmp, lines)
    }

    /** The state of the automaton after the bytes taken so far. */
    ghost function Now(): Ref
      reads this, session, session.hc, session.first4
    {
      Ref(View(), [], pos, false)
    }

    ghost function Pending(): Bytes
      reads this, ibuf
      requires ilen <= ibuf.Length
    {
      ibuf[..ilen]
    }

    constructor (disk: U.Disk, authed: bool)
      ensures Valid() && Pending() == [] && fresh(ibuf) && fresh(session) && fresh(session.hc)
      ensures fresh(session.hc.state) && fresh(session.hc.buf) && fresh(session.first4)
      ensures Now() == Ref(Core(authed, false, false, false, 0, Line, U.State(disk, "", None), None, None, []), [], 0, false)
    {
      this.authed := authed;
      closed, gone, ilen, binary, bleft, mode, tmp, conf, lines, pos := false, false, 0, false, 0, Line, None, None, [], 0;
      ibuf := new Byte[IBUF](_ => 0);
      session := new U.Session(disk);
    }

    // ---- commands

    /** handle_line splits a copy of the line. */
    method Split(line: string) returns (argv: seq<string>)
      requires NUL !in line
      ensures argv == Argv(line)
    {
      argv := SplitCopy(line, 24);
    }

    method OpenConf(size: nat, env: Env, at: nat)
      requires Valid()
      modifies this`binary, this`bleft, this`mode, this`tmp
      ensures Valid() && View() == HandledPutConf(old(View()), size, env, at)
    {
      if size == 0 || size > MAX_CONF {
        return;
      }
      if !env.opens(at) {
        return;
      }
      tmp := Some([]);
      binary, bleft, mode := true, size, PutConf;
    }

    method OpenUpgrade(size: nat, sha: string, env: Env, at: nat)
      requires Valid()
      modifies this`binary, this`bleft, this`mode, session, session.hc, session.hc.state
      ensures Valid() && View() == HandledUpgrade(old(View()), size, sha, env, at)
    {
      hide U.Begun;
      var ok := session.Begin(Some(sha), size, env.link(at), env.opens(at));
      if ok {
        binary, bleft, mode := true, size, Upgrading;
      }
    }

    /** handle_line. */
    method HandleLine(line: string, env: Env, at: nat)
      requires Valid() && NUL !in line
      modifies this`authed, this`closed, this`binary, this`bleft, this`mode, this`tmp, this`lines
      modifies session, session.hc, session.hc.state
      ensures Valid() && View() == Handled(old(View()), line, env, at)
    {
      hide Argv, Obeyed, U.Session.Valid, U.Session.View, U.Session.Parts;
      lines := lines + [line];
      if |line| >= LINE_MAX {
        return;
      }
      var argv := Split(line);
      if |argv| == 0 {
        return;
      }
      var first := Command(argv[0]);
      if first == "auth" {
        var pw := env.password(at);
        if pw == "" || (|argv| >= 2 && argv[1] == pw) {
          authed := true;
        }
        return;
      }
      if authed {
        Obey(argv, env, at);
      }
    }

    /** The commands of an authorized connection. */
    method Obey(argv: seq<string>, env: Env, at: nat)
      requires Valid() && argv != []
      modifies this`closed, this`binary, this`bleft, this`mode, this`tmp, session, session.hc, session.hc.state
      ensures Valid() && View() == Obeyed(old(View()), argv, env, at)
    {
      hide U.Begun, Strtoul, HandledUpgrade, HandledPutConf, U.Session.Valid, U.Session.View, U.Session.Parts;
      var first := Command(argv[0]);
      if first == "getconf" {
        return;
      }
      if first == "putconf" && |argv| >= 2 {
        OpenConf(Strtoul(argv[1]), env, at);
        return;
      }
      if first == "upgrade" && |argv| >= 3 {
        OpenUpgrade(Strtoul(argv[1]), argv[2], env, at);
        return;
      }
      if argv[0] == "exit" {
        closed := true;
      }
    }

    // ---- lines

    /** memchr. */
    method FindNewline() returns (k: int)
      requires Valid()
      ensures k < 0 ==> NEWLINE !in Pending()
      ensures k >= 0 ==> k < ilen && ibuf[k] == NEWLINE && NEWLINE !in ibuf[..k]
    {
      k := 0;
      while k < ilen
        invariant 0 <= k <= ilen && forall i :: 0 <= i < k ==> ibuf[i] != NEWLINE
      {
        if ibuf[k] == NEWLINE {
          return;
        }
        k := k + 1;
      }
      k := -1;
    }

    /** One byte of a memmove to the front of the buffer. */
    method Slide(i: nat, n: nat, ghost was: Bytes)
      requires n + i < |was| && Slid(ibuf[..], was, n, i)
      modifies ibuf
      ensures Slid(ibuf[..], was, n, i + 1)
    {
      hide Slid;
      ghost var c := ibuf[..];
      SlidesOn(c, was, n, i);
      ibuf[i] := ibuf[n + i];
      assert ibuf[..] == c[i := c[n + i]];
    }

    /** memmove of what is left to the front of the buffer. */
    method Drop(n: nat)
      requires Valid() && n <= ilen
      modifies this`ilen, ibuf
      ensures ilen == old(ilen) - n && Pending() == old(Pending())[n..]
    {
      hide Slid, U.Session.Valid, U.Session.Parts;
      ghost var was := Pending();
      SlideStarts(ibuf[..], ilen, was, n);
      for i := 0 to ilen - n
        invariant ilen == |was| && Slid(ibuf[..], was, n, i)
      {
        Slide(i, n, was);
      }
      SlideEnds(ibuf[..], was, n);
      ilen := ilen - n;
      assert ibuf[..ilen] == ibuf[..][..ilen];
    }

    /** The two NULs of process_lines. */
    method Terminate(k: nat)
      requires Valid() && k < ilen
      modifies ibuf
      ensures ibuf[..k + 1] == Terminated(old(ibuf[..k])) && ibuf[k + 1..] == old(ibuf[k + 1..])
      ensures Pending()[k + 1..] == old(Pending())[k + 1..]
    {
      ibuf[k] := 0;
      if k > 0 && ibuf[k - 1] == RETURN {
        ibuf[k - 1] := 0;
      }
    }

    /** One turn of process_lines, with its newline at k. */
    method OneLine(k: nat, env: Env)
      requires Valid() && k < ilen && ibuf[k] == NEWLINE && NEWLINE !in ibuf[..k]
      requires !binary && !closed && !gone
      modifies this, ibuf, session, session.hc, session.hc.state
      ensures Valid() && Pending() == old(Pending())[k + 1..] && !gone
      ensures Now() == Fold(old(Now()), old(Pending())[..k + 1], env)
    {
      hide Fold, Handled, U.Session.Valid, U.Session.View, Argv, Terminated, LineText, UpToNul, Chars;
      ghost var line, r := ibuf[..k], Now();
      assert Pending()[..k + 1] == line + [NEWLINE];
      LineFolds(r, line, env);
      HandledStays(r.core, LineText(line), env, pos + k);
      Terminate(k);
      TextIsLine(line);
      NoNulChars(UpToNul(ibuf[..k + 1]));
      HandleLine(Chars(UpToNul(ibuf[..k + 1])), env, pos + k);
      Drop(k + 1);
      pos := pos + k + 1;
    }

    lemma NoNulChars(b: Bytes)
      requires 0 !in b
      ensures NUL !in Chars(b)
    {
      assert forall i :: 0 <= i < |b| ==> b[i] in b;
    }

    lemma TextIsLine(b: Bytes)
      ensures Chars(UpToNul(Terminated(b))) == LineText(b)
    {
      TerminatedReads(b);
    }

    /** The same, after other bytes of the stream. */
    method NextLine(k: nat, env: Env, ghost r: Ref, ghost eaten: Bytes) returns (ghost eaten': Bytes)
      requires Valid() && Tidy(View()) && k < ilen && ibuf[k] == NEWLINE && NEWLINE !in ibuf[..k]
      requires !binary && !closed && !gone && Now() == Fold(r, eaten, env)
      modifies this, ibuf, session, session.hc, session.hc.state
      ensures Valid() && !gone && (closed || Tidy(View())) && ilen < old(ilen)
      ensures eaten + old(Pending()) == eaten' + Pending() && Now() == Fold(r, eaten', env)
      ensures eaten' != [] && eaten'[|eaten'| - 1] == NEWLINE
      ensures |eaten| + LinesEaten(old(Now()), old(Pending()), env) ==
              |eaten'| + if closed || binary then 0 else LinesEaten(Now(), Pending(), env)
    {
      hide Fold, Handled, U.Session.Valid, U.Session.View, Tidy, LineText, U.Session.Parts, LinesEaten;
      LineEats(Now(), Pending(), k, env);
      ghost var head, rest := Pending()[..k + 1], Pending()[k + 1..];
      assert head == ibuf[..k] + [NEWLINE] && Pending() == head + rest;
      OneLineTidy(Now(), ibuf[..k], env);
      FoldConcat(r, eaten, head, env);
      OneLine(k, env);
      eaten' := eaten + head;
    }

    /** process_lines: it stops at a partial line, at `exit`, and where raw bytes begin. */
    method ProcessLines(env: Env) returns (ghost eaten: Bytes)
      requires Valid() && Tidy(View()) && !binary && !closed && !gone
      modifies this, ibuf, session, session.hc, session.hc.state
      ensures Valid() && !gone && (closed || Tidy(View()))
      ensures old(Pending()) == eaten + Pending() && Now() == Fold(old(Now()), eaten, env)
      ensures closed || binary || NEWLINE !in Pending()
      ensures binary ==> eaten != [] && eaten[|eaten| - 1] == NEWLINE
      ensures |eaten| == LinesEaten(old(Now()), old(Pending()), env)
    {
      hide Fold, Handled, U.Session.Valid, U.Session.View, Tidy, LineText, U.Session.Parts, LinesEaten;
      eaten := [];
      ghost var r := Now();
      NothingFolds(r, env);
      while ilen > 0
        invariant Valid() && Tidy(View()) && !binary && !closed && !gone
        invariant old(Pending()) == eaten + Pending() && Now() == Fold(r, eaten, env)
        invariant |eaten| + LinesEaten(Now(), Pending(), env) == LinesEaten(r, old(Pending()), env)
        decreases ilen
      {
        var k := FindNewline();
        if k < 0 {
          break;
        }
        eaten := NextLine(k, env, r, eaten);
        if closed || binary {
          return;
        }
      }
      NoLineEats(Now(), Pending(), env);
    }

    // ---- raw bytes

    /** bin_write of the first n bytes of the buffer. */
    method BinWrite(n: nat, env: Env) returns (ok: bool)
      requires Valid() && n <= ilen && InTransfer(View())
      modifies this`tmp, session, session.hc, session.hc.state, session.hc.buf, session.first4
      ensures Valid() && (View(), ok) == Put(old(View()), old(Pending())[..n], Taken(env, pos, n)) && Pending() == old(Pending())
    {
      assert mode == Upgrading ==> View().up.up.Some?;
      hide U.Wrote, U.Whole, Taken;
      var data, m := ibuf[..n], Taken(env, pos, n);
      assert data == Pending()[..n];
      if mode == PutConf {
        tmp := Some(tmp.value + data[..m]);
        ok := m == n;
      } else {
        ok := session.Write(data, m);
      }
    }

    /** bin_finish; execv either ends the run or fails. */
    method BinFinish(env: Env, at: nat) returns (ok: bool)
      requires Valid() && mode != Line
      modifies this`tmp, this`conf, this`gone, session, session.hc, session.hc.state, session.hc.buf
      ensures Valid() && (View(), ok) == Landed(old(View()), env, at) && Pending() == old(Pending())
    {
      hide U.Finished;
      if mode == PutConf {
        if !env.renames(at) {
          tmp := None;
          return false;
        }
        conf, tmp := tmp, None;
        return true;
      }
      ok := session.Finish(env.closes(at), env.renames(at));
      if ok {
        gone := gone || env.execs(at);
      }
    }

    /** What recv stores behind the bytes already there. */
    method Recv(data: Bytes)
      requires Valid() && |data| <= IBUF - ilen
      modifies this`ilen, ibuf
      ensures ilen == old(ilen) + |data| && ilen <= ibuf.Length && Pending() == old(Pending()) + data
    {
      ghost var was := Pending();
      for i := 0 to |data|
        invariant ilen == |was| && ibuf[..ilen + i] == was + data[..i]
      {
        ibuf[ilen + i] := data[i];
        assert ibuf[..ilen + i + 1] == ibuf[..ilen + i] + [data[i]];
      }
      ilen := ilen + |data|;
    }

    /** The raw half of a turn of conn_pump up to the finish: takes what is due, and no byte more. */
    method TakeRaw(env: Env) returns (ok: bool, ghost eaten: Bytes)
      requires Valid() && InTransfer(View()) && 0 < ilen
      modifies this`ilen, this`bleft, this`tmp, this`pos, ibuf
      modifies session, session.hc, session.hc.state, session.hc.buf, session.first4
      ensures Valid() && |eaten| == (if old(ilen) < old(bleft) then old(ilen) else old(bleft)) && eaten == old(Pending())[..|eaten|]
      ensures ok ==> View() == Moved(old(View()), eaten) && bleft == old(bleft) - |eaten| && pos == old(pos) + |eaten|
      ensures ok ==> Pending() == old(Pending())[|eaten|..]
      ensures ok ==> forall i :: old(pos) <= i < old(pos) + |eaten| ==> env.takes(i)
      ensures !ok ==> var n := Taken(env, old(pos), |eaten|); n < |eaten| && View() == Put(old(View()), eaten, n).0
    {
      hide U.Wrote, U.Whole, U.Session.Valid, U.Session.View, Put, Taken;
      var take := if ilen < bleft then ilen else bleft;
      eaten := Pending()[..take];
      ghost var c, n := View(), Taken(env, pos, take);
      PutWorksIff(c, eaten, n);
      ok := BinWrite(take, env);
      if !ok {
        return;
      }
      PutKeepsCount(c, eaten);
      Drop(take);
      bleft := bleft - take;
      pos := pos + take;
    }

    /** The automaton's ending, once the connection is cleaned up. */
    ghost predicate EndsAs(q: Ref)
      reads this, session, session.hc, session.first4
    {
      Ended(View()) == Ended(q.core) && SameTalk(View(), q.core) && (gone ==> View().up.up.None? && mode == Upgrading)
    }

    /** What a turn of conn_pump leaves: the automaton's state after the bytes eaten, or its ending. */
    ghost predicate Follows(r: Ref, pending: Bytes, eaten: Bytes, go: bool, env: Env)
      reads this, ibuf, session, session.hc, session.hc.state, session.hc.buf, session.first4
    {
      && eaten <= pending && ilen <= ibuf.Length && (go, |eaten|) == Turned(r, pending, env)
      && var q := Fold(r, eaten, env);
         if go then Now() == q && pending == eaten + Pending() && !gone && (closed || Tidy(View()))
                    && (closed || binary || NEWLINE !in Pending())
                    && (ilen > 0 && binary ==> eaten != [] && eaten[|eaten| - 1] == NEWLINE)
         else EndsAs(q)
              && (Stopped(q) || (!q.core.binary && eaten == [] && |pending| > LINE_LIMIT))
    }

    /** The end of a raw transfer, and the lines right behind it. */
    method FinishRaw(env: Env, ghost r: Ref, ghost taken: Bytes, ghost pending: Bytes) returns (go: bool, ghost eaten: Bytes)
      requires Valid() && binary && bleft == 0 && mode != Line && !closed && !gone && pos == r.pos + |taken| > r.pos && r.line == []
      requires pending == taken + Pending() && Fold(r, taken, env) == LandedRef(r, View(), |taken|, env)
      requires r.core.binary && |taken| == Min(|pending|, r.core.bleft)
      requires Stopped(Fold(r, taken, env)) || Tidy(Fold(r, taken, env).core)
      modifies this, ibuf, session, session.hc, session.hc.state, session.hc.buf
      ensures Valid() && Follows(r, pending, eaten, go, env) && ilen <= old(ilen)
    {
      hide Fold, LandedRef, U.Session.Valid, U.Session.View, Tidy, U.Session.Parts, Ended, Turned, LinesEaten;
      RawTurned(r, pending, taken, env);
      assert pending[|taken|..] == Pending();
      var ok := Land(env, r, taken);
      eaten := taken;
      hide Follows;
      if !ok || gone {
        StopsHere(r, pending, taken, env);
        return false, eaten;
      }
      eaten := LinesBehind(env, r, taken, pending);
      go := true;
    }

    method LinesBehind(env: Env, ghost r: Ref, ghost taken: Bytes, ghost pending: Bytes) returns (ghost eaten: Bytes)
      requires Valid() && Tidy(View()) && !binary && !closed && !gone
      requires pending == taken + Pending() && Now() == Fold(r, taken, env)
      requires Turned(r, pending, env) == (true, |taken| + LinesEaten(Now(), Pending(), env))
      modifies this, ibuf, session, session.hc, session.hc.state
      ensures Valid() && Follows(r, pending, eaten, true, env) && ilen <= old(ilen)
    {
      hide Fold, U.Session.Valid, U.Session.View, Tidy, U.Session.Parts, Turned, LinesEaten, Follows;
      ghost var rest := ProcessLines(env);
      FoldConcat(r, taken, rest, env);
      eaten := taken + rest;
      assert pending == eaten + Pending();
      assert binary ==> eaten[|eaten| - 1] == rest[|rest| - 1];
      GoesOn(r, pending, eaten, env);
    }

    lemma StopsHere(r: Ref, pending: Bytes, eaten: Bytes, env: Env)
      requires Valid() && eaten <= pending && Turned(r, pending, env) == (false, |eaten|) && Stopped(Fold(r, eaten, env))
      requires View() == Fold(r, eaten, env).core && (gone ==> View().up.up.None? && mode == Upgrading)
      ensures Follows(r, pending, eaten, false, env)
    {
      hide Fold, Turned, Ended, U.Session.Valid, U.Session.View;
    }

    lemma BreaksHere(r: Ref, pending: Bytes, eaten: Bytes, env: Env)
      requires Valid() && eaten <= pending && Turned(r, pending, env) == (false, |eaten|)
      requires EndsAs(Fold(r, eaten, env)) && Stopped(Fold(r, eaten, env))
      ensures Follows(r, pending, eaten, false, env)
    {
      hide Fold, Turned, EndsAs, U.Session.Valid, U.Session.View;
    }

    lemma MovesOn(r: Ref, pending: Bytes, eaten: Bytes, env: Env)
      requires Valid() && pending == eaten + Pending() && ilen == 0 && Turned(r, pending, env) == (true, |eaten|)
      requires Now() == Fold(r, eaten, env) && !gone && Tidy(View())
      ensures Follows(r, pending, eaten, true, env)
    {
      hide Fold, Turned, Tidy, U.Session.Valid, U.Session.View;
    }

    lemma GoesOn(r: Ref, pending: Bytes, eaten: Bytes, env: Env)
      requires Valid() && pending == eaten + Pending() && Turned(r, pending, env) == (true, |eaten|)
      requires Now() == Fold(r, eaten, env) && !gone && (closed || Tidy(View()))
      requires closed || binary || NEWLINE !in Pending()
      requires binary ==> eaten != [] && eaten[|eaten| - 1] == NEWLINE
      ensures Follows(r, pending, eaten, true, env)
    {
      hide Fold, Turned, Tidy, U.Session.Valid, U.Session.View;
    }

    method Land(env: Env, ghost r: Ref, ghost taken: Bytes) returns (ok: bool)
      requires Valid() && binary && bleft == 0 && mode != Line && !closed && !gone && pos == r.pos + |taken| > r.pos && r.line == []
      requires Fold(r, taken, env) == LandedRef(r, View(), |taken|, env)
      modifies this`binary, this`tmp, this`conf, this`gone, session, session.hc, session.hc.state, session.hc.buf
      ensures Valid() && Pending() == old(Pending()) && Fold(r, taken, env) == Ref(View(), [], pos, !ok)
      ensures !closed && !binary && (gone ==> View().up.up.None? && mode == Upgrading)
    {
      hide Fold, Landed, U.Session.Valid, U.Session.View, U.Session.Parts;
      binary := false;
      GoneIsInstalled(View(), env, pos - 1);
      ok := BinFinish(env, pos - 1);
    }

    /** The raw half of a turn of conn_pump. */
    method RawTurn(env: Env) returns (go: bool, ghost eaten: Bytes)
      requires Valid() && Tidy(View()) && binary && !closed && !gone && 0 < ilen
      modifies this, ibuf, session, session.hc, session.hc.state, session.hc.buf, session.first4
      ensures Valid() && Follows(old(Now()), old(Pending()), eaten, go, env) && (go ==> ilen < old(ilen))
    {
      hide Fold, U.Session.Valid, U.Session.View, U.Session.Parts, Ended, Taken, Moved, Put, U.Whole, U.File, Turned, LinesEaten, Follows,
           LandedRef, Landed;
      ghost var r, pending := Now(), Pending();
      var ok;
      ok, eaten := TakeRaw(env);
      assert pending == eaten + pending[|eaten|..];
      RawTurned(r, pending, eaten, env);
      if !ok {
        RawBreaks(r, eaten, Taken(env, r.pos, |eaten|), env);
        PutIsSilent(r.core, eaten, Taken(env, r.pos, |eaten|));
        BreaksHere(r, pending, eaten, env);
        return false, eaten;
      }
      if bleft > 0 {
        RawFolds(r, eaten, env);
        MovedIsTidy(r.core, eaten);
        MovesOn(r, pending, eaten, env);
        return true, eaten;
      }
      RawLands(r, eaten, env);
      LandedIsTidy(r, eaten, env);
      go, eaten := FinishRaw(env, r, eaten, pending);
    }

    /** One turn of conn_pump, after recv delivered data. */
    method Turn(data: Bytes, env: Env) returns (go: bool, ghost eaten: Bytes)
      requires Valid() && Tidy(View()) && !closed && !gone && 0 < |data| <= IBUF - ilen
      modifies this, ibuf, session, session.hc, session.hc.state, session.hc.buf, session.first4
      ensures Valid() && Follows(old(Now()), old(Pending()) + data, eaten, go, env) && (go ==> ilen < IBUF)
      ensures !old(binary) ==> go == (old(ilen) + |data| <= LINE_LIMIT)
    {
      hide Fold, U.Session.Valid, U.Session.View, Ended, Tidy, LinesEaten;
      ghost var r := Now();
      NothingFolds(r, env);
      Recv(data);
      if binary {
        go, eaten := RawTurn(env);
        return;
      }
      if ilen > LINE_LIMIT {
        return false, [];
      }
      eaten := ProcessLines(env);
      go := true;
    }

    /** The tail of conn_thread. */
    method Close()
      requires Valid() && !gone
      modifies this`tmp, session
      ensures Valid() && (session.View(), conf, tmp) == Ended(old(View()))
    {
      if mode == PutConf && tmp.Some? {
        tmp := None;
      }
      if mode == Upgrading {
        session.Abort();
      }
    }

    /** recv and the turn it starts, somewhere in a stream. */
    method NextRecv(stream: Bytes, cut: nat, got: nat, env: Env, ghost f: Flow) returns (go: bool, got': nat, ghost f': Flow)
      requires Valid() && Running(f) && f.got == got < |stream| && !closed
      modifies this, ibuf, session, session.hc, session.hc.state, session.hc.buf, session.first4
      ensures Valid() && f' == Received(f, stream, cut, env) && f'.got == got' <= |stream| && f'.over == !go
      ensures if go then Running(f') else EndsAs(f'.ref)
    {
      hide Fold, U.Session.Valid, U.Session.View, U.Session.Parts, EndsAs, Tidy, Turned;
      var n := Segment(cut, IBUF - ilen, |stream| - got);
      ghost var all := Pending() + stream[got..got + n];
      ghost var eaten;
      go, eaten := Turn(stream[got..got + n], env);
      got' := got + n;
      assert all[..|eaten|] == eaten;
      f' := Flow(Fold(f.ref, eaten, env), all[|eaten|..], got', !go);
    }

    /** Between two recvs the connection is the flow. */
    ghost predicate Running(f: Flow)
      reads this, ibuf, session, session.hc, session.hc.state, session.hc.buf, session.first4
    {
      && !f.over && !gone && (closed || Tidy(View())) && ilen < IBUF && ilen <= ibuf.Length
      && Now() == f.ref && Pending() == f.buf
    }

    /**
     A whole connection, cut anyhow by recv, which never gets an empty buffer to fill; it ends when the peer
     closes after the last cut, or before. What is left is what the value loop leaves after as many bytes.
     */
    method Serve(stream: Bytes, cuts: seq<nat>, env: Env) returns (got: nat, ghost f: Flow)
      requires Valid() && Tidy(View()) && !closed && !gone && ilen == 0
      modifies this, ibuf, session, session.hc, session.hc.state, session.hc.buf, session.first4
      ensures Valid() && f == Pumped(Flow(old(Now()), [], 0, false), stream, cuts, env) && f.got == got
      ensures (session.View(), conf, tmp) == Ended(f.ref.core) && lines == f.ref.core.lines && gone == f.ref.core.gone
      ensures Framed(old(Now()), f, stream, env) && Complete(f, stream, cuts)
    {
      hide Fold, U.Session.Valid, U.Session.View, U.Session.Parts, Ended, Tidy, Received, Framed, Complete;
      ghost var f0 := Flow(Now(), [], 0, false);
      f := f0;
      got := 0;
      for i := 0 to |cuts|
        invariant Valid() && Running(f) && f == Pumped(f0, stream, cuts[..i], env) && f.got == got <= |stream|
      {
        if closed || got == |stream| {
          EndedStays(f0, stream, cuts[..i], cuts[i..], env);
          assert cuts[..i] + cuts[i..] == cuts;
          break;
        }
        var go;
        assert cuts[..i + 1][..i] == cuts[..i];
        go, got, f := NextRecv(stream, cuts[i], got, env, f);
        if !go {
          EndedStays(f0, stream, cuts[..i + 1], cuts[i + 1..], env);
          assert cuts[..i + 1] + cuts[i + 1..] == cuts;
          break;
        }
      }
      assert cuts[..|cuts|] == cuts;
      PumpedIsFramed(f0.ref, stream, cuts, env);
      PumpedIsComplete(f0.ref, stream, cuts, env);
      EndedOnceInstalled(View());
      if !gone {
        Close();
      }
    }
  }

  lemma EndedOnceInstalled(c: Core)
    ensures c.up.up.None? && c.mode == Upgrading ==> Ended(c) == (c.up, c.conf, c.tmp)
    ensures c.up.up.None? ==> Ended(c).0 == c.up
  {}

  lemma GoneIsInstalled(c: Core, env: Env, at: nat)
    requires !c.gone
    ensures Landed(c, env, at).0.gone ==> Landed(c, env, at).0.up.up.None? && Landed(c, env, at).0.mode == Upgrading
  {}

  lemma MovedIsTidy(c: Core, data: Bytes)
    requires Tidy(c) && c.binary && |data| < c.bleft
    ensures Tidy(Moved(c, data))
  {
    MovedStays(c, data);
  }

  lemma LandedIsTidy(r: Ref, data: Bytes, env: Env)
    requires !Stopped(r) && InTransfer(r.core) && Tidy(r.core) && |data| == r.core.bleft
    requires forall i :: r.pos <= i < r.pos + |data| ==> env.takes(i)
    ensures Stopped(Fold(r, data, env)) || Tidy(Fold(r, data, env).core)
  {
    var t, b := data[..|data| - 1], data[|data| - 1];
    RawFolds(r, t, env);
    MovedStays(r.core, t);
    FedKeepsTidy(Fold(r, t, env), b, env);
  }

  lemma PutWorksIff(c: Core, data: Bytes, n: nat)
    requires InTransfer(c) && n <= |data| <= c.bleft
    ensures Put(c, data, n).1 == (n == |data|)
  {
    if c.mode == Upgrading {
      U.WroteIsWhole(c.up, U.File(c.up.disk, U.New(c.up.exe)), data, n);
    }
  }

  lemma PutKeepsCount(c: Core, data: Bytes)
    ensures Put(c, data, |data|).0.bleft == c.bleft
  {}

  lemma {:induction false} BlankLinesFold(r: Ref, s: Bytes, env: Env)
    requires !Stopped(r) && !r.core.binary && r.line == [] && forall i :: 0 <= i < |s| ==> s[i] == NEWLINE
    ensures var q := Fold(r, s, env); !Stopped(q) && !q.core.binary && q.line == []
  {
    hide Handled, Argv;
    if s != [] {
      var t := s[..|s| - 1];
      BlankLinesFold(r, t, env);
      var q := Fold(r, t, env);
      BlankLine(q.core, env, q.pos);
      assert s == t + [NEWLINE];
      NewlineFeeds(q, env);
    }
  }

  lemma BlankLine(c: Core, env: Env, pos: nat)
    ensures Handled(c, LineText([]), env, pos) == c.(lines := c.lines + [""])
  {
    NoWords(24);
    assert LineText([]) == "";
  }

  lemma FirstOfRest(s: Bytes, used: Bytes, rest: Bytes)
    requires s == used + rest
    ensures rest != [] ==> rest[0] in rest && rest[0] == s[|used|]
  {}

  /**
   The cuts are not always invisible: 9000 blank lines break the connection when one recv brings them all,
   and do nothing at all when two do.
   */
  method CutsMatter(disk: U.Disk, env: Env) returns (whole: bool, halves: bool)
    ensures !whole && halves
  {
    hide Fold, U.Session.Valid, U.Session.View, Ended, FedRaw, Handled, InTransfer, Turned, LinesEaten;
    var s: Bytes := seq(9000, _ => NEWLINE);
    var a := new Conn(disk, true);
    ghost var e;
    whole, e := a.Turn(s, env);
    var b := new Conn(disk, true);
    ghost var r := b.Now();
    var first;
    first, e := b.Turn(s[..4500], env);
    BlankLinesFold(r, e, env);
    FirstOfRest(s[..4500], e, b.Pending());
    halves, e := b.Turn(s[4500..], env);
  }
}
