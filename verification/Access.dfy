/**
 Who may do anything on the management connection: until a line gives the password, it does nothing but listen.
 */
module Access {
  import opened Basics
  import opened Text
  import opened RemoteSpec
  import U = Upgrade

  /** The line gives the password, or there is none to give. */
  ghost predicate Gives(line: string, password: string) {
    var argv := Argv(line);
    |line| < LINE_MAX && |argv| >= 1 && argv[0] == "auth" && (password == "" || (|argv| >= 2 && argv[1] == password))
  }

  /** s[j..i] is a line of the stream with its newline. */
  ghost predicate LineIn(s: Bytes, j: nat, i: nat) {
    j < i <= |s| && s[i - 1] == NEWLINE && NEWLINE !in s[j..i - 1] && (j == 0 || s[j - 1] == NEWLINE)
  }

  ghost predicate GivenAt(s: Bytes, j: nat, i: nat, base: nat, env: Env) {
    LineIn(s, j, i) && Gives(LineText(s[j..i - 1]), env.password(base + i - 1))
  }

  /** Some line of a stream that starts at position base gives the password of its moment. */
  ghost predicate Given(s: Bytes, base: nat, env: Env) {
    exists j: nat, i: nat :: GivenAt(s, j, i, base, env)
  }

  lemma GivenStays(s: Bytes, t: Bytes, j: nat, i: nat, base: nat, env: Env)
    requires i <= |s|
    ensures GivenAt(s + t, j, i, base, env) <==> GivenAt(s, j, i, base, env)
  {
    hide LineText, Gives;
    if j < i {
      assert (s + t)[j..i - 1] == s[j..i - 1] && (s + t)[i - 1] == s[i - 1];
    }
  }

  lemma GivenInPart(s: Bytes, t: Bytes, base: nat, env: Env)
    requires Given(s, base, env)
    ensures Given(s + t, base, env)
  {
    hide LineText, Gives;
    var j: nat, i: nat :| GivenAt(s, j, i, base, env);
    GivenStays(s, t, j, i, base, env);
  }

  /** A byte that ends no line, or ends this one, brings no other line. */
  lemma GivenByByte(s: Bytes, b: Byte, base: nat, env: Env, line: Bytes)
    requires |line| <= |s| && line == s[|s| - |line|..] && NEWLINE !in line && (|line| == |s| || s[|s| - |line| - 1] == NEWLINE)
    ensures Given(s + [b], base, env) <==>
              Given(s, base, env) || (b == NEWLINE && Gives(LineText(line), env.password(base + |s|)))
  {
    hide LineText, Gives;
    var u, k := s + [b], |s| - |line|;
    if Given(s, base, env) {
      GivenInPart(s, [b], base, env);
    }
    if b == NEWLINE {
      assert u[k..|s|] == line;
      assert LineIn(u, k, |u|);
      assert GivenAt(u, k, |u|, base, env) <==> Gives(LineText(line), env.password(base + |s|));
    }
    if j: nat, i: nat :| GivenAt(u, j, i, base, env) {
      if i <= |s| {
        GivenStays(s, [b], j, i, base, env);
      } else {
        LastLine(s, j, line);
        assert u[j..|s|] == s[j..];
      }
    }
  }

  /** There is one line before a newline. */
  lemma LastLine(s: Bytes, j: nat, line: Bytes)
    requires j <= |s| && NEWLINE !in s[j..] && (j == 0 || s[j - 1] == NEWLINE)
    requires |line| <= |s| && line == s[|s| - |line|..] && NEWLINE !in line && (|line| == |s| || s[|s| - |line| - 1] == NEWLINE)
    ensures s[j..] == line
  {
    var k := |s| - |line|;
    assert forall m :: j <= m < |s| ==> s[m] == s[j..][m - j];
    assert forall m :: k <= m < |s| ==> s[m] == line[m - k];
    assert j == k;
  }

  lemma NamesAuth(w: string)
    ensures Command(w) == "auth" <==> w == "auth"
  {}

  lemma AuthRuns(c: Core, line: string, env: Env, pos: nat)
    requires !c.authed
    ensures Handled(c, line, env, pos) == c.(lines := c.lines + [line], authed := Gives(line, env.password(pos)))
  {
    hide Argv, Obeyed, Command;
    if Argv(line) != [] {
      NamesAuth(Argv(line)[0]);
    }
  }

  lemma StaysAuthorized(r: Ref, b: Byte, env: Env)
    requires r.core.authed
    ensures Fed(r, b, env).core.authed
  {
    hide Argv, Command, Strtoul, LineText, U.Begun, U.Wrote, U.Finished;
  }

  /** A connection that nobody has authorized is still as it began, but for the line begun. */
  ghost predicate Untouched(c: Core, q: Ref, s: Bytes, base: nat) {
    && q.core == c.(lines := q.core.lines) && !q.broken && q.pos == base + |s|
    && |q.line| <= |s| && q.line == s[|s| - |q.line|..] && NEWLINE !in q.line
    && (|q.line| == |s| || s[|s| - |q.line| - 1] == NEWLINE)
  }

  lemma ListensOn(c: Core, q: Ref, s: Bytes, b: Byte, base: nat, env: Env)
    requires !c.authed && !c.binary && !c.closed && !c.gone && Untouched(c, q, s, base)
    ensures var d := Fed(q, b, env);
            if b == NEWLINE && Gives(LineText(q.line), env.password(base + |s|)) then d.core.authed
            else Untouched(c, d, s + [b], base)
  {
    hide Handled, LineText, Gives, FedRaw;
    if b == NEWLINE {
      NewlineFeeds(q, env);
      AuthRuns(q.core, LineText(q.line), env, q.pos);
    } else {
      assert (s + [b])[|s + [b]| - |q.line + [b]|..] == q.line + [b];
    }
  }

  /**
   Whatever bytes come, a connection is authorized if and only if some line of them gave the password; and
   while none has, no configuration, upgrade or file is touched, no raw bytes are taken and it stays open.
   */
  lemma {:induction false} AuthorizedIff(r: Ref, s: Bytes, env: Env)
    requires Fresh(r) && !r.core.authed
    ensures var q := Fold(r, s, env);
            && (q.core.authed <==> Given(s, r.pos, env))
            && (!q.core.authed ==> Untouched(r.core, q, s, r.pos))
  {
    hide Fed, Gives, LineText, Given, Untouched;
    if s == [] {
      NothingGiven(r, env);
    } else {
      var t, b := s[..|s| - 1], s[|s| - 1];
      assert s == t + [b];
      AuthorizedIff(r, t, env);
      var q := Fold(r, t, env);
      if q.core.authed {
        StaysAuthorized(q, b, env);
        GivenInPart(t, [b], r.pos, env);
      } else {
        ListensOn(r.core, q, t, b, r.pos, env);
        LineBegun(r.core, q, t, r.pos);
        GivenByByte(t, b, r.pos, env, q.line);
        UntouchedIsNot(r.core, Fed(q, b, env), s, r.pos);
      }
    }
  }

  lemma NothingGiven(r: Ref, env: Env)
    requires Fresh(r)
    ensures !Given([], r.pos, env) && Untouched(r.core, r, [], r.pos)
  {}

  lemma LineBegun(c: Core, q: Ref, s: Bytes, base: nat)
    requires Untouched(c, q, s, base)
    ensures |q.line| <= |s| && q.line == s[|s| - |q.line|..] && NEWLINE !in q.line
    ensures |q.line| == |s| || s[|s| - |q.line| - 1] == NEWLINE
  {}

  lemma UntouchedIsNot(c: Core, q: Ref, s: Bytes, base: nat)
    requires !c.authed
    ensures Untouched(c, q, s, base) ==> !q.core.authed
  {}

  /** A stream without the password leaves the files and the configuration alone, also once the connection has ended. */
  lemma StrangersChangeNothing(r: Ref, s: Bytes, t: Bytes, env: Env)
    requires Fresh(r) && !r.core.authed && !Given(s + t, r.pos, env)
    ensures var (up, conf, tmp) := Ended(Fold(r, s, env).core); up.disk == r.core.up.disk && conf == r.core.conf && tmp.None?
  {
    hide Fold, Given;
    AuthorizedIff(r, s, env);
    if Given(s, r.pos, env) {
      GivenInPart(s, t, r.pos, env);
    }
  }

  // ---------------------------------------------------------------- lines

  /** A return before the newline does not belong to the line. */
  lemma ReturnIsDropped(b: Bytes)
    requires b == [] || b[|b| - 1] != 13
    ensures LineText(b + [13]) == LineText(b)
  {
    assert (b + [13])[..|b|] == b;
  }

  lemma NamesExit(w: string)
    ensures Command(w) in {"auth", "getconf", "putconf", "upgrade"} ==> w != "exit"
  {}

  /** Only an authorized `exit` closes the connection. */
  lemma ClosesIff(c: Core, line: string, env: Env, pos: nat)
    ensures Handled(c, line, env, pos).closed <==>
              c.closed || (c.authed && |line| < LINE_MAX && |Argv(line)| > 0 && Argv(line)[0] == "exit")
  {
    hide Argv, Command, Strtoul, U.Begun;
    if Argv(line) != [] {
      NamesExit(Argv(line)[0]);
    }
  }
}
