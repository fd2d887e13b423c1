/**
 The upgrade from the wire to the disk: what any byte stream on the management connection can do to the
 executable, and what one well-formed upload does.
 */
module EndToEnd {
  import opened Basics
  import opened Text
  import opened RemoteSpec
  import opened Cuts
  import opened Pump
  import opened Delivery
  import R = Remote
  import C = ConfigUpload
  import A = Access
  import U = Upgrade
  import Sha = Sha256

  /** The line orders an upload of this size with this digest. */
  ghost predicate Announces(line: string, u: U.Upload) {
    var argv := Argv(line);
    |line| < LINE_MAX && |argv| >= 3 && Command(argv[0]) == "upgrade" && u.expected == Strtoul(argv[1])
    && U.Wanted(Some(argv[2])) == Some(u.digest)
  }

  /** The line that ends with the newline before position i of the stream announces the upload, and exe was running then. */
  ghost predicate AnnouncedAt(s: Bytes, i: nat, u: U.Upload, exe: string, base: nat, env: Env) {
    0 < i <= |s| && s[i - 1] == NEWLINE && exe == env.link(base + i - 1) && exists j: nat :: LineAt(s, j, i, u)
  }

  ghost predicate LineAt(s: Bytes, j: nat, i: nat, u: U.Upload) {
    j < i <= |s| && NEWLINE !in s[j..i - 1] && Announces(LineText(s[j..i - 1]), u)
  }

  /**
   f is, byte for byte, the upload that follows its `upgrade` line in the stream, and passed every check; p is
   the path of the executable that readlink gave at that line. The stream starts at position base.
   */
  ghost predicate UploadedIn(s: Bytes, p: string, f: Bytes, base: nat, env: Env) {
    exists i: nat, u :: AnnouncedAt(s, i, u, p, base, env) && i + |f| <= |s| && f == s[i..i + |f|]
                        && |f| == u.expected && U.IsElf(f) && (u.digest.Some? ==> Sha.Digest(f) == u.digest.value)
  }

  predicate SameAt(d: U.Disk, e: U.Disk, p: string) {
    (p in d <==> p in e) && (p in d ==> d[p] == e[p])
  }

  /** The name an upgrade writes under, for an executable that readlink gives at some point of the stream. */
  ghost predicate Temporary(p: string, env: Env) {
    exists i: nat :: p == U.New(env.link(i))
  }

  /** An upgrade in progress is of an executable that readlink gave. */
  ghost predicate OfLink(r: Ref, env: Env) {
    r.core.up.up.Some? ==> Temporary(U.New(r.core.up.exe), env)
  }

  lemma FedIsOfLink(r: Ref, b: Byte, env: Env)
    requires OfLink(r, env)
    ensures OfLink(Fed(r, b, env), env)
  {
    hide Handled, LineText, Temporary, U.New, FedRaw, OfLink;
    if !Stopped(r) {
      if r.core.binary {
        RawIsOfLink(r, b, env);
      } else if b == NEWLINE {
        CommandIsOfLink(r, env);
      } else {
        LineByte(r, b, env);
        SameIsOfLink(r, Fed(r, b, env), env);
      }
    }
  }

  lemma SameIsOfLink(r: Ref, q: Ref, env: Env)
    requires OfLink(r, env) && q.core == r.core
    ensures OfLink(q, env)
  {}

  lemma RawIsOfLink(r: Ref, b: Byte, env: Env)
    requires OfLink(r, env) && !Stopped(r) && r.core.binary
    ensures OfLink(Fed(r, b, env), env)
  {
    hide Temporary, U.New;
  }

  lemma CommandIsOfLink(r: Ref, env: Env)
    requires OfLink(r, env) && !Stopped(r) && !r.core.binary
    ensures OfLink(Fed(r, NEWLINE, env), env)
  {
    hide LineText, Argv, U.Wanted, Temporary, U.New, Strtoul, Command;
    LinkIsTemporary(env, r.pos);
  }

  lemma LinkIsTemporary(env: Env, pos: nat)
    ensures Temporary(U.New(env.link(pos)), env)
  {}

  lemma {:induction false} StreamIsOfLink(r: Ref, s: Bytes, env: Env)
    requires OfLink(r, env)
    ensures OfLink(Fold(r, s, env), env)
  {
    hide OfLink, Fed;
    if s != [] {
      StreamIsOfLink(r, s[..|s| - 1], env);
      FedIsOfLink(Fold(r, s[..|s| - 1], env), s[|s| - 1], env);
    }
  }

  /** What the automaton knows about the stream so far. */
  ghost predicate Traced(r: Ref, s: Bytes, base: nat, env: Env) {
    Stopped(r) ||
    (&& Begun(r, s, base)
     && (r.core.binary && r.core.mode == Upgrading ==>
           var u := r.core.up.up.value;
           u.received <= |s| && AnnouncedAt(s, |s| - u.received, u, r.core.up.exe, base, env)
           && U.Whole(r.core.up, s[|s| - u.received..])))
  }

  lemma StillAnnounced(s: Bytes, t: Bytes, i: nat, u: U.Upload, v: U.Upload, exe: string, base: nat, env: Env)
    requires AnnouncedAt(s, i, u, exe, base, env) && u.expected == v.expected && u.digest == v.digest
    ensures AnnouncedAt(s + t, i, v, exe, base, env)
  {
    hide LineText, Argv;
    var j: nat :| LineAt(s, j, i, u);
    assert (s + t)[j..i - 1] == s[j..i - 1];
    assert LineAt(s + t, j, i, v);
    assert (s + t)[i - 1] == s[i - 1];
  }

  lemma StillUploaded(s: Bytes, t: Bytes, p: string, f: Bytes, base: nat, env: Env)
    requires UploadedIn(s, p, f, base, env)
    ensures UploadedIn(s + t, p, f, base, env)
  {
    hide AnnouncedAt;
    var i: nat, u :| AnnouncedAt(s, i, u, p, base, env) && i + |f| <= |s| && f == s[i..i + |f|]
                     && |f| == u.expected && U.IsElf(f) && (u.digest.Some? ==> Sha.Digest(f) == u.digest.value);
    StillAnnounced(s, t, i, u, u, p, base, env);
    assert (s + t)[i..i + |f|] == s[i..i + |f|];
  }

  /** One more byte of an upload. */
  lemma UploadByte(r: Ref, s: Bytes, b: Byte, env: Env, p: string, base: nat)
    requires Traced(r, s, base, env) && !Stopped(r) && r.core.binary && r.core.mode == Upgrading && !Temporary(p, env) && OfLink(r, env)
    ensures var q := Fed(r, b, env);
            && Traced(q, s + [b], base, env)
            && (SameAt(r.core.up.disk, q.core.up.disk, p) || (p in q.core.up.disk && UploadedIn(s + [b], p, q.core.up.disk[p], base, env)))
  {
    hide AnnouncedAt, Handled, LineText, Sha.Digest, Argv, Temporary;
    var c, u, n := r.core, r.core.up.up.value, if env.takes(r.pos) then 1 else 0;
    var i := |s| - u.received;
    var f, t := s[i..], s + [b];
    assert t[i..] == f + [b];
    U.WroteIsWhole(c.up, f, [b], n);
    assert p != U.New(c.up.exe);
    StillAnnounced(s, [b], i, u, u, c.up.exe, base, env);
    if n == 1 {
      var w := U.Wrote(c.up, [b], 1).0;
      StillAnnounced(s, [b], i, u, w.up.value, c.up.exe, base, env);
      U.FinishInstallsIff(w, f + [b], env.closes(r.pos), env.renames(r.pos));
      assert t[i..i + |f + [b]|] == f + [b];
    }
  }

  /** One more byte of anything else. */
  lemma OtherByte(r: Ref, s: Bytes, b: Byte, env: Env, p: string, base: nat)
    requires Traced(r, s, base, env) && !Stopped(r) && !(r.core.binary && r.core.mode == Upgrading) && !Temporary(p, env)
    ensures var q := Fed(r, b, env); Traced(q, s + [b], base, env) && SameAt(r.core.up.disk, q.core.up.disk, p)
  {
    hide Handled, LineText, Argv, AnnouncedAt, U.Whole, Temporary, Tidy, Fed;
    FedKeepsTidy(r, b, env);
    if r.core.binary {
      ConfByte(r, b, env);
    } else if b == NEWLINE {
      NewlineFeeds(r, env);
      CommandByte(r, s, env, p, base);
    } else {
      LineByte(r, b, env);
      assert (s + [b])[|s + [b]| - |r.line + [b]|..] == r.line + [b];
    }
  }

  lemma ConfByte(r: Ref, b: Byte, env: Env)
    requires !Stopped(r) && r.core.binary && r.core.mode != Upgrading
    ensures var q := Fed(r, b, env);
            q.core.up == r.core.up && q.core.mode == r.core.mode && q.line == r.line && q.pos == r.pos + 1
  {}

  lemma LineByte(r: Ref, b: Byte, env: Env)
    requires !Stopped(r) && !r.core.binary && b != NEWLINE
    ensures Fed(r, b, env) == r.(line := r.line + [b], pos := r.pos + 1)
  {}

  lemma CommandByte(r: Ref, s: Bytes, env: Env, p: string, base: nat)
    requires Traced(r, s, base, env) && !Stopped(r) && !r.core.binary && !Temporary(p, env)
    ensures var q := Fed(r, NEWLINE, env);
            && SameAt(r.core.up.disk, q.core.up.disk, p)
            && (q.core.binary && q.core.mode == Upgrading ==>
                  q.core.up.up.Some? && q.core.up.up.value.received == 0 && U.Whole(q.core.up, [])
                  && AnnouncedAt(s + [NEWLINE], |s| + 1, q.core.up.up.value, q.core.up.exe, base, env))
  {
    hide LineText, Handled, Announces, Argv, U.Whole, Temporary, Tidy, FedRaw;
    NewlineFeeds(r, env);
    CommandRuns(r.core, LineText(r.line), env, r.pos, p);
    var t, j, q := s + [NEWLINE], |s| - |r.line|, Fed(r, NEWLINE, env);
    assert t[j..|s|] == r.line;
    if q.core.binary && q.core.mode == Upgrading {
      assert LineAt(t, j, |t|, q.core.up.up.value);
    }
  }

  lemma CommandRuns(c: Core, line: string, env: Env, pos: nat, p: string)
    requires Tidy(c) && !c.binary && !Temporary(p, env)
    ensures var d := Handled(c, line, env, pos);
            && SameAt(c.up.disk, d.up.disk, p)
            && (d.binary && d.mode == Upgrading ==>
                  d.up.up.Some? && d.up.up.value.received == 0 && U.Whole(d.up, []) && Announces(line, d.up.up.value)
                  && d.up.exe == env.link(pos))
  {
    hide U.Wanted, Argv, Strtoul, Command, U.New;
    var argv := Argv(line);
    if |argv| >= 3 {
      U.BegunIsWhole(c.up, Some(argv[2]), Strtoul(argv[1]), env.link(pos), env.opens(pos));
      LinkIsTemporary(env, pos);
    }
  }

  lemma {:induction false} StreamIsTraced(r: Ref, s: Bytes, env: Env, p: string)
    requires Fresh(r) && !Temporary(p, env)
    ensures var q := Fold(r, s, env);
            && Traced(q, s, r.pos, env)
            && (SameAt(r.core.up.disk, q.core.up.disk, p)
                || (p in q.core.up.disk && UploadedIn(s, p, q.core.up.disk[p], r.pos, env)))
  {
    hide Traced, UploadedIn, Temporary, Fed, OfLink;
    FreshIsOfLink(r, env);
    if s == [] {
      NothingTraced(r, env);
    } else {
      var t, b := s[..|s| - 1], s[|s| - 1];
      StreamIsTraced(r, t, env, p);
      var q := Fold(r, t, env);
      assert s == t + [b];
      if Stopped(q) {
        FedStopped(q, b, env, s, r.pos);
      } else if q.core.binary && q.core.mode == Upgrading {
        StreamIsOfLink(r, t, env);
        UploadByte(q, t, b, env, p, r.pos);
      } else {
        OtherByte(q, t, b, env, p, r.pos);
      }
      if p in q.core.up.disk && UploadedIn(t, p, q.core.up.disk[p], r.pos, env) {
        StillUploaded(t, [b], p, q.core.up.disk[p], r.pos, env);
      }
    }
  }

  lemma FreshIsOfLink(r: Ref, env: Env)
    requires Fresh(r)
    ensures OfLink(r, env)
  {}

  lemma NothingTraced(r: Ref, env: Env)
    requires Fresh(r)
    ensures Traced(r, [], r.pos, env)
  {}

  lemma FedStopped(r: Ref, b: Byte, env: Env, s: Bytes, base: nat)
    requires Stopped(r)
    ensures Fed(r, b, env) == r && Traced(r, s, base, env)
  {}

  /**
   Whatever bytes a connection sends and however they are cut, a file that is not a temporary one of an
   executable that was running is at the
   end what it was at the start, or it is the executable that was running when an `upgrade` line of the stream
   came, and holds the exact bytes that followed the line, which had the announced length, started with the
   ELF magic and hashed to the announced digest.
   */
  lemma OnlyUploadsInstall(r: Ref, s: Bytes, env: Env, p: string)
    requires Fresh(r) && !Temporary(p, env)
    ensures var d := Ended(Fold(r, s, env).core).0.disk;
            SameAt(r.core.up.disk, d, p) || (p in d && UploadedIn(s, p, d[p], r.pos, env))
  {
    hide UploadedIn, Fold, Temporary;
    StreamIsTraced(r, s, env, p);
    StreamIsOfLink(r, s, env);
  }

  /** The bytes pass the checks, and the file can be closed and renamed. */
  ghost predicate Good(f: Bytes, digest: Option<Bytes>, env: Env, pos: nat) {
    U.IsElf(f) && (digest.Some? ==> Sha.Digest(f) == digest.value) && env.closes(pos) && env.renames(pos)
  }

  /** The line is an order the session accepts. */
  ghost predicate Accepted(text: string, n: nat, env: Env, pos: nat) {
    var argv := Argv(text);
    && |text| < LINE_MAX && |argv| >= 3 && argv[0] == "upgrade" && Strtoul(argv[1]) == n && 0 < n <= U.MAX_UPLOAD
    && U.Wanted(Some(argv[2])).Some? && env.link(pos) != "" && env.opens(pos)
  }

  /**
   An accepted order followed by its bytes installs exactly those bytes if and only if they are good;
   otherwise the connection breaks, the session closes, and no file but the temporary one changed.
   */
  lemma UploadInstallsIff(r: Ref, line: Bytes, f: Bytes, env: Env)
    requires Fresh(r) && r.core.authed && NEWLINE !in line && Accepted(LineText(line), |f|, env, r.pos + |line|)
    requires forall i :: r.pos + |line| < i <= r.pos + |line| + |f| ==> env.takes(i)
    ensures var q := Fold(r, line + [NEWLINE] + f, env);
            var link, last := env.link(r.pos + |line|), r.pos + |line| + |f|;
            var good := Good(f, U.Wanted(Some(Argv(LineText(line))[2])).value, env, last);
            var others := r.core.up.disk - {U.New(link)};
            && q.broken == !good && q.core.up.up.None?
            && q.core.up.disk == (if good then others[link := f] else others)
            && (q.core.gone <==> good && env.execs(last))
  {
    hide *;
    var q := Fold(r, line + [NEWLINE], env);
    FoldConcat(r, line + [NEWLINE], f, env);
    OrderFolds(r, line, |f|, env);
    UploadBytes(q, q.core.up, f, env);
  }

  lemma OrderFolds(r: Ref, line: Bytes, n: nat, env: Env)
    requires Fresh(r) && r.core.authed && NEWLINE !in line && Accepted(LineText(line), n, env, r.pos + |line|)
    ensures var q := Fold(r, line + [NEWLINE], env);
            var k := U.New(env.link(r.pos + |line|));
            && !Stopped(q) && q.core.binary && q.core.mode == Upgrading && q.core.bleft == n > 0 && q.pos == r.pos + |line| + 1
            && U.Whole(q.core.up, []) && q.core.up.up.value.expected == n && q.core.up.exe == env.link(r.pos + |line|)
            && Some(q.core.up.up.value.digest) == U.Wanted(Some(Argv(LineText(line))[2]))
            && q.core.up.disk - {k} == r.core.up.disk - {k}
  {
    hide Fold, U.Wanted, Handled, Argv, LineText, Accepted, U.Begun, U.Whole, U.New;
    LineFolds(r, line, env);
    OrderTaken(r.core, LineText(line), n, env, r.pos + |line|);
    var k := U.New(env.link(r.pos + |line|));
    assert r.core.up.disk[k := []] - {k} == r.core.up.disk - {k};
  }

  lemma OrderTaken(c: Core, text: string, n: nat, env: Env, pos: nat)
    requires c.authed && !c.binary && c.up.up.None? && Accepted(text, n, env, pos)
    ensures var (link, sha) := (env.link(pos), Argv(text)[2]);
            var up := U.Begun(c.up, Some(sha), n, link, true).0;
            && Handled(c, text, env, pos) == c.(lines := c.lines + [text], binary := true, bleft := n, mode := Upgrading, up := up)
            && U.Whole(up, []) && up.exe == link && up.up.value.expected == n && Some(up.up.value.digest) == U.Wanted(Some(sha))
            && up.disk == c.up.disk[U.New(link) := []] && n > 0
  {
    hide U.Wanted, Argv;
    U.BegunIsWhole(c.up, Some(Argv(text)[2]), n, env.link(pos), true);
  }

  lemma UploadBytes(q: Ref, up: U.State, f: Bytes, env: Env)
    requires !Stopped(q) && q.core.binary && q.core.mode == Upgrading && q.core.up == up && q.core.bleft == |f| > 0
    requires U.Whole(up, []) && up.up.value.expected == |f|
    requires forall i :: q.pos <= i < q.pos + |f| ==> env.takes(i)
    ensures var t := Fold(q, f, env);
            var good := Good(f, up.up.value.digest, env, q.pos + |f| - 1);
            && t.broken == !good && t.core.up.up.None?
            && t.core.up.disk == (if good then (up.disk - {U.New(up.exe)})[up.exe := f] else up.disk - {U.New(up.exe)})
            && (t.core.gone <==> good && env.execs(q.pos + |f| - 1))
  {
    hide *;
    ReadyForBytes(q, |f|);
    RawLands(q, f, env);
    FinishesAs(up, f, env, q.pos + |f| - 1);
    LandsUpload(q, f, env);
  }

  lemma ReadyForBytes(q: Ref, n: nat)
    requires !Stopped(q) && q.core.binary && q.core.mode == Upgrading && q.core.bleft == n > 0
    requires U.Whole(q.core.up, []) && q.core.up.up.value.expected == n
    ensures InTransfer(q.core) && !q.core.gone
  {}

  lemma LandsUpload(q: Ref, f: Bytes, env: Env)
    requires q.core.mode == Upgrading && q.core.up.up.Some? && |f| > 0 && U.Wrote(q.core.up, f, |f|).1
    ensures var pos := q.pos + |f| - 1;
            var (t, ok) := U.Finished(U.Wrote(q.core.up, f, |f|).0, env.closes(pos), env.renames(pos));
            var r := LandedRef(q, Moved(q.core, f), |f|, env);
            r.broken == !ok && r.core.up == t && r.core.gone == (q.core.gone || (ok && env.execs(pos)))
  {
    hide U.Wrote, U.Finished;
  }

  lemma FinishesAs(up: U.State, f: Bytes, env: Env, pos: nat)
    requires U.Whole(up, []) && up.up.value.expected == |f|
    ensures up.up.Some?
    ensures var w := U.Wrote(up, f, |f|);
            var (t, ok) := U.Finished(w.0, env.closes(pos), env.renames(pos));
            && w.1 && w.0.up.Some? && ok == Good(f, up.up.value.digest, env, pos) && t.up.None?
            && t.disk == (if ok then (up.disk - {U.New(up.exe)})[up.exe := f] else up.disk - {U.New(up.exe)})
  {
    hide Sha.Digest, U.IsElf, U.Finished;
    U.WroteIsWhole(up, [], f, |f|);
    var w := U.Wrote(up, f, |f|).0;
    assert [] + f == f;
    U.FinishInstallsIff(w, f, env.closes(pos), env.renames(pos));
    assert w.disk - {U.New(up.exe)} == up.disk - {U.New(up.exe)};
  }

  // ---------------------------------------------------------------- the same, cut into segments

  /** An order the session accepts, with its bytes behind it, as the first thing the connection carries. */
  ghost predicate Order(r: Ref, line: Bytes, f: Bytes, env: Env) {
    Fresh(r) && r.core.authed && NEWLINE !in line && Accepted(LineText(line), |f|, env, r.pos + |line|)
  }

  /** Every byte can be written and they pass every check. */
  ghost predicate Installable(r: Ref, line: Bytes, f: Bytes, env: Env)
    requires Order(r, line, f, env)
  {
    Takes(env, r.pos + |line| + 1, |f|)
    && Good(f, U.Wanted(Some(Argv(LineText(line))[2])).value, env, r.pos + |line| + |f|)
  }

  ghost predicate OnlyAt(d: U.Disk, e: U.Disk, k: string) {
    forall p :: p != k ==> SameAt(d, e, p)
  }

  /** What the disk is once an order and its bytes have come to an end. */
  ghost predicate Outcome(installs: bool, d: U.Disk, e: U.Disk, link: string, f: Bytes) {
    if installs then e == (d - {U.New(link)})[link := f] else OnlyAt(d, e, U.New(link))
  }

  /** A write that may fail, and the end of the connection, touch the temporary file only. */
  lemma PutEnds(c: Core, data: Bytes, n: nat, due: nat)
    requires c.mode == Upgrading && n <= |data|
    ensures OnlyAt(c.up.disk, Ended(Put(c, data, n).0.(bleft := due)).0.disk, U.New(c.up.exe))
  {}

  /** The bytes of an upload, as far as they come. */
  lemma BytesEnd(q: Ref, data: Bytes, env: Env)
    requires !Stopped(q) && InTransfer(q.core) && q.core.mode == Upgrading && |data| <= q.core.bleft
    requires |data| == q.core.bleft ==> !Takes(env, q.pos, |data|)
    ensures OnlyAt(q.core.up.disk, Ended(Fold(q, data, env).core).0.disk, U.New(q.core.up.exe))
  {
    hide Fold, Ended, Put, InTransfer, OnlyAt, U.New;
    var n := Taken(env, q.pos, |data|);
    if n < |data| {
      RawBreaks(q, data, n, env);
      PutEnds(q.core, data, n, Put(q.core, data, n).0.bleft);
    } else {
      RawFolds(q, data, env);
      PutEnds(q.core, data, |data|, q.core.bleft - |data|);
    }
  }

  /** An order, as far as it comes. */
  lemma PartEnds(r: Ref, line: Bytes, f: Bytes, used: Bytes, env: Env)
    requires Order(r, line, f, env) && used <= line + [NEWLINE] + f
    requires used == line + [NEWLINE] + f ==> !Takes(env, r.pos + |line| + 1, |f|)
    ensures OnlyAt(r.core.up.disk, Ended(Fold(r, used, env).core).0.disk, U.New(env.link(r.pos + |line|)))
  {
    hide Fold, Takes, Accepted, InTransfer, OnlyAt, U.New, Ended, U.Whole;
    if |used| <= |line| {
      assert used == line[..|used|];
      LineGathers(r, used, env);
      NothingEnds(r.core, U.New(env.link(r.pos + |line|)));
    } else {
      var q, data := Fold(r, line + [NEWLINE], env), used[|line| + 1..];
      assert used == line + [NEWLINE] + data;
      FoldConcat(r, line + [NEWLINE], data, env);
      OrderFolds(r, line, |f|, env);
      ReadyForBytes(q, |f|);
      BytesEnd(q, data, env);
      SameThrough(r.core.up.disk, q.core.up.disk, Ended(Fold(q, data, env).core).0.disk, U.New(env.link(r.pos + |line|)));
    }
  }

  lemma NothingEnds(c: Core, k: string)
    requires c.up.up.None?
    ensures OnlyAt(c.up.disk, Ended(c).0.disk, k)
  {}

  lemma SameThrough(d: U.Disk, e: U.Disk, h: U.Disk, k: string)
    requires d - {k} == e - {k} && OnlyAt(e, h, k)
    ensures OnlyAt(d, h, k)
  {
    forall p | p != k ensures SameAt(d, h, p) {
      assert p in d - {k} <==> p in e - {k};
      assert SameAt(e, h, p);
    }
  }

  /** All of an order that can be written. */
  lemma WholeEnds(r: Ref, line: Bytes, f: Bytes, env: Env)
    requires Order(r, line, f, env) && Takes(env, r.pos + |line| + 1, |f|)
    ensures var e := Ended(Fold(r, line + [NEWLINE] + f, env).core).0.disk;
            Outcome(Installable(r, line, f, env), r.core.up.disk, e, env.link(r.pos + |line|), f)
  {
    hide Fold, Accepted, Good, LineText, Argv, U.Wanted, Fresh, Ended, Outcome, U.New;
    UploadInstallsIff(r, line, f, env);
    var q := Fold(r, line + [NEWLINE] + f, env);
    R.EndedOnceInstalled(q.core);
    DiskEnds(Installable(r, line, f, env), r.core.up.disk, q.core.up.disk, env.link(r.pos + |line|), f);
  }

  lemma DiskEnds(installs: bool, d: U.Disk, e: U.Disk, link: string, f: Bytes)
    requires e == if installs then (d - {U.New(link)})[link := f] else d - {U.New(link)}
    ensures Outcome(installs, d, e, link, f)
  {}

  /**
   The code's receive loop, for every way the order and its bytes are cut: exactly those bytes are installed
   if and only if the cuts deliver them, every byte can be written, and they are good. In every other case
   no file but the temporary one is touched.
   */
  lemma SegmentedUploadIff(r: Ref, line: Bytes, f: Bytes, cuts: seq<nat>, env: Env)
    requires Order(r, line, f, env)
    ensures var stream := line + [NEWLINE] + f;
            var g := Pumped(Flow(r, [], 0, false), stream, cuts, env);
            Outcome(Delivers(cuts, |line|, |stream|) && Installable(r, line, f, env),
                    r.core.up.disk, Ended(g.ref.core).0.disk, env.link(r.pos + |line|), f)
  {
    hide Fold, Pumped, Ended, Accepted, Delivers, OnlyAt, Good, Takes, Order, Installable, Outcome, Framed, Fresh, Ordered;
    var stream := line + [NEWLINE] + f;
    var g := Pumped(Flow(r, [], 0, false), stream, cuts, env);
    FreshIsTidy(r, line, f, env);
    PumpedIsFramed(r, stream, cuts, env);
    var used := UsedOf(r, g, stream, env);
    if used == stream && Takes(env, r.pos + |line| + 1, |f|) {
      OrderIsOrdered(r, line, f, env);
      DeliveredIff(r, line, f, cuts, env);
      WholeEnds(r, line, f, env);
    } else {
      PartEnds(r, line, f, used, env);
      if Takes(env, r.pos + |line| + 1, |f|) {
        OrderIsOrdered(r, line, f, env);
        DeliveredIff(r, line, f, cuts, env);
      } else {
        NotInstallable(r, line, f, env);
      }
      NothingComes(r.core.up.disk, Ended(g.ref.core).0.disk, env.link(r.pos + |line|), f);
    }
  }

  lemma FreshIsTidy(r: Ref, line: Bytes, f: Bytes, env: Env)
    requires Order(r, line, f, env)
    ensures !Stopped(r) && r.line == [] && Tidy(r.core)
  {
    hide Accepted;
  }

  lemma UsedOf(r: Ref, g: Flow, stream: Bytes, env: Env) returns (used: Bytes)
    requires Framed(r, g, stream, env)
    ensures used <= stream && g.ref == Fold(r, used, env)
    ensures |g.buf| <= g.got && (used == stream <==> g.got - |g.buf| == |stream|)
  {
    hide Fold;
    used := stream[..g.got - |g.buf|];
  }

  lemma NotInstallable(r: Ref, line: Bytes, f: Bytes, env: Env)
    requires Order(r, line, f, env) && !Takes(env, r.pos + |line| + 1, |f|)
    ensures !Installable(r, line, f, env)
  {}

  lemma NothingComes(d: U.Disk, e: U.Disk, link: string, f: Bytes)
    requires OnlyAt(d, e, U.New(link))
    ensures Outcome(false, d, e, link, f)
  {}

  lemma OrderIsOrdered(r: Ref, line: Bytes, f: Bytes, env: Env)
    requires Order(r, line, f, env)
    ensures Ordered(r, line, |f|, env)
  {
    hide Fold, Accepted, InTransfer, U.New, U.Whole;
    OrderFolds(r, line, |f|, env);
    ReadyForBytes(Fold(r, line + [NEWLINE], env), |f|);
    OneLineStays(r, line, env);
  }

  /** The bytes before the order are served, and the connection, authorized, waits for a command. */
  ghost predicate Serves(r: Ref, stream: Bytes, pre: Bytes, a: seq<nat>, line: Bytes, f: Bytes, env: Env) {
    var q := Fold(r, pre, env);
    Pumped(Flow(r, [], 0, false), stream, a, env) == Flow(q, [], |pre|, false) && Order(q, line, f, env)
  }

  /** What an order comes to when it is sent like this. */
  ghost predicate Comes(r: Ref, after: U.Disk, pre: Bytes, line: Bytes, f: Bytes, b: seq<nat>, env: Env) {
    var q := Fold(r, pre, env);
    Order(q, line, f, env) ==>
      Outcome(Delivers(b, |line|, |line| + 1 + |f|) && Installable(q, line, f, env),
              q.core.up.disk, after, env.link(q.pos + |line|), f)
  }

  lemma LaterUploadIff(r: Ref, pre: Bytes, a: seq<nat>, line: Bytes, f: Bytes, b: seq<nat>, env: Env)
    requires Serves(r, pre + (line + [NEWLINE] + f), pre, a, line, f, env)
    ensures var g := Pumped(Flow(r, [], 0, false), pre + (line + [NEWLINE] + f), a + b, env);
            Comes(r, Ended(g.ref.core).0.disk, pre, line, f, b, env)
  {
    hide Fold, Pumped, Order, Outcome, Delivers, Ended, Installable;
    var q := Fold(r, pre, env);
    PumpedShifts(Flow(r, [], 0, false), q, pre, a, line + [NEWLINE] + f, b, env);
    SegmentedUploadIff(q, line, f, b, env);
  }

  /**
   An upload in the middle of any traffic, however all of it is cut: a loop that received everything ends as if
   the whole stream, the upload in it, had gone through the automaton, unless it broke on its limit or holds
   raw bytes; and in the automaton the upload installs exactly its bytes if and only if they are good.
   */
  lemma UploadAmong(r: Ref, pre: Bytes, line: Bytes, f: Bytes, post: Bytes, cuts: seq<nat>, env: Env)
    requires !Stopped(r) && r.line == [] && Tidy(r.core)
    requires Order(Fold(r, pre, env), line, f, env) && Takes(env, Fold(r, pre, env).pos + |line| + 1, |f|)
    ensures var stream := pre + (line + [NEWLINE] + f) + post;
            var g, q := Pumped(Flow(r, [], 0, false), stream, cuts, env), Fold(r, pre, env);
            var x, link := Fold(q, line + [NEWLINE] + f, env), env.link(q.pos + |line|);
            && Outcome(Installable(q, line, f, env), q.core.up.disk, Ended(x.core).0.disk, link, f)
            && (g.got == |stream| ==> (Alike(g.ref, Fold(x, post, env)) <==> !BrokeOnLimit(g) && !HoldsRaw(g)))
  {
    hide Fold, Pumped, Order, Takes, Outcome, Installable, Ended, Tidy, Alike, Idle, BrokeOnLimit, HoldsRaw, EndsLine;
    var up, q := line + [NEWLINE] + f, Fold(r, pre, env);
    CutsShowIff(r, pre + up + post, cuts, env);
    FoldConcat(r, pre + up, post, env);
    FoldConcat(r, pre, up, env);
    WholeEnds(q, line, f, env);
  }

  /**
   A connection as the code runs it, for every stream, every way recv cuts it and every behaviour of the disk.
   Each file but the temporary ones ends as it was, or is the executable that was running when an `upgrade` line
   came and holds an upload that passed every check. An order that is taken up with its bytes behind it
   installs them if and only if the cuts deliver them, they can be written, and they are good. The configuration
   ends as it was or as the bytes behind a `putconf` line, and a putconf that is taken up installs its bytes if
   and only if the cuts deliver them, they can be written and the file renamed; its temporary file is gone at
   the end. A stream without the password does nothing.
   */
  method Connection(disk: U.Disk, authed: bool, stream: Bytes, cuts: seq<nat>, env: Env)
    returns (after: U.Disk, conf: Option<Bytes>, tmp: Option<Bytes>, ghost r: Ref)
    ensures r.core.up.disk == disk && r.core.authed == authed && r.core.conf.None? && Fresh(r) && r.pos == 0
    ensures forall p :: !Temporary(p, env) ==> SameAt(disk, after, p) || (p in after && UploadedIn(stream, p, after[p], 0, env))
    ensures forall pre, a, line, f, b :: Sent(stream, cuts, pre, a, line, f, b) && Serves(r, stream, pre, a, line, f, env) ==>
              Comes(r, after, pre, line, f, b, env)
    ensures conf.None? || C.PutIn(stream, conf.value, 0, env)
    ensures forall pre, a, line, f, b :: Sent(stream, cuts, pre, a, line, f, b) && C.PutServed(r, stream, pre, a, line, f, env) ==>
              conf == C.ConfAfter(r, pre, line, f, b, env)
    ensures tmp.None?
    ensures !authed && !A.Given(stream, 0, env) ==> after == disk && conf.None?
  {
    hide Fold, Pumped, Serves, Comes, UploadedIn, SameAt, Temporary, U.Session.Valid, Ended, C.PutIn, C.PutServed, C.ConfAfter, A.Given;
    var c := new R.Conn(disk, authed);
    r := c.Now();
    var got;
    ghost var g;
    got, g := c.Serve(stream, cuts, env);
    after, conf, tmp := c.session.disk, c.conf, c.tmp;
    ghost var used, rest := stream[..got - |g.buf|], stream[got - |g.buf|..];
    assert used + rest == stream;
    ChangesAllowed(r, used, rest, env, after, conf, tmp);
    forall pre, a, line, f, b | Sent(stream, cuts, pre, a, line, f, b) && Serves(r, stream, pre, a, line, f, env)
      ensures Comes(r, after, pre, line, f, b, env)
    {
      LaterUploadIff(r, pre, a, line, f, b, env);
    }
    forall pre, a, line, f, b | Sent(stream, cuts, pre, a, line, f, b) && C.PutServed(r, stream, pre, a, line, f, env)
      ensures conf == C.ConfAfter(r, pre, line, f, b, env)
    {
      C.LaterPutIff(r, pre, a, line, f, b, env);
    }
  }

  /** What the bytes used up allow is allowed by the stream. */
  lemma ChangesAllowed(r: Ref, used: Bytes, rest: Bytes, env: Env, after: U.Disk, conf: Option<Bytes>, tmp: Option<Bytes>)
    requires Fresh(r) && r.pos == 0 && r.core.conf.None?
    requires var e := Ended(Fold(r, used, env).core); (after, conf, tmp) == (e.0.disk, e.1, e.2)
    ensures forall p :: !Temporary(p, env) ==>
              SameAt(r.core.up.disk, after, p) || (p in after && UploadedIn(used + rest, p, after[p], 0, env))
    ensures conf.None? || C.PutIn(used + rest, conf.value, 0, env)
    ensures tmp.None?
    ensures !r.core.authed && !A.Given(used + rest, 0, env) ==> after == r.core.up.disk && conf.None?
  {
    hide Fold, UploadedIn, SameAt, Temporary, Ended, C.PutIn, A.Given;
    forall p | !Temporary(p, env)
      ensures SameAt(r.core.up.disk, after, p) || (p in after && UploadedIn(used + rest, p, after[p], 0, env))
    {
      OnlyUploadsInstall(r, used, env, p);
      if p in after && UploadedIn(used, p, after[p], 0, env) {
        StillUploaded(used, rest, p, after[p], 0, env);
      }
    }
    C.OnlyPutsInstall(r, used, env);
    if conf.Some? {
      C.StillPut(used, rest, conf.value, 0, env);
    }
    if !r.core.authed && !A.Given(used + rest, 0, env) {
      A.StrangersChangeNothing(r, used, rest, env);
    }
  }

  // ---------------------------------------------------------------- a peer that sends everything at once

  function BytesOf(s: string): (b: Bytes)
    requires forall i :: 0 <= i < |s| ==> s[i] as int < 256
    ensures |b| == |s|
  {
    seq(|s|, i requires 0 <= i < |s| => s[i] as int)
  }

  lemma {:induction false} NoNul(b: Bytes)
    requires 0 !in b
    ensures UpToNul(b) == b
  {
    if b != [] {
      NoNul(b[1..]);
    }
  }

  lemma TextOfBytes(s: string)
    requires forall i :: 0 <= i < |s| ==> 13 < s[i] as int < 256
    ensures NEWLINE !in BytesOf(s) && LineText(BytesOf(s)) == s
  {
    NoNul(BytesOf(s));
  }

  const ROUTER := "/usr/bin/router"

  /** A disk and a system on which everything works. */
  const WORKS := Env(_ => "", _ => ROUTER, _ => true, _ => true, _ => true, _ => true, _ => true)

  /** `upgrade <n> -`: so many bytes, unchecked but for the ELF magic. */
  function OrderText(n: nat): string {
    "upgrade " + Dec(n) + " -"
  }

  lemma LineOfThree(a: string, b: string, c: string)
    ensures Text.Line([a, b, c]) == a + " " + b + " " + c
  {
    assert [a, b, c][1..] == [b, c] && [b, c][1..] == [c];
    assert Text.Line([c]) == c && Text.Line([b, c]) == b + " " + c;
    assert a + " " + (b + " " + c) == a + " " + b + " " + c;
  }

  lemma OrderWords(n: nat)
    requires n <= U.MAX_UPLOAD
    ensures var text := OrderText(n);
            Argv(text) == ["upgrade", Dec(n), "-"] && |text| <= 18 && (forall i :: 0 <= i < |text| ==> 13 < text[i] as int < 256)
  {
    hide Dec, Text.Line, Words;
    var ws, digits := ["upgrade", Dec(n), "-"], Dec(n);
    DecLen(n, 8);
    LineOfThree("upgrade", digits, "-");
    assert OrderText(n) == "upgrade" + " " + digits + " " + "-";
    assert forall i :: 0 <= i < |digits| ==> Digit(digits[i]);
    Text.WordsOfLine(ws, 24);
  }

  lemma OrderIsAccepted(r: Ref, f: Bytes)
    requires Fresh(r) && r.core.authed && U.IsElf(f) && |f| <= U.MAX_UPLOAD
    ensures |OrderText(|f|)| <= 18 && (forall i :: 0 <= i < |OrderText(|f|)| ==> 13 < OrderText(|f|)[i] as int < 256)
    ensures var line := BytesOf(OrderText(|f|)); Order(r, line, f, WORKS) && Installable(r, line, f, WORKS)
  {
    hide LineText, Fresh, Argv, Dec, OrderText, BytesOf, Strtoul;
    OrderWords(|f|);
    TextOfBytes(OrderText(|f|));
    AtoiOfDec(|f|);
  }

  /** An order that is the first thing on the connection. */
  lemma FirstOrder(r: Ref, after: U.Disk, line: Bytes, f: Bytes, cuts: seq<nat>, env: Env)
    requires Order(r, line, f, env)
    ensures Sent(line + [NEWLINE] + f, cuts, [], [], line, f, cuts) && Serves(r, line + [NEWLINE] + f, [], [], line, f, env)
    ensures Comes(r, after, [], line, f, cuts, env) ==>
              Outcome(Delivers(cuts, |line|, |line| + 1 + |f|) && Installable(r, line, f, env),
                      r.core.up.disk, after, env.link(r.pos + |line|), f)
  {
    hide Order, Installable, Outcome, Delivers;
    var stream := line + [NEWLINE] + f;
    assert [] + stream == stream && [] + cuts == cuts;
  }

  lemma TwoSegmentsDeliver(size: nat, n: nat)
    requires size < LINE_LIMIT && 0 < n <= IBUF
    ensures Delivers([size + 1, n], size, size + 1 + n)
  {
    var cuts := [size + 1, n];
    assert cuts[..1] == [size + 1] && cuts[..0] == [];
    assert [size + 1][..0] == [];
    assert Phases([size + 1], size, size + 1 + n) == Raw(size + 1, 0);
  }

  /**
   With everything working, an executable of at most 16384 bytes sent in one segment with its order is lost;
   with a recv between the two it is installed.
   */
  method SentAtOnce(disk: U.Disk, f: Bytes) returns (whole: U.Disk, parts: U.Disk)
    requires U.IsElf(f) && |f| <= IBUF
    ensures OnlyAt(disk, whole, U.New(ROUTER))
    ensures ROUTER in parts && parts[ROUTER] == f
  {
    hide Fold, Order, Installable, Comes, Serves, Sent, Delivers, Phases, OnlyAt, Fresh, UploadedIn, Temporary, SameAt, Dec, OrderText, BytesOf, U.New;
    OrderWords(|f|);
    var line := BytesOf(OrderText(|f|));
    var stream := line + [NEWLINE] + f;
    ghost var r, q;
    var conf, tmp;
    whole, conf, tmp, r := Connection(disk, true, stream, [|stream|], WORKS);
    OrderIsAccepted(r, f);
    FirstOrder(r, whole, line, f, [|stream|], WORKS);
    OneSegmentLoses([|stream|], |line|, |stream|);
    parts, conf, tmp, q := Connection(disk, true, stream, [|line| + 1, |f|], WORKS);
    OrderIsAccepted(q, f);
    FirstOrder(q, parts, line, f, [|line| + 1, |f|], WORKS);
    TwoSegmentsDeliver(|line|, |f|);
  }

  /** `putconf <n>`. */
  function PutText(n: nat): string {
    "putconf " + Dec(n)
  }

  lemma LineOfTwo(a: string, b: string)
    ensures Text.Line([a, b]) == a + " " + b
  {
    assert [a, b][1..] == [b];
    assert Text.Line([b]) == b;
  }

  lemma PutWords(n: nat)
    requires n <= MAX_CONF
    ensures var text := PutText(n);
            Argv(text) == ["putconf", Dec(n)] && |text| <= 16 && (forall i :: 0 <= i < |text| ==> 13 < text[i] as int < 256)
  {
    hide Dec, Text.Line, Words;
    var ws, digits := ["putconf", Dec(n)], Dec(n);
    DecLen(n, 8);
    LineOfTwo("putconf", digits);
    assert PutText(n) == "putconf" + " " + digits;
    assert forall i :: 0 <= i < |digits| ==> Digit(digits[i]);
    Text.WordsOfLine(ws, 24);
  }

  lemma PutIsOrdered(r: Ref, f: Bytes)
    requires Fresh(r) && r.core.authed && 0 < |f| <= MAX_CONF
    ensures |PutText(|f|)| <= 16 && (forall i :: 0 <= i < |PutText(|f|)| ==> 13 < PutText(|f|)[i] as int < 256)
    ensures var line := BytesOf(PutText(|f|)); C.PutOrder(r, line, f, WORKS) && C.Lands(r, line, f, WORKS)
  {
    hide LineText, Fresh, Argv, Dec, PutText, BytesOf, Strtoul;
    PutWords(|f|);
    TextOfBytes(PutText(|f|));
    AtoiOfDec(|f|);
  }

  lemma FirstPut(r: Ref, line: Bytes, f: Bytes, cuts: seq<nat>, env: Env)
    requires C.PutOrder(r, line, f, env)
    ensures Sent(line + [NEWLINE] + f, cuts, [], [], line, f, cuts) && C.PutServed(r, line + [NEWLINE] + f, [], [], line, f, env)
    ensures C.ConfAfter(r, [], line, f, cuts, env) ==
              if Delivers(cuts, |line|, |line| + 1 + |f|) && C.Lands(r, line, f, env) then Some(f) else r.core.conf
  {
    hide C.PutOrder, C.Lands, Delivers;
    var stream := line + [NEWLINE] + f;
    assert [] + stream == stream && [] + cuts == cuts;
  }

  /** The same for a configuration: behind its order it is installed if a recv comes between, and lost if none does. */
  method PutAtOnce(disk: U.Disk, f: Bytes) returns (whole: Option<Bytes>, parts: Option<Bytes>)
    requires 0 < |f| <= IBUF
    ensures whole.None? && parts == Some(f)
  {
    hide Fold, C.PutOrder, C.PutServed, C.ConfAfter, C.Lands, Sent, Delivers, Phases, Fresh, Dec, PutText, BytesOf, C.PutIn, Comes, Serves,
         UploadedIn, Temporary, SameAt, A.Given;
    PutWords(|f|);
    var line := BytesOf(PutText(|f|));
    var stream := line + [NEWLINE] + f;
    ghost var r, q;
    var after, tmp;
    after, whole, tmp, r := Connection(disk, true, stream, [|stream|], WORKS);
    PutIsOrdered(r, f);
    FirstPut(r, line, f, [|stream|], WORKS);
    OneSegmentLoses([|stream|], |line|, |stream|);
    after, parts, tmp, q := Connection(disk, true, stream, [|line| + 1, |f|], WORKS);
    PutIsOrdered(q, f);
    FirstPut(q, line, f, [|line| + 1, |f|], WORKS);
    TwoSegmentsDeliver(|line|, |f|);
  }
}
