/**
 The online upgrade (src/upgrade.c): an upload session writes <exe>.new, checks it, and renames it over
 the executable. The disk is a map from paths to bytes; every call that can fail takes its outcome as a parameter.
 */
module Upgrade {
  import opened Basics
  import Sha = Sha256

  const MAX_UPLOAD := 8 * 1024 * 1024

  type Bytes = seq<Byte>
  type Disk = map<string, Bytes>

  // ---------------------------------------------------------------- hexadecimal digests

  function HexDigit(c: char): (d: int)
    ensures -1 <= d < 16
  {
    if '0' <= c <= '9' then c as int - '0' as int
    else if 'a' <= c <= 'f' then c as int - 'a' as int + 10
    else if 'A' <= c <= 'F' then c as int - 'A' as int + 10
    else -1
  }

  const LOWER := "0123456789abcdef"
  const UPPER := "0123456789ABCDEF"

  /** A digit stands for its place among the sixteen, in either case; no other character is a digit. */
  lemma DigitsAre(c: char)
    ensures HexDigit(c) >= 0 <==> c in LOWER || c in UPPER
    ensures forall d: nat :: d < 16 && (LOWER[d] == c || UPPER[d] == c) ==> HexDigit(c) == d
  {
    var d := HexDigit(c);
    if d >= 0 {
      assert if c <= '9' || c >= 'a' then c == LOWER[d] else c == UPPER[d];
    }
  }

  /** The two digits at 2i spell b. */
  predicate Spells(s: string, i: nat, b: Byte)
    requires 2 * i + 1 < |s|
  {
    HexDigit(s[2 * i]) >= 0 && HexDigit(s[2 * i + 1]) >= 0 && b == 16 * HexDigit(s[2 * i]) + HexDigit(s[2 * i + 1])
  }

  ghost predicate IsHex(s: string, b: Bytes) {
    |s| == 2 * |b| && forall i: nat :: i < |b| ==> Spells(s, i, b[i])
  }

  /** A text denotes at most one byte string. */
  lemma HexIsUnique(s: string, b: Bytes, c: Bytes)
    requires IsHex(s, b) && IsHex(s, c)
    ensures b == c
  {
    forall i: nat | i < |b| ensures b[i] == c[i] {
      assert Spells(s, i, b[i]) && Spells(s, i, c[i]);
    }
  }

  lemma HexJoins(s: string, b: Bytes, t: string, c: Bytes)
    requires IsHex(s, b) && IsHex(t, c)
    ensures IsHex(s + t, b + c)
  {
    forall i: nat | i < |b + c| ensures Spells(s + t, i, (b + c)[i]) {
      assert if i < |b| then Spells(s, i, b[i]) else Spells(t, i - |b|, c[i - |b|]);
    }
  }

  /** The two lower-case digits sprintf prints for a byte. */
  function DigitChar(d: int): (c: char)
    requires 0 <= d < 16
    ensures HexDigit(c) == d
  {
    if d < 10 then '0' + d as char else 'a' + (d - 10) as char
  }

  /** sha256_hex. */
  function HexText(b: Bytes): (s: string)
    ensures |s| == 2 * |b|
  {
    if b == [] then ""
    else
      var last := b[|b| - 1];
      HexText(b[..|b| - 1]) + [DigitChar(last / 16), DigitChar(last % 16)]
  }

  /** What sha256_hex prints, hex_to_bytes reads back. */
  lemma {:induction false} HexRoundTrip(b: Bytes)
    ensures IsHex(HexText(b), b)
  {
    if b != [] {
      var c := b[..|b| - 1];
      HexRoundTrip(c);
      forall i: nat | i < |b| ensures Spells(HexText(b), i, b[i]) {
        if i < |c| {
          assert Spells(HexText(c), i, c[i]);
        }
      }
    }
  }

  /** The n bytes a text spells, if it spells exactly n. */
  ghost function Decoded(s: string, n: nat): (r: Option<Bytes>)
    ensures r.Some? ==> |r.value| == n && IsHex(s, r.value)
    ensures r.None? ==> forall b: Bytes :: |b| == n ==> !IsHex(s, b)
  {
    if exists b: Bytes :: |b| == n && IsHex(s, b) then
      var b: Bytes :| |b| == n && IsHex(s, b);
      Some(b)
    else None
  }

  /** hex_to_bytes: all of the text is read back, or nothing. */
  method HexToBytes(s: string, n: nat) returns (b: Option<Bytes>)
    ensures b == Decoded(s, n)
  {
    if |s| != 2 * n {
      return None;
    }
    var out: Bytes := [];
    for i := 0 to n
      invariant |out| == i && forall j: nat :: j < i ==> Spells(s, j, out[j])
    {
      var hi, lo := HexDigit(s[2 * i]), HexDigit(s[2 * i + 1]);
      if hi < 0 || lo < 0 {
        forall c: Bytes | |c| == n ensures !IsHex(s, c) {
          assert !Spells(s, i, c[i]);
        }
        return None;
      }
      out := out + [16 * hi + lo];
    }
    assert IsHex(s, out);
    HexIsUnique(s, out, Decoded(s, n).value);
    return Some(out);
  }

  // ---------------------------------------------------------------- sessions as values

  /** What one upload has so far; `digest` is what its bytes must hash to, and `hashed` what went into the hash. */
  datatype Upload = Upload(expected: nat, received: nat, first: Bytes, digest: Option<Bytes>, hashed: Bytes)

  datatype State = State(disk: Disk, exe: string, up: Option<Upload>)

  function New(exe: string): string {
    exe + ".new"
  }

  predicate Checked(sha: Option<string>) {
    sha.Some? && sha.value != "-"
  }

  /** The digest an upload must have: none when it is not checked, Some(None) when the text is bad. */
  ghost function Wanted(sha: Option<string>): Option<Option<Bytes>> {
    if !Checked(sha) then Some(None)
    else if Decoded(sha.value, 32).Some? then Some(Decoded(sha.value, 32))
    else None
  }

  /** upgrade_begin: readlink gives `link` (empty when it fails), fopen works or not. */
  ghost function Begun(s: State, sha: Option<string>, size: nat, link: string, canOpen: bool): (State, bool) {
    if size == 0 || size > MAX_UPLOAD || s.up.Some? || link == "" then (s, false)
    else if !canOpen then (s.(exe := link), false)
    else if Wanted(sha).None? then (State(s.disk[New(link) := []] - {New(link)}, link, None), false)
    else (State(s.disk[New(link) := []], link, Some(Upload(size, 0, [], Wanted(sha).value, []))), true)
  }

  function File(d: Disk, p: string): Bytes {
    if p in d then d[p] else []
  }

  function FirstFour(first: Bytes, data: Bytes): Bytes {
    first + data[..Min(if |first| < 4 then 4 - |first| else 0, |data|)]
  }

  /** upgrade_write, when fwrite takes n bytes. */
  function Wrote(s: State, data: Bytes, n: nat): (State, bool)
    requires s.up.Some? && n <= |data|
  {
    var u := s.up.value;
    if u.received + |data| > u.expected then (s, false)
    else
      var first := FirstFour(u.first, data);
      var disk := s.disk[New(s.exe) := File(s.disk, New(s.exe)) + data[..n]];
      if n != |data| then (State(disk, s.exe, Some(u.(first := first))), false)
      else (State(disk, s.exe, Some(u.(first := first, received := u.received + |data|,
                                         hashed := if u.digest.Some? then u.hashed + data else []))), true)
  }

  const ELF: Bytes := [0x7f, 0x45, 0x4c, 0x46]

  predicate Acceptable(u: Upload) {
    u.received == u.expected && u.first == ELF && (u.digest.Some? ==> Sha.Digest(u.hashed) == u.digest.value)
  }

  /** upgrade_finish: fclose and rename work or not. */
  function Finished(s: State, closed: bool, renamed: bool): (State, bool) {
    if s.up.None? then (s, false)
    else if Acceptable(s.up.value) && closed && renamed then
      (State((s.disk - {New(s.exe)})[s.exe := File(s.disk, New(s.exe))], s.exe, None), true)
    else (Aborted(s), false)
  }

  /** upgrade_abort. */
  function Aborted(s: State): State {
    if s.up.None? then s else State(s.disk - {New(s.exe)}, s.exe, None)
  }

  // ---------------------------------------------------------------- what sessions guarantee

  /** While no write has failed, the session knows exactly the bytes in the new file. */
  ghost predicate Whole(s: State, bytes: Bytes) {
    s.up.Some? && New(s.exe) in s.disk && s.disk[New(s.exe)] == bytes
    && var u := s.up.value;
       u.received == |bytes| <= u.expected && u.first == bytes[..Min(4, |bytes|)] && u.hashed == if u.digest.Some? then bytes else []
  }

  lemma BegunIsWhole(s: State, sha: Option<string>, size: nat, link: string, canOpen: bool)
    ensures var (s', ok) := Begun(s, sha, size, link, canOpen);
            && (ok <==> 0 < size <= MAX_UPLOAD && s.up.None? && link != "" && canOpen && Wanted(sha).Some?)
            && (ok ==> Whole(s', []) && s'.exe == link && s'.up.value.expected == size && Some(s'.up.value.digest) == Wanted(sha))
            && (!ok ==> s'.up == s.up)
            && (forall p :: p != New(link) ==> (p in s'.disk <==> p in s.disk) && (p in s.disk ==> s'.disk[p] == s.disk[p]))
  {}

  lemma NewIsOther(exe: string)
    ensures New(exe) != exe
  {
    assert |New(exe)| == |exe| + 4;
  }

  /** A write that works extends the new file by exactly its bytes; one past the announced size is refused whole. */
  lemma WroteIsWhole(s: State, bytes: Bytes, data: Bytes, n: nat)
    requires Whole(s, bytes) && n <= |data|
    ensures var (s', ok) := Wrote(s, data, n);
            && (ok <==> |bytes| + |data| <= s.up.value.expected && n == |data|)
            && (ok ==> Whole(s', bytes + data) && s'.up.value.expected == s.up.value.expected && s'.up.value.digest == s.up.value.digest)
            && s'.exe == s.exe && s'.up.Some? && s'.disk.Keys == s.disk.Keys
            && (forall p :: p in s.disk && p != New(s.exe) ==> s'.disk[p] == s.disk[p])
  {
    var t := bytes + data;
    assert t[..Min(4, |t|)] == FirstFour(bytes[..Min(4, |bytes|)], data);
    assert data[..|data|] == data;
  }

  predicate IsElf(b: Bytes) {
    |b| >= 4 && b[..4] == ELF
  }

  /** 0x7f and the letters ELF; the new file lies beside the old one. */
  lemma ElfIs(b: Bytes)
    ensures IsElf(b) <==> |b| >= 4 && b[0] == 0x7f && b[1] == 'E' as int && b[2] == 'L' as int && b[3] == 'F' as int
    ensures New("/usr/bin/router") == "/usr/bin/router.new"
  {}

  /**
   The executable is replaced exactly when all announced bytes came, they start with the ELF magic, they
   hash to the announced digest if there is one, and the file could be closed and renamed; it then is those
   bytes. Otherwise the session is closed and every other file, the executable included, is as before.
   */
  lemma FinishInstallsIff(s: State, bytes: Bytes, closed: bool, renamed: bool)
    requires Whole(s, bytes)
    ensures var (s', ok) := Finished(s, closed, renamed);
            var u := s.up.value;
            && (ok <==> |bytes| == u.expected && IsElf(bytes) && (u.digest.Some? ==> Sha.Digest(bytes) == u.digest.value)
                        && closed && renamed)
            && s'.up.None? && New(s.exe) !in s'.disk
            && s'.disk == if ok then (s.disk - {New(s.exe)})[s.exe := bytes] else s.disk - {New(s.exe)}
  {
    NewIsOther(s.exe);
    hide Sha.Digest;
    if |bytes| >= 4 {
      assert bytes[..Min(4, |bytes|)] == bytes[..4];
    }
  }

  /** An upgrade given up leaves every file but the new one as it was, and no other file appears. */
  lemma AbortRestores(s: State)
    ensures Aborted(s).up.None? && (s.up.Some? ==> New(s.exe) !in Aborted(s).disk)
    ensures forall p :: p in s.disk && p != New(s.exe) ==> p in Aborted(s).disk && Aborted(s).disk[p] == s.disk[p]
    ensures forall p :: p in Aborted(s).disk ==> p in s.disk
  {}

  // ---------------------------------------------------------------- the code

  class Session {
    var inProgress: bool
    var exePath: string
    var newPath: string
    var open: bool
    const hc: Sha.Context
    var haveSha: bool
    var wanted: Bytes
    var expected: nat
    var received: nat
    const first4: array<Byte>
    var nfirst: nat
    var disk: Disk

    ghost function Parts(): set<object> {
      {this, hc, hc.state, hc.buf, first4}
    }

    ghost predicate Shape()
      reads this, hc
    {
      first4.Length == 4 && nfirst <= 4 && hc.Shape()
    }

    ghost predicate Valid()
      reads this, hc, hc.state, hc.buf, first4
    {
      && Shape()
      && (inProgress ==>
            && open && newPath == New(exePath) && newPath in disk
            && received <= expected && expected <= MAX_UPLOAD
            && (haveSha ==> hc.Valid() && |wanted| == 32))
    }

    ghost function View(): State
      reads this, hc, first4
    {
      State(disk, exePath,
            if !inProgress then None
            else Some(Upload(expected, received, if nfirst <= first4.Length then first4[..nfirst] else [],
                             if haveSha then Some(wanted) else None, if haveSha then hc.msg else [])))
    }

    constructor (disk: Disk)
      ensures Valid() && View() == State(disk, "", None)
      ensures fresh(hc) && fresh(hc.state) && fresh(hc.buf) && fresh(first4)
    {
      inProgress, exePath, newPath, open, haveSha, wanted, expected, received, nfirst := false, "", "", false, false, [], 0, 0, 0;
      hc := new Sha.Context();
      first4 := new Byte[4](_ => 0);
      this.disk := disk;
    }

    /** The digest argument of upgrade_begin. */
    method TakeDigest(sha: Option<string>) returns (good: bool)
      requires Shape()
      modifies this`haveSha, this`wanted, hc, hc.state
      ensures Shape() && (good <==> Wanted(sha).Some?)
      ensures good ==> Wanted(sha) == Some(if haveSha then Some(wanted) else None)
      ensures good && haveSha ==> hc.Valid() && hc.msg == [] && |wanted| == 32
    {
      hide Sha.Holds;
      haveSha := sha.Some? && sha.value != "-";
      if haveSha {
        var b := HexToBytes(sha.value, 32);
        if b.None? {
          return false;
        }
        wanted := b.value;
        hc.Init();
      }
      return true;
    }

    /** upgrade_begin once the new file is open. */
    method Start(sha: Option<string>, size: nat) returns (ok: bool)
      requires Valid() && !inProgress && newPath == New(exePath) && size <= MAX_UPLOAD
      modifies this`disk, this`open, this`expected, this`received, this`nfirst, this`haveSha, this`wanted, this`inProgress
      modifies hc, hc.state
      ensures Valid() && ok == Wanted(sha).Some? && inProgress == ok
      ensures disk == if ok then old(disk)[newPath := []] else old(disk)[newPath := []] - {newPath}
      ensures ok ==> expected == size && received == 0 && nfirst == 0
      ensures ok ==> Wanted(sha) == Some(if haveSha then Some(wanted) else None) && (haveSha ==> hc.msg == [])
    {
      hide Sha.Holds, Wanted, New;
      StartFile(size);
      ok := TakeDigest(sha);
      if ok {
        inProgress := true;
      } else {
        Cleanup();
      }
    }

    /** fopen, and the counters. */
    method StartFile(size: nat)
      requires Shape()
      modifies this`disk, this`open, this`expected, this`received, this`nfirst
      ensures Shape() && open && disk == old(disk)[newPath := []] && expected == size && received == 0 && nfirst == 0
    {
      disk := disk[newPath := []];
      open := true;
      expected, received, nfirst := size, 0, 0;
    }

    /** upgrade_begin. */
    method Begin(sha: Option<string>, size: nat, link: string, canOpen: bool) returns (ok: bool)
      requires Valid()
      modifies this, hc, hc.state
      ensures Valid() && (View(), ok) == Begun(old(View()), sha, size, link, canOpen)
    {
      hide Sha.Holds, Wanted;
      if size == 0 || size > MAX_UPLOAD {
        return false;
      }
      if inProgress {
        return false;
      }
      if link == "" {
        return false;
      }
      exePath := link;
      newPath := exePath + ".new";
      if !canOpen {
        return false;
      }
      ok := Start(sha, size);
      assert first4[..0] == [];
    }

    /** The memcpy of upgrade_write. */
    method Remember(data: Bytes, first: nat)
      requires first4.Length == 4 && nfirst + first <= 4 && first <= |data|
      modifies this`nfirst, first4
      ensures nfirst == old(nfirst) + first && first4[..nfirst] == old(first4[..nfirst]) + data[..first]
    {
      ghost var was := first4[..nfirst];
      for i := 0 to first
        invariant nfirst == old(nfirst) && first4[..nfirst + i] == was + data[..i]
      {
        first4[nfirst + i] := data[i];
        assert first4[..nfirst + i + 1] == first4[..nfirst + i] + [data[i]];
      }
      nfirst := nfirst + first;
    }

    /** upgrade_write, when fwrite takes n bytes. */
    method Write(data: Bytes, n: nat) returns (ok: bool)
      requires Valid() && inProgress && n <= |data|
      modifies this`received, this`nfirst, this`disk, first4
      modifies hc, hc.state, hc.buf
      ensures Valid() && (View(), ok) == Wrote(old(View()), data, n)
    {
      hide Sha.Holds;
      var first := 4 - nfirst;
      if received + |data| > expected {
        return false;
      }
      if first > |data| {
        first := |data|;
      }
      Remember(data, first);
      disk := disk[newPath := disk[newPath] + data[..n]];
      if n != |data| {
        return false;
      }
      if haveSha {
        hc.Update(data);
      }
      received := received + |data|;
      return true;
    }

    /** upgrade_cleanup_unlocked. */
    method Cleanup()
      requires Shape()
      modifies this`open, this`disk, this`inProgress
      ensures Valid() && !inProgress && disk == old(disk) - {newPath}
    {
      open := false;
      disk := disk - {newPath};
      inProgress := false;
    }

    /** upgrade_finish. */
    method Finish(closed: bool, renamed: bool) returns (ok: bool)
      requires Valid()
      modifies this`open, this`disk, this`inProgress, hc, hc.state, hc.buf
      ensures Valid() && (View(), ok) == Finished(old(View()), closed, renamed)
    {
      hide Sha.Holds, Sha.Digest;
      if !inProgress {
        return false;
      }
      if received != expected {
        Cleanup();
        return false;
      }
      if nfirst < 4 || first4[0] != 0x7f || first4[1] != 0x45 || first4[2] != 0x4c || first4[3] != 0x46 {
        assert first4[..nfirst] != ELF;
        Cleanup();
        return false;
      }
      assert first4[..nfirst] == ELF;
      if haveSha {
        var digest := hc.Final();
        if digest != wanted {
          Cleanup();
          return false;
        }
      }
      if !closed {
        Cleanup();
        return false;
      }
      open := false;
      if !renamed {
        Cleanup();
        return false;
      }
      disk := (disk - {newPath})[exePath := disk[newPath]];
      inProgress := false;
      return true;
    }

    /** upgrade_abort. */
    method Abort()
      requires Valid()
      modifies this`open, this`disk, this`inProgress
      ensures Valid() && View() == Aborted(old(View()))
    {
      if inProgress {
        Cleanup();
      }
    }
  }
}
