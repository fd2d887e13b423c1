/**
 The text the router reads and prints (src/utils.c and the C library calls it leans on): words, decimal
 numbers, dotted addresses. A C string is the characters before its NUL.
 */
module Text {
  import opened Basics

  // ---------------------------------------------------------------- words

  predicate Blank(c: char) {
    c == ' ' || c == '\t' || c == '\r' || c == '\n'
  }

  predicate BlankFree(s: string) {
    forall i :: 0 <= i < |s| ==> !Blank(s[i])
  }

  function Trimmed(s: string): (t: string)
    ensures |t| <= |s| && (t != "" ==> !Blank(t[0]))
  {
    if s != "" && Blank(s[0]) then Trimmed(s[1..]) else s
  }

  /** The length of the first word. */
  function WordLen(s: string): (n: nat)
    ensures n <= |s| && BlankFree(s[..n]) && (n < |s| ==> Blank(s[n]))
  {
    if s == "" || Blank(s[0]) then 0
    else
      var n := 1 + WordLen(s[1..]);
      assert s[..n] == [s[0]] + s[1..][..n - 1];
      n
  }

  /** The words of a string; the last of max words is all that is left, blanks and all. */
  function Words(s: string, max: nat): (ws: seq<string>)
    ensures |ws| <= max
    ensures forall i :: 0 <= i < |ws| ==> ws[i] != "" && (i < max - 1 ==> BlankFree(ws[i]))
    decreases max
  {
    var t := Trimmed(s);
    if t == "" || max == 0 then []
    else if max == 1 then [t]
    else [t[..WordLen(t)]] + Words(t[WordLen(t)..], max - 1)
  }

  lemma {:induction false} TrimmedFrom(s: string, p: nat)
    requires p <= |s| && forall i :: 0 <= i < p ==> Blank(s[i])
    ensures Trimmed(s) == Trimmed(s[p..])
  {
    if p > 0 {
      TrimmedFrom(s[1..], p - 1);
      assert s[1..][p - 1..] == s[p..];
    }
  }

  lemma {:induction false} WordLenIs(s: string, n: nat)
    requires n <= |s| && BlankFree(s[..n]) && (n < |s| ==> Blank(s[n]))
    ensures WordLen(s) == n
  {
    if n > 0 {
      assert !Blank(s[..n][0]);
      assert s[1..][..n - 1] == s[..n][1..];
      WordLenIs(s[1..], n - 1);
    }
  }

  // ---------------------------------------------------------------- tok_split, in place

  const NUL := '\0'

  /** The buffer holds the text from p on, and its terminator. */
  predicate HoldsFrom(b: seq<char>, t: string, p: nat) {
    p <= |t| < |b| && b[p..|t|] == t[p..] && b[|t|] == NUL && NUL !in t
  }

  /** The C string at an offset of the buffer is w. */
  predicate Spells(b: seq<char>, p: nat, w: string) {
    p + |w| < |b| && b[p..p + |w|] == w && b[p + |w|] == NUL && NUL !in w
  }

  /** The C string at an offset, which ends in the buffer. */
  function CString(b: seq<char>, p: nat): (w: string)
    requires p < |b| && NUL in b[p..]
    ensures Spells(b, p, w)
    decreases |b| - p
  {
    if b[p] == NUL then ""
    else
      assert b[p..][1..] == b[p + 1..];
      var w := CString(b, p + 1);
      assert b[p..p + 1 + |w|] == [b[p]] + b[p + 1..p + 1 + |w|];
      [b[p]] + w
  }

  lemma SpellsNoLonger(b: seq<char>, p: nat, v: string, w: string)
    requires Spells(b, p, v) && Spells(b, p, w)
    ensures |w| <= |v|
  {
    assert forall i :: 0 <= i < |w| ==> w[i] == b[p..p + |w|][i] && w[i] in w;
  }

  lemma SpellsOnce(b: seq<char>, p: nat, v: string, w: string)
    requires Spells(b, p, v) && Spells(b, p, w)
    ensures v == w
  {
    SpellsNoLonger(b, p, v, w);
    SpellsNoLonger(b, p, w, v);
  }

  lemma HeldAt(b: seq<char>, t: string, p: nat, i: nat)
    requires HoldsFrom(b, t, p) && p <= i < |t|
    ensures b[i] == t[i]
  {
    assert b[p..|t|][i - p] == t[p..][i - p];
  }

  /** The inner loops of tok_split. */
  method SkipBlanks(s: array<char>, p: nat, ghost t: string) returns (q: nat)
    requires HoldsFrom(s[..], t, p)
    ensures p <= q <= |t| && (forall i :: p <= i < q ==> Blank(t[i])) && (q < |t| ==> !Blank(t[q]))
  {
    q := p;
    while Blank(s[q])
      invariant p <= q <= |t| && forall i :: p <= i < q ==> Blank(t[i])
      decreases |t| - q
    {
      assert q < |t|;
      HeldAt(s[..], t, p, q);
      q := q + 1;
    }
    if q < |t| {
      HeldAt(s[..], t, p, q);
    }
  }

  method SkipWord(s: array<char>, q: nat, ghost t: string) returns (e: nat)
    requires HoldsFrom(s[..], t, q)
    ensures q <= e <= |t| && (forall i :: q <= i < e ==> !Blank(t[i])) && (e < |t| ==> Blank(t[e]))
  {
    e := q;
    while s[e] != NUL && !Blank(s[e])
      invariant q <= e <= |t| && forall i :: q <= i < e ==> !Blank(t[i])
      decreases |t| - e
    {
      assert e < |t|;
      HeldAt(s[..], t, q, e);
      e := e + 1;
    }
    if e < |t| {
      assert t[e] in t;
      HeldAt(s[..], t, q, e);
    }
  }

  /** What one turn of tok_split finds: no word, the last one it has room for, or a word and where to go on. */
  datatype Token = NoToken | LastToken(q: nat) | OneToken(q: nat, e: nat, next: nat)

  /** The words found so far stand in the buffer, and end before p. */
  predicate Stand(b: seq<char>, argv: seq<nat>, ws: seq<string>, p: nat) {
    |argv| == |ws| && forall i :: 0 <= i < |argv| ==> Spells(b, argv[i], ws[i]) && argv[i] + |ws[i]| <= p
  }

  lemma EndReached(b: seq<char>, t: string, p: nat)
    requires HoldsFrom(b, t, p) && b[p] == NUL
    ensures p == |t|
  {
    if p < |t| {
      assert t[p] in t;
      HeldAt(b, t, p, p);
    }
  }

  lemma HoldsLater(b: seq<char>, t: string, p: nat, q: nat)
    requires HoldsFrom(b, t, p) && p <= q <= |t|
    ensures HoldsFrom(b, t, q)
  {
    assert b[q..|t|] == b[p..|t|][q - p..] && t[q..] == t[p..][q - p..];
  }

  lemma HoldsBehind(b: seq<char>, t: string, e: nat)
    requires HoldsFrom(b, t, e) && e < |t|
    ensures HoldsFrom(b[e := NUL], t, e + 1)
  {
    HoldsLater(b, t, e, e + 1);
    assert b[e := NUL][e + 1..|t|] == b[e + 1..|t|];
  }

  /** One turn: it cuts the word off with a NUL, and leaves everything else in the buffer alone. */
  method NextToken(s: array<char>, p: nat, room: nat, ghost t: string) returns (tok: Token)
    requires HoldsFrom(s[..], t, p) && p < |t| && room > 0
    modifies s
    ensures match tok
            case NoToken => Words(t[p..], room) == [] && s[..] == old(s[..])
            case LastToken(q) => p <= q < |t| && Words(t[p..], room) == [t[q..]] && s[..] == old(s[..])
            case OneToken(q, e, next) =>
              && room > 1 && p <= q < e <= next <= |t| && Words(t[p..], room) == [t[q..e]] + Words(t[next..], room - 1)
              && s[..] == old(s[..])[e := NUL] && HoldsFrom(s[..], t, next)
  {
    hide Words, Trimmed, WordLen;
    var q := SkipBlanks(s, p, t);
    WordsFrom(t, p, q, room);
    ghost var b := s[..];
    HoldsLater(b, t, p, q);
    if s[q] == NUL {
      EndReached(b, t, q);
      return NoToken;
    }
    assert q < |t|;
    if room == 1 {
      return LastToken(q);
    }
    var e := SkipWord(s, q, t);
    HeldAt(b, t, q, q);
    NextWord(t, q, e, room);
    HoldsLater(b, t, q, e);
    if s[e] == NUL {
      EndReached(b, t, e);
      assert b[e := NUL] == b;
      return OneToken(q, e, e);
    }
    assert e < |t|;
    s[e] := NUL;
    assert s[..] == b[e := NUL];
    HoldsBehind(b, t, e);
    return OneToken(q, e, e + 1);
  }

  lemma StandsOn(b: seq<char>, argv: seq<nat>, ws: seq<string>, p: nat, e: nat)
    requires Stand(b, argv, ws, p) && p < e < |b|
    ensures Stand(b[e := NUL], argv, ws, p)
  {
    forall i | 0 <= i < |argv| ensures Spells(b[e := NUL], argv[i], ws[i]) {
      assert Spells(b, argv[i], ws[i]);
      assert b[e := NUL][argv[i]..argv[i] + |ws[i]|] == b[argv[i]..argv[i] + |ws[i]|];
    }
  }

  lemma OneMoreStands(b: seq<char>, argv: seq<nat>, ws: seq<string>, p: nat, q: nat, w: string, next: nat)
    requires Stand(b, argv, ws, p) && p <= next && Spells(b, q, w) && q + |w| <= next
    ensures Stand(b, argv + [q], ws + [w], next)
  {
    hide Spells;
    assert forall i :: 0 <= i < |argv| ==> Spells(b, argv[i], ws[i]) && argv[i] + |ws[i]| <= next;
  }

  /**
   tok_split: each word of the string stands at the offset returned for it, cut off in place; what lies behind
   the string is untouched.
   */
  method TokSplit(s: array<char>, max: nat) returns (argv: seq<nat>)
    requires max > 0 && NUL in s[..]
    modifies s
    ensures |argv| == |Words(old(CString(s[..], 0)), max)|
    ensures forall i :: 0 <= i < |argv| ==> Spells(s[..], argv[i], Words(old(CString(s[..], 0)), max)[i])
    ensures s[|old(CString(s[..], 0))|..] == old(s[|CString(s[..], 0)|..])
  {
    hide Words, Spells, CString, Stand, HoldsFrom;
    ghost var b0 := s[..];
    assert b0[0..] == b0;
    ghost var t := CString(b0, 0);
    TextIsHeld(b0, t);
    argv := [];
    var p, more := 0, true;
    ghost var done: seq<string> := [];
    StandNothing(b0);
    assert [] + Words(t, max) == Words(t, max);
    while more && s[p] != NUL
      invariant p <= |t| < s.Length == |b0| && s[|t|..] == b0[|t|..]
      invariant if more then HoldsFrom(s[..], t, p) && |argv| < max && Words(t, max) == done + Words(t[p..], max - |argv|)
                else Words(t, max) == done
      invariant Stand(s[..], argv, done, if more then p else |t|)
      decreases more, |t| - p
    {
      more, argv, p, done := SplitOne(s, max, argv, p, t, done);
    }
    StandsAre(s[..], argv, done, if more then p else |t|);
    if more {
      EndReached(s[..], t, p);
      assert t[|t|..] == "";
      NoWords(max - |argv|);
      assert done + [] == done;
    }
  }

  /** The body of the loop of tok_split: it goes on behind the word it cut off, or stops. */
  method SplitOne(s: array<char>, max: nat, argv: seq<nat>, p: nat, ghost t: string, ghost done: seq<string>)
    returns (more: bool, argv': seq<nat>, p': nat, ghost done': seq<string>)
    requires HoldsFrom(s[..], t, p) && p < |t| && |argv| < max && Stand(s[..], argv, done, p)
    requires Words(t, max) == done + Words(t[p..], max - |argv|)
    modifies s
    ensures p <= p' <= |t| && s[|t|..] == old(s[|t|..]) && Stand(s[..], argv', done', if more then p' else |t|)
    ensures if more then p < p' && HoldsFrom(s[..], t, p') && |argv'| < max && Words(t, max) == done' + Words(t[p'..], max - |argv'|)
            else Words(t, max) == done'
  {
    hide Words, Spells, CString, Stand;
    ghost var b := s[..];
    StandsAre(b, argv, done, p);
    more, argv', p', done' := false, argv, p, done;
    var tok := NextToken(s, p, max - |argv|, t);
    match tok
    case NoToken =>
      StandLater(b, argv, done, p, |t|);
      assert done + [] == done;
    case LastToken(q) =>
      HeldSpells(b, t, p, q);
      OneMoreStands(b, argv, done, p, q, t[q..], |t|);
      argv', done' := argv + [q], done + [t[q..]];
    case OneToken(q, e, next) =>
      ghost var left := Words(t[next..], max - |argv| - 1);
      assert done + ([t[q..e]] + left) == done + [t[q..e]] + left;
      StandsOn(b, argv, done, p, e);
      CutSpells(b, t, p, q, e);
      OneMoreStands(s[..], argv, done, p, q, t[q..e], next);
      more, argv', p', done' := true, argv + [q], next, done + [t[q..e]];
      assert e == |t| ==> b[e] == NUL;
  }

  lemma TextIsHeld(b: seq<char>, t: string)
    requires NUL in b[0..] && b != [] && t == CString(b, 0)
    ensures HoldsFrom(b, t, 0) && t[0..] == t && |t| < |b|
  {
    HoldsAll(b, t);
    assert t[0..] == t;
  }

  lemma StandLater(b: seq<char>, argv: seq<nat>, ws: seq<string>, p: nat, q: nat)
    requires Stand(b, argv, ws, p) && p <= q
    ensures Stand(b, argv, ws, q)
  {
    hide Spells;
    assert forall i :: 0 <= i < |argv| ==> Spells(b, argv[i], ws[i]) && argv[i] + |ws[i]| <= p;
  }

  lemma StandNothing(b: seq<char>)
    ensures Stand(b, [], [], 0)
  {}

  lemma StandsAre(b: seq<char>, argv: seq<nat>, ws: seq<string>, p: nat)
    requires Stand(b, argv, ws, p)
    ensures |argv| == |ws| && forall i :: 0 <= i < |argv| ==> Spells(b, argv[i], ws[i])
  {
    hide Spells;
  }

  lemma HoldsAll(b: seq<char>, t: string)
    requires Spells(b, 0, t)
    ensures HoldsFrom(b, t, 0)
  {
    assert t[0..] == t;
  }

  /** The rest of the string as the last word. */
  lemma HeldSpells(b: seq<char>, t: string, p: nat, q: nat)
    requires HoldsFrom(b, t, p) && p <= q <= |t|
    ensures Spells(b, q, t[q..])
  {
    forall i | q <= i < |t| ensures b[i] == t[i] {
      HeldAt(b, t, p, i);
    }
    assert b[q..|t|] == t[q..];
  }

  /** A word cut off. */
  lemma CutSpells(b: seq<char>, t: string, p: nat, q: nat, e: nat)
    requires HoldsFrom(b, t, p) && p <= q < e <= |t|
    ensures Spells(b[e := NUL], q, t[q..e])
  {
    forall i | q <= i < e ensures b[e := NUL][i] == t[i] {
      HeldAt(b, t, p, i);
    }
    assert b[e := NUL][q..e] == t[q..e];
  }

  /** A copy of the string is split, and the words are read out of it. */
  method SplitCopy(s: string, max: nat) returns (ws: seq<string>)
    requires max > 0 && NUL !in s
    ensures ws == Words(s, max)
  {
    hide Words, CString, Spells;
    var buf := new char[|s| + 1](i requires 0 <= i <= |s| => if i < |s| then s[i] else NUL);
    StringSpells(buf[..], s);
    var argv := TokSplit(buf, max);
    var b := buf[..];
    ws := [];
    for i := 0 to |argv|
      invariant ws == Words(s, max)[..i]
    {
      SpellsEnds(b, argv[i], Words(s, max)[i]);
      var w := CString(b, argv[i]);
      CStringIs(b, argv[i], Words(s, max)[i]);
      ws := ws + [w];
    }
  }

  lemma CStringIs(b: seq<char>, p: nat, w: string)
    requires Spells(b, p, w) && p < |b| && NUL in b[p..]
    ensures CString(b, p) == w
  {
    SpellsOnce(b, p, CString(b, p), w);
  }

  lemma StringSpells(b: seq<char>, s: string)
    requires b == s + [NUL] && NUL !in s
    ensures NUL in b && NUL in b[0..] && CString(b, 0) == s
  {
    assert b[|s|] == NUL && b[0..] == b && b[0..|s|] == s;
    SpellsOnce(b, 0, CString(b, 0), s);
  }

  lemma SpellsEnds(b: seq<char>, p: nat, w: string)
    requires Spells(b, p, w)
    ensures p < |b| && NUL in b[p..]
  {
    assert b[p..][|w|] == NUL;
  }

  lemma NoWords(max: nat)
    ensures Words("", max) == []
  {}

  lemma WordsFrom(s: string, p: nat, q: nat, max: nat)
    requires p <= q <= |s| && forall i :: p <= i < q ==> Blank(s[i])
    requires q < |s| ==> !Blank(s[q])
    ensures Words(s[p..], max) == Words(s[q..], max)
    ensures q == |s| ==> Words(s[q..], max) == []
    ensures q < |s| && max == 1 ==> Words(s[q..], max) == [s[q..]]
  {
    assert forall i :: 0 <= i < q - p ==> s[p..][i] == s[p + i];
    TrimmedFrom(s[p..], q - p);
    assert s[p..][q - p..] == s[q..];
  }

  lemma NextWord(s: string, q: nat, e: nat, max: nat)
    requires q < e <= |s| && max > 1 && (forall i :: q <= i < e ==> !Blank(s[i])) && (e < |s| ==> Blank(s[e]))
    ensures Words(s[q..], max) == [s[q..e]] + Words(s[if e < |s| then e + 1 else e..], max - 1)
  {
    var t := s[q..];
    assert t[..e - q] == s[q..e] && t[e - q..] == s[e..];
    WordLenIs(t, e - q);
    assert Trimmed(t) == t;
    if e < |s| {
      assert s[e..][1..] == s[e + 1..];
      assert Trimmed(s[e..]) == Trimmed(s[e + 1..]);
    }
  }

  /** Words with one space between them. */
  function Line(ws: seq<string>): string {
    if ws == [] then "" else if |ws| == 1 then ws[0] else ws[0] + " " + Line(ws[1..])
  }

  predicate AreWords(ws: seq<string>) {
    forall i :: 0 <= i < |ws| ==> ws[i] != "" && BlankFree(ws[i])
  }

  lemma WordThenBlank(w: string, rest: string)
    requires w != "" && BlankFree(w) && (rest == "" || Blank(rest[0]))
    ensures var l := w + rest; Trimmed(l) == l != "" && WordLen(l) == |w| <= |l| && l[..|w|] == w && l[|w|..] == rest
  {
    var l := w + rest;
    assert l[0] == w[0] && !Blank(w[0]);
    assert l[..|w|] == w;
    WordLenIs(l, |w|);
  }

  lemma LineStarts(ws: seq<string>)
    requires AreWords(ws) && ws != []
    ensures var l, w := Line(ws), ws[0];
            && Trimmed(l) == l != "" && WordLen(l) == |w| <= |l| && l[..|w|] == w
            && l[|w|..] == if |ws| == 1 then "" else " " + Line(ws[1..])
  {
    hide WordLen, Trimmed, BlankFree;
    var rest := if |ws| == 1 then "" else " " + Line(ws[1..]);
    assert Line(ws) == ws[0] + rest;
    WordThenBlank(ws[0], rest);
  }

  lemma BlankInFront(s: string, max: nat)
    ensures Words(" " + s, max) == Words(s, max)
  {
    assert (" " + s)[1..] == s;
  }

  lemma FirstOfWords(s: string, w: string, rest: string, max: nat)
    requires max > 1 && Trimmed(s) == s != "" && WordLen(s) == |w| <= |s| && s[..|w|] == w && s[|w|..] == rest
    ensures Words(s, max) == [w] + Words(rest, max - 1)
  {}

  lemma LastWord(s: string)
    requires Trimmed(s) == s != ""
    ensures Words(s, 1) == [s]
  {}

  lemma NoMoreWords(max: nat)
    ensures Words("", max) == []
  {}

  /** Splitting a line gives back the words it was made of. */
  lemma {:induction false} WordsOfLine(ws: seq<string>, max: nat)
    requires AreWords(ws) && |ws| <= max
    ensures Words(Line(ws), max) == ws
  {
    hide Words, WordLen, Trimmed, BlankFree;
    if ws == [] {
      NoMoreWords(max);
    } else {
      var l, w, later := Line(ws), ws[0], ws[1..];
      LineStarts(ws);
      WordsOfLine(later, max - 1);
      hide Line;
      if max == 1 {
        LastWord(l);
      } else {
        FirstOfWords(l, w, l[|w|..], max);
        if later == [] {
          NoMoreWords(max - 1);
        } else {
          BlankInFront(Line(later), max - 1);
        }
      }
    }
  }

  lemma {:induction false} LineConcat(a: seq<string>, b: seq<string>)
    ensures Line(a + b) == if a == [] then Line(b) else if b == [] then Line(a) else Line(a) + " " + Line(b)
  {
    if a == [] {
      assert a + b == b;
    } else if b == [] {
      assert a + b == a;
    } else {
      assert (a + b)[1..] == a[1..] + b;
      LineConcat(a[1..], b);
    }
  }

  // ---------------------------------------------------------------- decimal numbers

  predicate Digit(c: char) {
    '0' <= c <= '9'
  }

  function DigitValue(c: char): (d: nat)
    requires Digit(c)
    ensures d < 10
  {
    c as int - '0' as int
  }

  predicate AllDigits(s: string) {
    forall i :: 0 <= i < |s| ==> Digit(s[i])
  }

  function Value(s: string): nat
    requires AllDigits(s)
  {
    if s == "" then 0 else 10 * Value(s[..|s| - 1]) + DigitValue(s[|s| - 1])
  }

  /** %u and %d of a number that is not negative. */
  function Dec(n: nat): (s: string)
    ensures s != "" && AllDigits(s)
  {
    if n < 10 then ['0' + n as char] else Dec(n / 10) + ['0' + (n % 10) as char]
  }

  /** %d. */
  function DecInt(n: int): string {
    if n < 0 then "-" + Dec(-n) else Dec(n)
  }

  lemma {:induction false} ValueOfDec(n: nat)
    ensures Value(Dec(n)) == n
  {
    if n >= 10 {
      ValueOfDec(n / 10);
      assert Dec(n)[..|Dec(n)| - 1] == Dec(n / 10);
    } else {
      assert Dec(n)[..0] == "";
    }
  }

  lemma {:induction false} DecLen(n: nat, k: nat)
    requires k > 0 && n < Pow10(k)
    ensures |Dec(n)| <= k
  {
    if n >= 10 {
      DecLen(n / 10, k - 1);
    }
  }

  function Pow10(k: nat): nat {
    if k == 0 then 1 else 10 * Pow10(k - 1)
  }

  function DigitsLen(s: string): (n: nat)
    ensures n <= |s| && AllDigits(s[..n]) && (n < |s| ==> !Digit(s[n]))
  {
    if s == "" || !Digit(s[0]) then 0
    else
      var n := 1 + DigitsLen(s[1..]);
      assert s[..n] == [s[0]] + s[1..][..n - 1];
      n
  }

  lemma {:induction false} DigitsLenIs(s: string, n: nat)
    requires n <= |s| && AllDigits(s[..n]) && (n < |s| ==> !Digit(s[n]))
    ensures DigitsLen(s) == n
  {
    if n > 0 {
      assert Digit(s[..n][0]);
      assert s[1..][..n - 1] == s[..n][1..];
      DigitsLenIs(s[1..], n - 1);
    }
  }

  /** isspace. */
  predicate Space(c: char) {
    c == ' ' || '\t' <= c <= '\r'
  }

  function SkipSpace(s: string): (t: string)
    ensures |t| <= |s|
  {
    if s != "" && Space(s[0]) then SkipSpace(s[1..]) else s
  }

  datatype Number = NoNumber | Number(neg: bool, mag: nat, rest: string)

  /** What strtol, strtoul, %d and %u read: space, a sign, digits. */
  function Read(s: string): Number {
    var t := SkipSpace(s);
    var neg := t != "" && t[0] == '-';
    var u := if t != "" && (t[0] == '-' || t[0] == '+') then t[1..] else t;
    var n := DigitsLen(u);
    if n == 0 then NoNumber else Number(neg, Value(u[..n]), u[n..])
  }

  /** Printed numbers are read back, whatever follows them. */
  lemma ReadDec(n: nat, rest: string)
    requires rest == "" || !Digit(rest[0])
    ensures Read(Dec(n) + rest) == Number(false, n, rest)
  {
    var d := Dec(n);
    var s := d + rest;
    assert Digit(d[0]) && s[0] == d[0];
    assert SkipSpace(s) == s;
    assert s[..|d|] == d && s[|d|..] == rest;
    DigitsLenIs(s, |d|);
    ValueOfDec(n);
  }

  const ULONG_MAX := 0xFFFF_FFFF_FFFF_FFFF
  const LONG_MAX := 0x7FFF_FFFF_FFFF_FFFF

  /** The 64-bit results of strtoul and strtol, which saturate. */
  function Unsigned(neg: bool, mag: nat): (v: nat)
    ensures v <= ULONG_MAX
  {
    if mag > ULONG_MAX then ULONG_MAX
    else if neg && mag > 0 then ULONG_MAX + 1 - mag
    else mag
  }

  function Signed(neg: bool, mag: nat): int {
    if neg then (if mag > LONG_MAX then -LONG_MAX - 1 else 0 - mag)
    else if mag > LONG_MAX then LONG_MAX
    else mag
  }

  /** The low 32 bits, as an int. */
  function Int32(v: int): (i: int)
    ensures -0x8000_0000 <= i < 0x8000_0000
  {
    (v + 0x8000_0000) % 0x1_0000_0000 - 0x8000_0000
  }

  function Strtoul(s: string): nat {
    match Read(s)
    case NoNumber => 0
    case Number(neg, mag, _) => Unsigned(neg, mag)
  }

  function Atoi(s: string): int {
    match Read(s)
    case NoNumber => 0
    case Number(neg, mag, _) => Int32(Signed(neg, mag))
  }

  lemma AtoiOfDec(n: nat)
    requires n < 0x8000_0000
    ensures Atoi(Dec(n)) == n && Strtoul(Dec(n)) == n
  {
    ReadDec(n, "");
    hide Dec, Read;
    assert Dec(n) + "" == Dec(n);
    assert Int32(n) == n;
    hide Int32;
  }

  // ---------------------------------------------------------------- addresses

  /** One %u followed by a dot or by the end. */
  function ReadByte(s: string, last: bool): Option<(Byte, string)> {
    match Read(s)
    case NoNumber => None
    case Number(neg, mag, rest) =>
      var v := Unsigned(neg, mag) % 0x1_0000_0000;
      if v > 255 || (if last then rest != "" else rest == "" || rest[0] != '.') then None
      else Some((v, if last then "" else rest[1..]))
  }

  /** str_to_ip: four numbers up to 255 with dots between them and nothing behind. */
  function StrToIp(s: string): Option<Ip> {
    var a := ReadByte(s, false);
    if a.None? then None
    else
      var b := ReadByte(a.value.1, false);
      if b.None? then None
      else
        var c := ReadByte(b.value.1, false);
        if c.None? then None
        else
          var d := ReadByte(c.value.1, true);
          if d.None? then None
          else Some(Be32(a.value.0, b.value.0, c.value.0, d.value.0))
  }

  /** ip_to_str. */
  function IpToStr(ip: Ip): string {
    var b := ToBytes32(ip);
    Dec(b[0]) + "." + (Dec(b[1]) + "." + (Dec(b[2]) + "." + Dec(b[3])))
  }

  lemma ReadPrintedByte(b: Byte, rest: string)
    ensures ReadByte(Dec(b) + "." + rest, false) == Some((b, rest))
  {
    hide Dec, Read, ReadByte;
    ReadDec(b, "." + rest);
    DotBetween(Dec(b), rest);
    ReadByteIs(Dec(b) + "." + rest, b, "." + rest, false);
  }

  lemma DotBetween(a: string, rest: string)
    ensures a + ("." + rest) == a + "." + rest && "." + rest != "" && ("." + rest)[0] == '.' && ("." + rest)[1..] == rest
    ensures a + "" == a
  {}

  lemma ReadLastByte(b: Byte)
    ensures ReadByte(Dec(b), true) == Some((b, ""))
  {
    hide *;
    ReadDec(b, "");
    DotBetween(Dec(b), "");
    ReadByteIs(Dec(b), b, "", true);
  }

  lemma ReadByteIs(s: string, b: Byte, rest: string, last: bool)
    requires Read(s) == Number(false, b, rest) && if last then rest == "" else rest != "" && rest[0] == '.'
    ensures ReadByte(s, last) == Some((b, if last then "" else rest[1..]))
  {
    hide Read;
    assert Unsigned(false, b) % 0x1_0000_0000 == b;
  }

  /** Printed addresses are read back. */
  lemma IpRoundTrip(ip: Ip)
    ensures StrToIp(IpToStr(ip)) == Some(ip)
  {
    var b := ToBytes32(ip);
    hide Dec, ReadByte, Be32, ToBytes32;
    var t3 := Dec(b[3]);
    var t2 := Dec(b[2]) + "." + t3;
    var t1 := Dec(b[1]) + "." + t2;
    ReadPrintedByte(b[0], t1);
    ReadPrintedByte(b[1], t2);
    ReadPrintedByte(b[2], t3);
    ReadLastByte(b[3]);
    Be32OfBytes(ip);
  }
}
