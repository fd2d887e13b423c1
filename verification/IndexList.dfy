/**
 Singly linked lists threaded through an array by index: a head, a `next` field per cell,
 and -1 for the end. The ARP buckets, the pending list and the frame chains all have this shape.
 */
module IndexList {
  import opened Basics

  /** The index stored in the link that precedes position j of the list c. */
  function At(c: seq<nat>, j: nat): int {
    if j < |c| then c[j] else -1
  }

  /** Following `next` from `head` visits exactly c and then reaches -1. */
  ghost predicate Linked(head: int, next: seq<int>, c: seq<nat>) {
    && head == At(c, 0)
    && (forall j {:trigger c[j]} :: 0 <= j < |c| ==> c[j] < |next|)
    && (forall j {:trigger next[c[j]]} :: 0 <= j < |c| ==> next[c[j]] == At(c, j + 1))
  }

  ghost predicate Distinct(c: seq<nat>) {
    forall i, j :: 0 <= i < j < |c| ==> c[i] != c[j]
  }

  /** A list that ends is acyclic. */
  lemma {:induction false} LinkedIsAcyclic(head: int, next: seq<int>, c: seq<nat>)
    requires Linked(head, next, c)
    ensures Distinct(c)
  {
    forall i, j | 0 <= i < j < |c| ensures c[i] != c[j] {
      SuffixDiffers(head, next, c, i, j);
    }
  }

  lemma {:induction false} SuffixDiffers(head: int, next: seq<int>, c: seq<nat>, i: nat, j: nat)
    requires Linked(head, next, c) && i < j < |c|
    ensures c[i] != c[j]
    decreases |c| - j
  {
    assert next[c[i]] == c[i + 1] && next[c[j]] == At(c, j + 1);
    if j + 1 < |c| {
      SuffixDiffers(head, next, c, i + 1, j + 1);
    }
  }

  /** The links determine the list. */
  lemma {:induction false} LinkedIsUnique(head: int, next: seq<int>, c: seq<nat>, d: seq<nat>)
    requires Linked(head, next, c) && Linked(head, next, d)
    ensures c == d
    decreases |c|
  {
    if c != [] && d != [] {
      var after := next[head];
      TailLinked(head, next, c);
      TailLinked(head, next, d);
      LinkedIsUnique(after, next, c[1..], d[1..]);
      assert c == [c[0]] + c[1..] && d == [d[0]] + d[1..];
    }
  }

  lemma TailLinked(head: int, next: seq<int>, c: seq<nat>)
    requires Linked(head, next, c) && c != []
    ensures Linked(next[head], next, c[1..])
  {
    var t := c[1..];
    forall j | 0 <= j < |t| ensures t[j] < |next| && next[t[j]] == At(t, j + 1) {
      assert t[j] == c[j + 1];
    }
  }

  /** Writing the link of a cell outside the list leaves the list alone. */
  lemma LinkedFrame(head: int, next: seq<int>, c: seq<nat>, i: nat, v: int)
    requires Linked(head, next, c) && i < |next| && i !in c
    ensures Linked(head, next[i := v], c)
  {
  }

  /** Head insertion. */
  lemma LinkedPush(head: int, next: seq<int>, c: seq<nat>, i: nat)
    requires Linked(head, next, c) && i < |next| && i !in c
    ensures Linked(i, next[i := head], [i] + c)
  {
    var d := [i] + c;
    forall j | 0 <= j < |d| ensures d[j] < |next| && next[i := head][d[j]] == At(d, j + 1) {
      if j > 0 { assert d[j] == c[j - 1]; }
    }
  }

  /** Making the link before position k skip position k removes exactly that cell. */
  lemma LinkedUnlink(head: int, next: seq<int>, c: seq<nat>, k: nat)
    requires Linked(head, next, c) && k < |c|
    ensures k == 0 ==> Linked(next[c[0]], next, Without(c, 0))
    ensures k > 0 ==> Linked(head, next[c[k - 1] := next[c[k]]], Without(c, k))
  {
    LinkedIsAcyclic(head, next, c);
    var d := Without(c, k);
    if k == 0 {
      assert d == c[1..];
      TailLinked(head, next, c);
    } else {
      var after := next[c[k - 1] := next[c[k]]];
      forall j | 0 <= j < |d| ensures d[j] < |next| && after[d[j]] == At(d, j + 1) {
        if j < k - 1 {
          assert d[j] == c[j] && c[j] != c[k - 1];
          assert next[c[j]] == At(c, j + 1);
        } else if j == k - 1 {
          assert d[j] == c[k - 1];
          assert next[c[k]] == At(c, k + 1);
        } else {
          assert d[j] == c[j + 1] && c[j + 1] != c[k - 1];
          assert next[c[j + 1]] == At(c, j + 2);
        }
      }
    }
  }

  lemma WithoutMember(c: seq<nat>, p: nat, i: nat)
    requires p < |c| && Distinct(c)
    ensures i in Without(c, p) <==> i in c && i != c[p]
  {
    if i in c && i != c[p] {
      var j :| 0 <= j < |c| && c[j] == i;
      assert Without(c, p)[if j < p then j else j - 1] == i;
    }
    if i in Without(c, p) {
      var j :| 0 <= j < |c| - 1 && Without(c, p)[j] == i;
      assert c[if j < p then j else j + 1] == i;
    }
  }

  // ---------------------------------------------------------------- several lists in one array

  /** Bucket h is the list ch[h], for every h. */
  ghost predicate Buckets(B: seq<int>, next: seq<int>, ch: seq<seq<nat>>) {
    && |B| == |ch|
    && (forall h {:trigger ch[h]} {:trigger B[h]} :: 0 <= h < |ch| ==> Linked(B[h], next, ch[h]))
    && (forall g, h, i {:trigger i in ch[g], i in ch[h]} :: 0 <= g < |ch| && 0 <= h < |ch| && i in ch[g] && i in ch[h] ==> g == h)
  }

  function SkippedNext(next: seq<int>, c: seq<nat>, p: nat): (r: seq<int>)
    requires p < |c| && forall j :: 0 <= j < |c| ==> c[j] < |next|
    ensures |r| == |next|
  {
    if p == 0 then next else next[c[p - 1] := next[c[p]]]
  }

  function SkippedHeads(B: seq<int>, next: seq<int>, h: nat, c: seq<nat>, p: nat): (r: seq<int>)
    requires h < |B| && p < |c| && forall j :: 0 <= j < |c| ==> c[j] < |next|
    ensures |r| == |B|
  {
    if p == 0 then B[h := next[c[0]]] else B
  }

  /** Unlinking position p of bucket h, after which the link of the unlinked cell may be anything. */
  lemma BucketsUnlink(B: seq<int>, next: seq<int>, ch: seq<seq<nat>>, h: nat, p: nat, nx: int)
    requires Buckets(B, next, ch) && h < |ch| && p < |ch[h]|
    ensures Buckets(SkippedHeads(B, next, h, ch[h], p), SkippedNext(next, ch[h], p)[ch[h][p] := nx],
                    ch[h := Without(ch[h], p)])
    ensures forall i :: i in Without(ch[h], p) <==> i in ch[h] && i != ch[h][p]
  {
    var c, v := ch[h], ch[h][p];
    var B', next1, ch' := SkippedHeads(B, next, h, c, p), SkippedNext(next, c, p), ch[h := Without(c, p)];
    LinkedIsAcyclic(B[h], next, c);
    forall i ensures i in Without(c, p) <==> i in c && i != v {
      if i >= 0 { WithoutMember(c, p, i); }
    }
    assert v in c;
    forall g | 0 <= g < |ch| ensures Linked(B'[g], next1[v := nx], ch'[g]) {
      if g == h {
        LinkedUnlink(B[h], next, c, p);
      } else if p > 0 {
        assert c[p - 1] in c;
        LinkedFrame(B[g], next, ch[g], c[p - 1], next[v]);
      }
      LinkedFrame(B'[g], next1, ch'[g], v, nx);
    }
  }

  /** Pushing a cell of no list on bucket h. */
  lemma BucketsPush(B: seq<int>, next: seq<int>, ch: seq<seq<nat>>, h: nat, v: nat)
    requires Buckets(B, next, ch) && h < |ch| && v < |next|
    requires forall g :: 0 <= g < |ch| ==> v !in ch[g]
    ensures Buckets(B[h := v], next[v := B[h]], ch[h := [v] + ch[h]])
  {
    var ch' := ch[h := [v] + ch[h]];
    forall g | 0 <= g < |ch| ensures Linked(B[h := v][g], next[v := B[h]], ch'[g]) {
      if g == h {
        LinkedPush(B[h], next, ch[h], v);
      } else {
        LinkedFrame(B[g], next, ch[g], v, B[h]);
      }
    }
  }

  /** Emptying one bucket. */
  lemma BucketsClear(B: seq<int>, next: seq<int>, ch: seq<seq<nat>>, h: nat)
    requires Buckets(B, next, ch) && h < |ch|
    ensures Buckets(B[h := -1], next, ch[h := []])
  {
    var B', ch' := B[h := -1], ch[h := []];
    forall g | 0 <= g < |ch| ensures Linked(B'[g], next, ch'[g]) {
      assert g != h ==> Linked(B[g], next, ch[g]);
    }
  }
}
