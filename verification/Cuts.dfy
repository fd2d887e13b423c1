/**
 Segments of a byte stream as recv cuts them, and whether an upload that follows its `upgrade` line gets
 through the receive loop of src/remote.c: plain arithmetic over the cuts.
 */
module Cuts {
  import opened Basics

  const IBUF := 16384
  const LINE_LIMIT := 8192

  /** recv returns at least one byte, and no more than there is room for and the peer has sent. */
  function Segment(cut: nat, room: nat, left: nat): (n: nat)
    requires 0 < room && 0 < left
    ensures 0 < n <= room && n <= left
  {
    Min(Min(if cut == 0 then 1 else cut, room), left)
  }

  /**
   Where a connection is that gets one line of `size` bytes without its newline and raw bytes behind it:
   waiting for the newline; lost, with too many bytes at once; or in the transfer, with bytes held that came
   along with the newline and that only another recv will move.
   */
  datatype Phase = Awaiting(got: nat) | Lost(got: nat) | Raw(got: nat, held: nat)

  /** One recv. */
  function Next(p: Phase, cut: nat, size: nat, total: nat): Phase {
    if p.got >= total then p
    else
      match p
      case Awaiting(got) =>
        if got >= IBUF then p
        else
          var n := got + Segment(cut, IBUF - got, total - got);
          if n > LINE_LIMIT then Lost(n) else if n <= size then Awaiting(n) else Raw(n, n - size - 1)
      case Lost(got) => p
      case Raw(got, held) => if held >= IBUF then p else Raw(got + Segment(cut, IBUF - held, total - got), 0)
  }

  function Phases(cuts: seq<nat>, size: nat, total: nat): Phase {
    if cuts == [] then Awaiting(0) else Next(Phases(cuts[..|cuts| - 1], size, total), cuts[|cuts| - 1], size, total)
  }

  /** Everything came, and some of it with a recv after the one that brought the newline. */
  predicate Delivers(cuts: seq<nat>, size: nat, total: nat) {
    Phases(cuts, size, total) == Raw(total, 0)
  }

  // ---------------------------------------------------------------- the arithmetic

  /** A peer that sends everything at once loses it, whatever comes after. */
  lemma {:induction false} OneSegmentLoses(cuts: seq<nat>, size: nat, total: nat)
    requires size + 1 < total && cuts != [] && cuts[0] >= total
    ensures !Delivers(cuts, size, total)
    ensures var p := Phases(cuts, size, total); p.Lost? || p == Raw(total, total - size - 1)
  {
    if |cuts| == 1 {
      assert cuts[..0] == [];
      assert Phases(cuts[..0], size, total) == Awaiting(0);
    } else {
      OneSegmentLoses(cuts[..|cuts| - 1], size, total);
    }
  }

  function Sum(cuts: seq<nat>): nat {
    if cuts == [] then 0 else Sum(cuts[..|cuts| - 1]) + cuts[|cuts| - 1]
  }

  /** Segments recv can have returned with room for half the buffer, and no more of them than there is to send. */
  predicate Small(cuts: seq<nat>, total: nat) {
    Sum(cuts) <= total && forall i :: 0 <= i < |cuts| ==> 0 < cuts[i] <= LINE_LIMIT
  }

  /** The k-th recv is the one that brings the newline. */
  predicate BringsNewline(cuts: seq<nat>, k: nat, size: nat) {
    0 < k <= |cuts| && Sum(cuts[..k - 1]) <= size < Sum(cuts[..k])
  }

  lemma {:induction false} SumGrows(cuts: seq<nat>, k: nat)
    requires k <= |cuts|
    ensures Sum(cuts[..k]) <= Sum(cuts)
  {
    if k == |cuts| {
      assert cuts[..k] == cuts;
    } else {
      assert cuts[..k] == cuts[..|cuts| - 1][..k];
      SumGrows(cuts[..|cuts| - 1], k);
    }
  }

  lemma {:induction false} BeforeNewline(cuts: seq<nat>, size: nat, total: nat)
    requires Small(cuts, total) && Sum(cuts) <= size < total
    ensures var p, n := Phases(cuts, size, total), Sum(cuts); if n <= LINE_LIMIT then p == Awaiting(n) else p.Lost?
  {
    if cuts != [] {
      BeforeNewline(cuts[..|cuts| - 1], size, total);
    }
  }

  lemma {:induction false} FromNewline(cuts: seq<nat>, k: nat, size: nat, total: nat)
    requires Small(cuts, total) && BringsNewline(cuts, k, size) && size < total
    ensures var p, n := Phases(cuts, size, total), Sum(cuts);
            if Sum(cuts[..k]) > LINE_LIMIT then p.Lost?
            else p.Raw? && p.got == n && p.held == if k == |cuts| then n - size - 1 else 0
  {
    var t := cuts[..|cuts| - 1];
    if k == |cuts| {
      assert cuts[..k] == cuts && cuts[..k - 1] == t;
      BeforeNewline(t, size, total);
    } else {
      assert cuts[..k] == t[..k] && cuts[..k - 1] == t[..k - 1];
      SumGrows(t, k);
      FromNewline(t, k, size, total);
    }
  }

  /**
   Segments of at most 8192 bytes deliver an upload if and only if they are the whole stream, the newline does
   not come with the last of them, and not more than 8192 bytes are there when it comes.
   */
  lemma DeliversIff(cuts: seq<nat>, k: nat, size: nat, total: nat)
    requires Small(cuts, total) && BringsNewline(cuts, k, size) && size + 1 < total
    ensures Delivers(cuts, size, total) <==> Sum(cuts) == total && k < |cuts| && Sum(cuts[..k]) <= LINE_LIMIT
  {
    FromNewline(cuts, k, size, total);
    assert k == |cuts| ==> cuts[..k] == cuts;
  }
}
