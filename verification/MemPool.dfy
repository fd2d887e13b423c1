/**
 The block pool (src/mempool.c). A block pointer is modelled by a block number: 0..MP_COUNT-1 are
 the blocks of the arena, larger numbers are the blocks of the malloc fallback, and -1 is NULL.
 */
module MemPool {
  import opened Basics
  import opened IndexList

  const MP_COUNT := 1024
  const MP_PAYLOAD := 2032

  datatype Frame = Frame(next: int, len: nat, outIfidx: Byte, nexthop: Ip, data: seq<Byte>)

  function BlockNexts(blocks: seq<Frame>): (n: seq<int>)
    ensures |n| == |blocks|
  {
    seq(|blocks|, i requires 0 <= i < |blocks| => blocks[i].next)
  }

  ghost predicate AllBelow(s: seq<nat>, n: nat) {
    forall i :: 0 <= i < |s| ==> s[i] < n
  }

  function Elements(s: seq<nat>): set<nat> {
    set b | b in s
  }

  function Below(n: nat): (s: set<nat>)
    ensures |s| == n && forall b: nat :: b in s <==> b < n
  {
    if n == 0 then {} else Below(n - 1) + {n - 1}
  }

  /** A free stack that lacks a block of the arena has room for it: the guard of mp_free never discards one. */
  lemma RoomForMissing(s: seq<nat>, n: nat, b: nat)
    requires Distinct(s) && AllBelow(s, n) && b < n && b !in s
    ensures |s| < n
  {
    DistinctSize(s);
    SubsetSize(Elements(s), Below(n) - {b});
  }

  lemma {:induction false} DistinctSize(s: seq<nat>)
    requires Distinct(s)
    ensures |Elements(s)| == |s|
  {
    if s != [] {
      var r := s[..|s| - 1];
      DistinctSize(r);
      assert Elements(s) == Elements(r) + {s[|s| - 1]};
      assert s[|s| - 1] !in Elements(r);
    }
  }

  class Pool {
    var blocks: seq<Frame>
    const freeStack: array<nat>
    var freeTop: nat
    ghost var heapLive: set<nat>    // fallback blocks not yet given back to free()

    ghost predicate Valid()
      reads this, freeStack
    {
      && MP_COUNT <= |blocks| && (forall b :: 0 <= b < |blocks| ==> |blocks[b].data| == MP_PAYLOAD)
      && freeStack.Length == MP_COUNT && freeTop <= MP_COUNT
      && Distinct(Free()) && AllBelow(Free(), MP_COUNT)
      && (forall b :: b in heapLive ==> MP_COUNT <= b < |blocks|)
    }

    /** The free stack, bottom first. */
    ghost function Free(): seq<nat>
      reads this, freeStack
      requires freeTop <= freeStack.Length
    {
      freeStack[..freeTop]
    }

    /** The blocks somebody owns. */
    ghost function Out(): set<nat>
      reads this, freeStack
      requires freeTop <= freeStack.Length
    {
      (set b: nat | 0 <= b < MP_COUNT && b !in Free()) + heapLive
    }

    constructor ()
      ensures Valid() && fresh(freeStack)
      ensures Out() == {} && Free() == seq(MP_COUNT, i => i)
    {
      blocks := seq(MP_COUNT, _ => Frame(-1, 0, 0, 0, seq(MP_PAYLOAD, _ => 0)));
      freeStack := new nat[MP_COUNT];
      freeTop := 0;
      heapLive := {};
      new;
      for i := 0 to MP_COUNT
        modifies this`freeTop, freeStack
        invariant freeTop == i && forall j :: 0 <= j < i ==> freeStack[j] == j
      {
        freeStack[freeTop] := i;
        freeTop := freeTop + 1;
      }
      forall b | 0 <= b < MP_COUNT ensures b in Free() {
        assert Free()[b] == b;
      }
    }

    /** mp_alloc; NULL only when the arena is empty and malloc fails. */
    method Alloc(mallocOk: bool) returns (b: int)
      requires Valid()
      modifies this
      ensures Valid()
      ensures b < 0 <==> old(freeTop) == 0 && !mallocOk
      ensures b < 0 ==> Out() == old(Out()) && blocks == old(blocks)
      ensures b >= 0 ==> b < |blocks| && b !in old(Out()) && Out() == old(Out()) + {b}
      ensures old(freeTop) == freeTop + if 0 <= b < MP_COUNT then 1 else 0
      ensures old(freeTop) > 0 ==> 0 <= b < MP_COUNT
      ensures b >= 0 ==> blocks[b].next == -1 && blocks[b].len == blocks[b].outIfidx == 0 && blocks[b].nexthop == 0
      ensures |blocks| >= |old(blocks)| && forall c :: 0 <= c < |old(blocks)| && c != b ==> blocks[c] == old(blocks)[c]
    {
      ghost var free := Free();
      b := -1;
      if freeTop > 0 {
        freeTop := freeTop - 1;
        b := freeStack[freeTop];
        assert free == Free() + [b];
      }
      if b >= 0 {
        blocks := blocks[b := Frame(-1, 0, 0, 0, blocks[b].data)];
      } else if mallocOk {
        b := |blocks|;
        blocks := blocks + [Frame(-1, 0, 0, 0, seq(MP_PAYLOAD, _ => 0))];
        heapLive := heapLive + {b};
      }
    }

    /** mp_free of NULL or of an owned block: the block is given back, whatever the guard on g_free_top says. */
    method Release(b: int)
      requires Valid() && (b < 0 || b in Out())
      modifies this`freeTop, this`heapLive, freeStack
      ensures Valid() && Out() == old(Out()) - {b}
      ensures freeTop == old(freeTop) + if 0 <= b < MP_COUNT then 1 else 0
    {
      if b < 0 {
        return;
      }
      if b < MP_COUNT {
        ghost var free := Free();
        RoomForMissing(free, MP_COUNT, b);
        if freeTop < MP_COUNT {
          freeStack[freeTop] := b;
          freeTop := freeTop + 1;
        }
        assert Free() == free + [b];
      } else {
        heapLive := heapLive - {b};
      }
    }
  }
}
