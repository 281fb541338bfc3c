/**
 The container of scanned members: up to 23 arrays, each twice as long as the one before, the first of them on the
 stack.  It is proved to be a sequence that is only appended to.
 */
module Slabs {
  import opened Bits
  import opened Seqs
  import opened Wire
  import opened Schema
  import opened Encoding
  import opened Memory

  /** A member as the scanning pass leaves it for the parsing pass: `prefix` is the size of its length prefix. */
  datatype Scanned = Scanned(mem: Member, prefix: nat, field: Option<nat>)

  const FIRST_SLAB_LOG2: nat := 4
  /** 32 - 1 - 5 - 4 */
  const MAX_SLAB: nat := 22

  function SlabSize(i: nat): (r: nat)
    ensures r > 0
  {
    Pow2(i + FIRST_SLAB_LOG2)
  }

  /** What the first `k` slabs hold together. */
  function SizeBefore(k: nat): nat {
    if k == 0 then 0 else SizeBefore(k - 1) + SlabSize(k - 1)
  }

  lemma {:induction false} SizeDoubles(k: nat)
    ensures SizeBefore(k) == SlabSize(k) - SlabSize(0)
    decreases k
  {
    if k > 0 { SizeDoubles(k - 1); }
  }

  lemma Capacity()
    ensures SizeBefore(MAX_SLAB + 1) == SLAB_CAPACITY
  {
    SizeDoubles(MAX_SLAB + 1);
    SmallPowers();
    hide Pow2, SizeBefore;
    Pow2Add(7, 7);
    Pow2Add(14, 7);
    Pow2Add(21, 6);
  }

  lemma SmallPowers()
    ensures Pow2(4) == 16 && Pow2(6) == 64 && Pow2(7) == 128
  {
    assert Pow2(2) == 4;
    assert Pow2(4) == 16;
    assert Pow2(6) == 64;
  }

  lemma FirstSlab()
    ensures SlabSize(0) == 16
  {
    SmallPowers();
  }

  lemma {:induction false} Pow2Add(a: nat, b: nat)
    ensures Pow2(a + b) == Pow2(a) * Pow2(b)
    decreases b
  {
    if b > 0 { Pow2Add(a, b - 1); }
  }

  lemma {:induction false} SizeGrows(i: nat, k: nat)
    requires i <= k
    ensures SizeBefore(i) <= SizeBefore(k)
    decreases k
  {
    if i < k { SizeGrows(i, k - 1); }
  }

  lemma SizeNext(k: nat)
    requires k > 0
    ensures SizeBefore(k) == SizeBefore(k - 1) + SlabSize(k - 1)
  {
  }

  /** The place of entry `j` of slab `i` among all entries. */
  function Index(i: nat, j: nat): nat { SizeBefore(i) + j }

  class SlabList {
    /** `scanned_member_slabs[0..which_slab]` */
    var slabs: seq<array<Scanned>>
    /** The blocks of all slabs but the first. */
    var blocks: seq<nat>
    var inSlabIndex: nat
    /** The slabs, each full but the last, one after the other. */
    ghost var contents: seq<Scanned>
    /** All of the slabs. */
    ghost var repr: set<object>

    ghost predicate Shaped()
      reads this
    {
      && 1 <= |slabs| <= MAX_SLAB + 1
      && |blocks| == |slabs| - 1
      && (forall i | 0 <= i < |slabs| :: slabs[i].Length == SlabSize(i))
      && (forall i, j | 0 <= i < j < |slabs| :: slabs[i] != slabs[j])
      && inSlabIndex <= SlabSize(|slabs| - 1)
      && |contents| == SizeBefore(|slabs| - 1) + inSlabIndex
      && (forall i | 0 <= i < |slabs| :: slabs[i] in repr)
    }

    /** How many entries of slab `i` are in use: `max` in the parsing pass. */
    function InUse(i: nat): nat
      reads this
      requires i < |slabs|
    {
      if i == |slabs| - 1 then inSlabIndex else SlabSize(i)
    }

    /** Entry `j` of slab `i` is entry `Index(i, j)` of the whole. */
    ghost predicate Valid()
      reads this, slabs
    {
      && Shaped()
      && forall i, j | 0 <= i < |slabs| && 0 <= j < InUse(i) ::
           Index(i, j) < |contents| && slabs[i][j] == contents[Index(i, j)]
    }

    ghost function Blocks(): multiset<nat>
      reads this
    {
      multiset(blocks)
    }

    constructor (first: array<Scanned>)
      requires first.Length == SlabSize(0)
      ensures Valid() && contents == [] && slabs == [first] && blocks == [] && repr == {first}
    {
      slabs, blocks, inSlabIndex, contents, repr := [first], [], 0, [], {first};
    }

    /** Looking at the slabs in order, and at each from its start, visits the contents in order and all of them. */
    lemma Visit(i: nat)
      requires Valid() && i < |slabs|
      ensures SizeBefore(i) + InUse(i) == (if i == |slabs| - 1 then |contents| else SizeBefore(i + 1))
      ensures forall j | 0 <= j < InUse(i) :: Index(i, j) < |contents| && slabs[i][j] == contents[Index(i, j)]
      ensures InUse(i) <= slabs[i].Length
    {
    }

    /** Moves on to a new slab, twice as long. */
    method Grow(heap: Heap, ghost rest: multiset<nat>) returns (ok: bool)
      requires Valid() && Shaped() && 0 < |slabs| <= 23 && inSlabIndex == SlabSize(|slabs| - 1)
      requires heap.Valid() && heap.live == rest + Blocks()
      modifies this, heap
      ensures Valid() && contents == old(contents) && heap.Valid() && heap.live == rest + Blocks()
      ensures heap.refusals >= old(heap.refusals)
      ensures ok ==> inSlabIndex < SlabSize(|slabs| - 1) && heap.refusals == old(heap.refusals)
      ensures !ok ==> |contents| == SLAB_CAPACITY || heap.refusals > old(heap.refusals)
      ensures fresh(repr - old(repr))
    {
      hide *;
      if |slabs| == 23 {
        AllFull();
        return false;
      }
      var block := heap.Alloc();
      if block.None? { return false; }
      var slab := new Scanned[SlabSize(|slabs|)](_ => Scanned(Member(0, 0, []), 0, None));
      AddBlocks(rest, block.value);
      Extend(slab, block.value);
      ok := true;
    }

    lemma AllFull()
      requires Shaped() && inSlabIndex == SlabSize(|slabs| - 1) && |slabs| == 23
      ensures |contents| == SLAB_CAPACITY
    {
      Capacity();
      hide Pow2, SlabSize;
    }

    lemma AddBlocks(rest: multiset<nat>, p: nat)
      ensures rest + Blocks() + multiset{p} == rest + multiset(blocks + [p])
    {
      AddBlock(rest, blocks, p);
    }

    method Extend(slab: array<Scanned>, block: nat)
      requires Valid() && inSlabIndex == SlabSize(|slabs| - 1) && |slabs| < 23
      requires slab !in slabs && slab.Length == SlabSize(|slabs|)
      modifies this
      ensures Valid() && contents == old(contents) && blocks == old(blocks) + [block] && slabs == old(slabs) + [slab]
      ensures repr == old(repr) + {slab}
      ensures inSlabIndex < SlabSize(|slabs| - 1) && Blocks() == multiset(old(blocks) + [block])
    {
      SizeNext(|slabs|);
      hide Pow2, SlabSize, Index, SizeBefore;
      slabs, repr := slabs + [slab], repr + {slab};
      blocks := blocks + [block];
      inSlabIndex := 0;
    }

    /** `scanned_member_slabs[which_slab][in_slab_index++] = tmp`, with a new slab if the last one is full. */
    method Push(heap: Heap, x: Scanned, ghost rest: multiset<nat>) returns (ok: bool)
      requires Valid() && heap.Valid() && heap.live == rest + Blocks()
      modifies this, repr, heap
      ensures Valid() && heap.Valid() && heap.live == rest + Blocks()
      ensures heap.refusals >= old(heap.refusals)
      ensures ok ==> contents == old(contents) + [x] && heap.refusals == old(heap.refusals) && |contents| <= SLAB_CAPACITY
      ensures !ok ==> |old(contents)| == SLAB_CAPACITY || heap.refusals > old(heap.refusals)
      ensures fresh(repr - old(repr))
    {
      hide Pow2, SlabSize, SizeBefore;
      ok := true;
      if inSlabIndex == SlabSize(|slabs| - 1) {
        ok := Grow(heap, rest);
        if !ok { return; }
      }
      Store(x);
    }

    method Store(x: Scanned)
      requires Valid() && inSlabIndex < SlabSize(|slabs| - 1)
      modifies this`inSlabIndex, this`contents, slabs[|slabs| - 1]
      ensures Valid() && contents == old(contents) + [x] && |contents| <= SLAB_CAPACITY
    {
      RoomLeft();
      ghost var last, k, before := |slabs| - 1, inSlabIndex, contents;
      assert Index(last, k) == |before|;
      hide Pow2, SlabSize, SizeBefore, Index;
      slabs[|slabs| - 1][inSlabIndex] := x;
      inSlabIndex := inSlabIndex + 1;
      contents := contents + [x];
      forall i, j | 0 <= i < |slabs| && 0 <= j < InUse(i)
        ensures Index(i, j) < |contents| && slabs[i][j] == contents[Index(i, j)]
      {
        if i == last && j == k {
        } else {
          assert Index(i, j) < |before| && old(slabs[i][j]) == before[Index(i, j)];
        }
      }
    }

    lemma RoomLeft()
      requires Shaped() && inSlabIndex < SlabSize(|slabs| - 1)
      ensures |contents| < SLAB_CAPACITY
    {
      Capacity();
      SizeGrows(|slabs|, MAX_SLAB + 1);
      hide Pow2, SlabSize;
    }

    /** The cleanup loops: `for (j = 1; j <= which_slab; j++) do_free(...)`. */
    method FreeAll(heap: Heap, ghost rest: multiset<nat>)
      requires heap.Valid() && heap.live == rest + Blocks()
      modifies heap
      ensures heap.Valid() && heap.live == rest && heap.refusals == old(heap.refusals)
    {
      for j := 0 to |blocks|
        invariant heap.Valid() && heap.refusals == old(heap.refusals)
        invariant heap.live == rest + multiset(blocks[j..])
      {
        assert blocks[j..] == [blocks[j]] + blocks[j + 1..];
        FreeBlock(heap, Some(blocks[j]), rest + multiset(blocks[j + 1..]));
      }
    }
  }

  lemma AddBlock(rest: multiset<nat>, blocks: seq<nat>, p: nat)
    ensures rest + multiset(blocks) + multiset{p} == rest + multiset(blocks + [p])
  {
  }
}
