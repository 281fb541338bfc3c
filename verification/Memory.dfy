/**
 Unpacked messages as the allocator sees them.  Every allocation may be refused.  A block is a number, and a
 message, like its C struct, names the blocks it owns: itself, its strings and byte strings, the arrays of its
 repeated fields, its table of unknown fields and their data, and its sub-messages with all of theirs.

 Ownership is counted in multisets: `heap.live == rest + BlocksOf(m)` says that the blocks of `m` are live, that
 none of them is in `rest`, and, with `heap.Valid()`, that none occurs twice in `m`.
 */
module Memory {
  import opened Wire
  import opened Schema
  import opened Encoding

  class Heap {
    ghost var live: multiset<nat>
    var next: nat
    /** Which requests the allocator grants; it may decide as it likes. */
    const grants: nat -> bool
    var requests: nat
    /** How many requests have been refused so far. */
    var refusals: nat

    /** No block is live twice. */
    ghost predicate Valid()
      reads this
    {
      forall p | p in live :: live[p] == 1 && p < next
    }

    constructor (grants: nat -> bool)
      ensures Valid() && live == multiset{} && requests == 0 && refusals == 0 && this.grants == grants
    {
      this.grants := grants;
      live, next, requests, refusals := multiset{}, 0, 0, 0;
    }

    /** `do_alloc`, which may return NULL. */
    method Alloc() returns (block: Option<nat>)
      requires Valid()
      modifies this
      ensures Valid()
      ensures requests == old(requests) + 1 && (block.Some? <==> grants(old(requests)))
      ensures block.Some? ==> block.value !in old(live) && live == old(live) + multiset{block.value} && refusals == old(refusals)
      ensures block.None? ==> live == old(live) && refusals == old(refusals) + 1
    {
      if grants(requests) {
        block := Some(next);
        assert next !in live;
        live := live + multiset{next};
        next := next + 1;
      } else {
        block := None;
        refusals := refusals + 1;
      }
      requests := requests + 1;
    }

    /** `do_free`: NULL is ignored; any other block must be live, and is not afterwards. */
    method Free(block: Option<nat>)
      requires Valid() && (block.Some? ==> block.value in live)
      modifies this
      ensures Valid() && live == old(live) - Opt(block) && refusals == old(refusals) && requests == old(requests)
    {
      live := live - Opt(block);
    }
  }

  function Opt(block: Option<nat>): multiset<nat> {
    match block case None => multiset{} case Some(p) => multiset{p}
  }

  // ---------------------------------------------------------------------------------------------
  // Messages that own blocks
  // ---------------------------------------------------------------------------------------------

  /** A string that is still a field's default has no block; an empty byte string has none either. */
  datatype HValue =
    | H32(n32: u32)
    | H64(n64: u64)
    | HStr(block: Option<nat>, chars: seq<byte>)
    | HBin(block: Option<nat>, bytes: seq<byte>)
    | HMsg(m: HMessage)

  /** `capacity` is the number of elements the array was allocated for. */
  datatype HSlot =
    | HUnset
    | HOne(v: HValue)
    | HMany(block: Option<nat>, capacity: nat, vs: seq<HValue>)

  datatype HUnknown = HUnknown(mem: Member, block: Option<nat>)

  datatype HMessage = HMessage(block: nat, slots: seq<HSlot>, table: Option<nat>, unknown: seq<HUnknown>)

  function ValueBlocks(v: HValue): multiset<nat>
    decreases v, 0
  {
    match v
    case H32(_) | H64(_) => multiset{}
    case HStr(block, _) => Opt(block)
    case HBin(block, _) => Opt(block)
    case HMsg(m) => BlocksOf(m)
  }

  /** The blocks of the elements from `k` on. */
  function ElementBlocks(vs: seq<HValue>, k: nat): multiset<nat>
    requires k <= |vs|
    decreases vs, |vs| - k
  {
    if k == |vs| then multiset{} else ValueBlocks(vs[k]) + ElementBlocks(vs, k + 1)
  }

  function SlotBlocks(s: HSlot): multiset<nat>
    decreases s, 0
  {
    match s
    case HUnset => multiset{}
    case HOne(v) => ValueBlocks(v)
    case HMany(block, _, vs) => Opt(block) + ElementBlocks(vs, 0)
  }

  /** The blocks of the slots from `k` on. */
  function SlotsBlocks(slots: seq<HSlot>, k: nat): multiset<nat>
    requires k <= |slots|
    decreases slots, |slots| - k
  {
    if k == |slots| then multiset{} else SlotBlocks(slots[k]) + SlotsBlocks(slots, k + 1)
  }

  function UnknownBlocks(us: seq<HUnknown>, k: nat): multiset<nat>
    requires k <= |us|
    decreases us, |us| - k
  {
    if k == |us| then multiset{} else Opt(us[k].block) + UnknownBlocks(us, k + 1)
  }

  function BlocksOf(m: HMessage): multiset<nat>
    decreases m, 1
  {
    multiset{m.block} + SlotsBlocks(m.slots, 0) + Opt(m.table) + UnknownBlocks(m.unknown, 0)
  }

  // ---------------------------------------------------------------------------------------------
  // The message behind the blocks
  // ---------------------------------------------------------------------------------------------

  function ValueOf(v: HValue): Value
    decreases v, 0
  {
    match v
    case H32(n) => V32(n)
    case H64(n) => V64(n)
    case HStr(_, chars) => Str(chars)
    case HBin(_, bytes) => Bin(bytes)
    case HMsg(m) => Msg(MessageOf(m))
  }

  function ValuesOf(vs: seq<HValue>): (r: seq<Value>)
    ensures |r| == |vs|
    decreases vs, 1
  {
    seq(|vs|, k requires 0 <= k < |vs| => ValueOf(vs[k]))
  }

  function SlotOf(s: HSlot): Slot
    decreases s, 0
  {
    match s
    case HUnset => Unset
    case HOne(v) => One(ValueOf(v))
    case HMany(_, _, vs) => Many(ValuesOf(vs))
  }

  function MessageOf(m: HMessage): (r: Message)
    ensures |r.slots| == |m.slots| && |r.unknown| == |m.unknown|
    decreases m, 1
  {
    Message(seq(|m.slots|, i requires 0 <= i < |m.slots| => SlotOf(m.slots[i])),
            seq(|m.unknown|, i requires 0 <= i < |m.unknown| => m.unknown[i].mem))
  }

  // ---------------------------------------------------------------------------------------------
  // Counting blocks
  // ---------------------------------------------------------------------------------------------

  lemma Exchange(a: multiset<nat>, b: multiset<nat>, c: multiset<nat>)
    ensures a + b + c == c + b + a
  {
  }

  lemma AddToBoth(x: multiset<nat>, a: multiset<nat>, b: multiset<nat>, c: multiset<nat>, d: multiset<nat>)
    requires a + b == c + d
    ensures x + a + b == x + c + d
  {
    assert x + a + b == x + (a + b);
    assert x + c + d == x + (c + d);
  }

  lemma {:induction false} ElementsAppend(vs: seq<HValue>, v: HValue, k: nat)
    requires k <= |vs|
    ensures ElementBlocks(vs + [v], k) == ElementBlocks(vs, k) + ValueBlocks(v)
    decreases |vs| - k
  {
    hide ValueBlocks;
    if k == |vs| {
      assert ElementBlocks(vs + [v], k + 1) == multiset{};
    } else {
      ElementsAppend(vs, v, k + 1);
      assert (vs + [v])[k] == vs[k];
    }
  }

  lemma {:induction false} ElementsConcat(a: seq<HValue>, b: seq<HValue>, k: nat)
    requires k <= |a|
    ensures ElementBlocks(a + b, k) == ElementBlocks(a, k) + ElementBlocks(b, 0)
    decreases |a| - k
  {
    hide ValueBlocks;
    if k == |a| {
      ElementsShift(a, b, 0);
    } else {
      ElementsConcat(a, b, k + 1);
      assert (a + b)[k] == a[k];
    }
  }

  lemma {:induction false} ElementsShift(a: seq<HValue>, b: seq<HValue>, k: nat)
    requires k <= |b|
    ensures ElementBlocks(a + b, |a| + k) == ElementBlocks(b, k)
    decreases |b| - k
  {
    hide ValueBlocks;
    if k < |b| {
      ElementsShift(a, b, k + 1);
      assert (a + b)[|a| + k] == b[k];
    }
  }

  lemma {:induction false} SlotsSuffix(a: seq<HSlot>, b: seq<HSlot>, k: nat)
    requires |a| == |b| && k <= |a| && forall i | k <= i < |a| :: a[i] == b[i]
    ensures SlotsBlocks(a, k) == SlotsBlocks(b, k)
    decreases |a| - k
  {
    hide SlotBlocks;
    if k < |a| { SlotsSuffix(a, b, k + 1); }
  }

  /** Replacing one slot exchanges that slot's blocks. */
  lemma {:induction false} SlotsUpdate(slots: seq<HSlot>, i: nat, s: HSlot, k: nat)
    requires k <= i < |slots|
    ensures SlotsBlocks(slots[i := s], k) + SlotBlocks(slots[i]) == SlotsBlocks(slots, k) + SlotBlocks(s)
    decreases i - k
  {
    hide SlotBlocks;
    if k == i {
      SlotsSuffix(slots[i := s], slots, i + 1);
      Exchange(SlotBlocks(s), SlotsBlocks(slots, i + 1), SlotBlocks(slots[i]));
    } else {
      SlotsUpdate(slots, i, s, k + 1);
      assert slots[i := s][k] == slots[k];
      AddToBoth(SlotBlocks(slots[k]), SlotsBlocks(slots[i := s], k + 1), SlotBlocks(slots[i]), SlotsBlocks(slots, k + 1), SlotBlocks(s));
    }
  }

  lemma {:induction false} UnknownAppend(us: seq<HUnknown>, u: HUnknown, k: nat)
    requires k <= |us|
    ensures UnknownBlocks(us + [u], k) == UnknownBlocks(us, k) + Opt(u.block)
    decreases |us| - k
  {
    if k == |us| {
      assert UnknownBlocks(us + [u], k + 1) == multiset{};
    } else {
      UnknownAppend(us, u, k + 1);
      assert (us + [u])[k] == us[k];
    }
  }

  /** The blocks of a message without those of slot `i`. */
  function Except(m: HMessage, i: nat): multiset<nat>
    requires i < |m.slots|
  {
    BlocksOf(m.(slots := m.slots[i := HUnset]))
  }

  lemma ExceptSlot(m: HMessage, i: nat, s: HSlot)
    requires i < |m.slots|
    ensures BlocksOf(m.(slots := m.slots[i := s])) == Except(m, i) + SlotBlocks(s)
    ensures BlocksOf(m) == Except(m, i) + SlotBlocks(m.slots[i])
  {
    hide *;
    var blank := m.slots[i := HUnset];
    assert blank[i := s] == m.slots[i := s] && blank[i := m.slots[i]] == m.slots && blank[i] == HUnset;
    SlotsUpdate(blank, i, s, 0);
    SlotsUpdate(blank, i, m.slots[i], 0);
    UnsetOwnsNothing();
    ExceptParts(m, i);
    Whole(m.(slots := m.slots[i := s]));
    Whole(m);
    Regroup(multiset{m.block}, SlotsBlocks(blank, 0), SlotBlocks(s), Opt(m.table), UnknownBlocks(m.unknown, 0));
    Regroup(multiset{m.block}, SlotsBlocks(blank, 0), SlotBlocks(m.slots[i]), Opt(m.table), UnknownBlocks(m.unknown, 0));
  }

  lemma UnsetOwnsNothing()
    ensures SlotBlocks(HUnset) == multiset{}
  {
  }

  lemma ExceptParts(m: HMessage, i: nat)
    requires i < |m.slots|
    ensures Except(m, i)
      == multiset{m.block} + SlotsBlocks(m.slots[i := HUnset], 0) + Opt(m.table) + UnknownBlocks(m.unknown, 0)
  {
    hide SlotsBlocks, UnknownBlocks, Opt;
  }

  lemma Whole(m: HMessage)
    ensures BlocksOf(m) == multiset{m.block} + SlotsBlocks(m.slots, 0) + Opt(m.table) + UnknownBlocks(m.unknown, 0)
  {
    hide SlotsBlocks, UnknownBlocks, Opt;
  }

  lemma Regroup(a: multiset<nat>, x: multiset<nat>, s: multiset<nat>, c: multiset<nat>, d: multiset<nat>)
    ensures a + (x + s) + c + d == a + x + c + d + s
  {
  }

  // ---------------------------------------------------------------------------------------------
  // Freeing
  // ---------------------------------------------------------------------------------------------

  method FreeBlock(heap: Heap, block: Option<nat>, ghost rest: multiset<nat>)
    requires heap.Valid() && heap.live == rest + Opt(block)
    modifies heap
    ensures heap.Valid() && heap.live == rest && heap.refusals == old(heap.refusals)
  {
    heap.Free(block);
    assert rest + Opt(block) - Opt(block) == rest;
  }

  method FreeValue(heap: Heap, v: HValue, ghost rest: multiset<nat>)
    requires heap.Valid() && heap.live == rest + ValueBlocks(v)
    modifies heap
    ensures heap.Valid() && heap.live == rest && heap.refusals == old(heap.refusals)
    decreases v, 0
  {
    match v
    case H32(_) | H64(_) =>
    case HStr(block, _) => FreeBlock(heap, block, rest);
    case HBin(block, _) => FreeBlock(heap, block, rest);
    case HMsg(m) => FreeUnpacked(heap, m, rest);
  }

  method FreeSlot(heap: Heap, s: HSlot, ghost rest: multiset<nat>)
    requires heap.Valid() && heap.live == rest + SlotBlocks(s)
    modifies heap
    ensures heap.Valid() && heap.live == rest && heap.refusals == old(heap.refusals)
    decreases s, 0
  {
    hide ValueBlocks;
    match s
    case HUnset =>
    case HOne(v) => FreeValue(heap, v, rest);
    case HMany(block, _, vs) =>
      for k := 0 to |vs|
        invariant heap.Valid() && heap.refusals == old(heap.refusals)
        invariant heap.live == rest + Opt(block) + ElementBlocks(vs, k)
      {
        FreeValue(heap, vs[k], rest + Opt(block) + ElementBlocks(vs, k + 1));
      }
      FreeBlock(heap, block, rest);
  }

  /** The first loop of `protobuf_c_message_free_unpacked`. */
  method FreeFields(heap: Heap, slots: seq<HSlot>, ghost rest: multiset<nat>)
    requires heap.Valid() && heap.live == rest + SlotsBlocks(slots, 0)
    modifies heap
    ensures heap.Valid() && heap.live == rest && heap.refusals == old(heap.refusals)
    decreases slots, 0
  {
    hide *;
    for f := 0 to |slots|
      invariant heap.Valid() && heap.refusals == old(heap.refusals)
      invariant heap.live == rest + SlotsBlocks(slots, f)
    {
      SlotsNext(slots, f, rest);
      FreeSlot(heap, slots[f], rest + SlotsBlocks(slots, f + 1));
    }
    SlotsDone(slots, rest);
  }

  /** The second loop. */
  method FreeUnknownFields(heap: Heap, us: seq<HUnknown>, ghost rest: multiset<nat>)
    requires heap.Valid() && heap.live == rest + UnknownBlocks(us, 0)
    modifies heap
    ensures heap.Valid() && heap.live == rest && heap.refusals == old(heap.refusals)
  {
    hide *;
    for f := 0 to |us|
      invariant heap.Valid() && heap.refusals == old(heap.refusals)
      invariant heap.live == rest + UnknownBlocks(us, f)
    {
      UnknownNext(us, f, rest);
      FreeBlock(heap, us[f].block, rest + UnknownBlocks(us, f + 1));
    }
    UnknownDone(us, rest);
  }

  /** `protobuf_c_message_free_unpacked`: gives back exactly the blocks the message owns. */
  method FreeUnpacked(heap: Heap, m: HMessage, ghost rest: multiset<nat>)
    requires heap.Valid() && heap.live == rest + BlocksOf(m)
    modifies heap
    ensures heap.Valid() && heap.live == rest && heap.refusals == old(heap.refusals)
    decreases m, 1
  {
    hide *;
    Parts(m, rest);
    FreeFields(heap, m.slots, rest + multiset{m.block} + Opt(m.table) + UnknownBlocks(m.unknown, 0));
    FreeUnknownFields(heap, m.unknown, rest + multiset{m.block} + Opt(m.table));
    FreeBlock(heap, m.table, rest + multiset{m.block});
    OptSome(m.block);
    FreeBlock(heap, Some(m.block), rest);
  }

  lemma OptSome(p: nat)
    ensures Opt(Some(p)) == multiset{p}
  {
  }

  lemma Parts(m: HMessage, rest: multiset<nat>)
    ensures rest + BlocksOf(m) == rest + multiset{m.block} + Opt(m.table) + UnknownBlocks(m.unknown, 0) + SlotsBlocks(m.slots, 0)
  {
    hide SlotsBlocks, UnknownBlocks, Opt;
  }

  lemma SlotsNext(slots: seq<HSlot>, k: nat, rest: multiset<nat>)
    requires k < |slots|
    ensures rest + SlotsBlocks(slots, k) == rest + SlotsBlocks(slots, k + 1) + SlotBlocks(slots[k])
  {
    hide SlotBlocks;
  }

  lemma SlotsDone(slots: seq<HSlot>, rest: multiset<nat>)
    ensures rest + SlotsBlocks(slots, |slots|) == rest
  {
  }

  lemma UnknownNext(us: seq<HUnknown>, k: nat, rest: multiset<nat>)
    requires k < |us|
    ensures rest + UnknownBlocks(us, k) == rest + UnknownBlocks(us, k + 1) + Opt(us[k].block)
  {
    hide Opt;
  }

  lemma UnknownDone(us: seq<HUnknown>, rest: multiset<nat>)
    ensures rest + UnknownBlocks(us, |us|) == rest
  {
  }
}
