/**
 Applying members, seen one slot at a time: what a slot ends up with depends only on its own start value
 and on the members, never on the other slots.  The theorems about whole messages are proved slot by slot.
 */
module SlotFold {
  import opened Seqs
  import opened Wire
  import opened Schema
  import opened Encoding
  import opened Decoding

  /** What a complete member does to slot `i`. */
  function StepSlot(S: Schema, fs: seq<Field>, i: nat, slot: Slot, mem: Member): Option<Slot>
    requires i < |fs|
  {
    if !MemberOk(mem) then None else
    match FieldIndex(fs, mem.tag)
    case None => Some(slot)
    case Some(j) =>
      if i == j then StepField(S, fs[j], slot, mem)
      else Some(if SameGroup(fs[i], fs[j]) then Unset else slot)
  }

  function FoldSlot(S: Schema, fs: seq<Field>, i: nat, slot: Slot, ms: seq<Member>): Option<Slot>
    requires i < |fs|
    decreases |ms|
  {
    if ms == [] then Some(slot) else
    match StepSlot(S, fs, i, slot, ms[0])
    case None => None
    case Some(next) => FoldSlot(S, fs, i, next, ms[1..])
  }

  /** The members without a field, in order. */
  function UnknownOf(fs: seq<Field>, ms: seq<Member>): (r: seq<Member>)
    ensures forall k | 0 <= k < |r| :: r[k] in ms && FieldIndex(fs, r[k].tag).None?
  {
    if ms == [] then []
    else (if FieldIndex(fs, ms[0].tag).None? then [ms[0]] else []) + UnknownOf(fs, ms[1..])
  }

  lemma ApplySlot(S: Schema, fs: seq<Field>, acc: Message, mem: Member, i: nat)
    requires |acc.slots| == |fs| && MemberOk(mem) && i < |fs|
    ensures Apply(S, fs, acc, mem).Some? ==> StepSlot(S, fs, i, acc.slots[i], mem) == Some(Apply(S, fs, acc, mem).value.slots[i])
    ensures Apply(S, fs, acc, mem).None? && FieldIndex(fs, mem.tag) == Some(i) ==> StepSlot(S, fs, i, acc.slots[i], mem).None?
  {
  }

  /** `ApplyAll` is `FoldSlot` in every slot ... */
  lemma {:induction false} ApplyAllSlot(S: Schema, fs: seq<Field>, acc: Message, ms: seq<Member>, i: nat)
    requires |acc.slots| == |fs| && AllOk(ms) && i < |fs|
    ensures ApplyAll(S, fs, acc, ms).Some? ==> FoldSlot(S, fs, i, acc.slots[i], ms) == Some(ApplyAll(S, fs, acc, ms).value.slots[i])
    decreases |ms|
  {
    if ms != [] {
      ApplySlot(S, fs, acc, ms[0], i);
      match Apply(S, fs, acc, ms[0])
      case None =>
      case Some(next) => ApplyAllSlot(S, fs, next, ms[1..], i);
    }
  }

  lemma ApplyUnknown(S: Schema, fs: seq<Field>, acc: Message, mem: Member)
    requires |acc.slots| == |fs| && MemberOk(mem) && Apply(S, fs, acc, mem).Some?
    ensures Apply(S, fs, acc, mem).value.unknown == acc.unknown + if FieldIndex(fs, mem.tag).None? then [mem] else []
  {
  }

  /** ... and `UnknownOf` for the rest ... */
  lemma {:induction false} ApplyAllUnknown(S: Schema, fs: seq<Field>, acc: Message, ms: seq<Member>)
    requires |acc.slots| == |fs| && AllOk(ms)
    ensures ApplyAll(S, fs, acc, ms).Some? ==> ApplyAll(S, fs, acc, ms).value.unknown == acc.unknown + UnknownOf(fs, ms)
    decreases |ms|
  {
    hide Apply, MemberOk;
    if ms != [] {
      match Apply(S, fs, acc, ms[0])
      case None =>
      case Some(next) =>
        ApplyUnknown(S, fs, acc, ms[0]);
        ApplyAllUnknown(S, fs, next, ms[1..]);
    }
  }

  /** ... and fails only when some slot does. */
  lemma {:induction false} ApplyAllFails(S: Schema, fs: seq<Field>, acc: Message, ms: seq<Member>) returns (i: nat)
    requires |acc.slots| == |fs| && AllOk(ms) && ApplyAll(S, fs, acc, ms).None?
    ensures i < |fs| && FoldSlot(S, fs, i, acc.slots[i], ms).None?
    decreases |ms|
  {
    match Apply(S, fs, acc, ms[0])
    case None =>
      i := FieldIndex(fs, ms[0].tag).value;
      ApplySlot(S, fs, acc, ms[0], i);
    case Some(next) =>
      i := ApplyAllFails(S, fs, next, ms[1..]);
      ApplySlot(S, fs, acc, ms[0], i);
  }

  /** All of the above in the form the theorems use: if every slot folds to `r`'s, then `r` is the result. */
  lemma ApplyAllBySlots(S: Schema, fs: seq<Field>, acc: Message, ms: seq<Member>, r: Message)
    requires |acc.slots| == |fs| == |r.slots| && AllOk(ms)
    requires forall i | 0 <= i < |fs| :: FoldSlot(S, fs, i, acc.slots[i], ms) == Some(r.slots[i])
    requires r.unknown == acc.unknown + UnknownOf(fs, ms)
    ensures ApplyAll(S, fs, acc, ms) == Some(r)
  {
    if ApplyAll(S, fs, acc, ms).None? {
      var i := ApplyAllFails(S, fs, acc, ms);
      assert false;
    } else {
      ApplyAllUnknown(S, fs, acc, ms);
      var all := ApplyAll(S, fs, acc, ms).value;
      forall i | 0 <= i < |fs| ensures all.slots[i] == r.slots[i] {
        ApplyAllSlot(S, fs, acc, ms, i);
        assert FoldSlot(S, fs, i, acc.slots[i], ms) == Some(r.slots[i]);
      }
      assert all.slots == r.slots;
    }
  }

  lemma {:induction false} FoldSlotAppend(S: Schema, fs: seq<Field>, i: nat, slot: Slot, a: seq<Member>, b: seq<Member>)
    requires i < |fs|
    ensures FoldSlot(S, fs, i, slot, a + b) ==
      match FoldSlot(S, fs, i, slot, a) { case None => None case Some(next) => FoldSlot(S, fs, i, next, b) }
    decreases |a|
  {
    if a == [] {
      assert a + b == b;
    } else {
      assert (a + b)[0] == a[0] && (a + b)[1..] == a[1..] + b;
      match StepSlot(S, fs, i, slot, a[0])
      case None =>
      case Some(next) => FoldSlotAppend(S, fs, i, next, a[1..], b);
    }
  }

  lemma FoldTwo(S: Schema, fs: seq<Field>, i: nat, s0: Slot, s1: Slot, s2: Slot, a: seq<Member>, b: seq<Member>)
    requires i < |fs| && FoldSlot(S, fs, i, s0, a) == Some(s1) && FoldSlot(S, fs, i, s1, b) == Some(s2)
    ensures FoldSlot(S, fs, i, s0, a + b) == Some(s2)
  {
    FoldSlotAppend(S, fs, i, s0, a, b);
  }

  lemma {:induction false} UnknownOfAppend(fs: seq<Field>, a: seq<Member>, b: seq<Member>)
    ensures UnknownOf(fs, a + b) == UnknownOf(fs, a) + UnknownOf(fs, b)
    decreases |a|
  {
    if a == [] {
      Empty(b);
    } else {
      var head := if FieldIndex(fs, a[0].tag).None? then [a[0]] else [];
      SliceAppend(a, b, 1);
      assert UnknownOf(fs, a + b) == head + UnknownOf(fs, a[1..] + b);
      UnknownOfAppend(fs, a[1..], b);
      Assoc(head, UnknownOf(fs, a[1..]), UnknownOf(fs, b));
    }
  }

  /** A member can touch slot `i` only if its field is `i` or shares a oneof with it. */
  predicate Touches(fs: seq<Field>, i: nat, mem: Member)
    requires i < |fs|
  {
    var j := FieldIndex(fs, mem.tag);
    j.Some? && (j.value == i || SameGroup(fs[i], fs[j.value]))
  }

  lemma {:induction false} FoldUntouched(S: Schema, fs: seq<Field>, i: nat, slot: Slot, ms: seq<Member>)
    requires i < |fs| && AllOk(ms)
    requires forall k | 0 <= k < |ms| :: !Touches(fs, i, ms[k])
    ensures FoldSlot(S, fs, i, slot, ms) == Some(slot)
    decreases |ms|
  {
    if ms != [] {
      assert !Touches(fs, i, ms[0]);
      FoldUntouched(S, fs, i, slot, ms[1..]);
    }
  }

  /** Members of siblings leave an unset oneof field unset. */
  lemma {:induction false} FoldSiblings(S: Schema, fs: seq<Field>, i: nat, ms: seq<Member>)
    requires i < |fs| && AllOk(ms)
    requires forall k | 0 <= k < |ms| :: FieldIndex(fs, ms[k].tag) != Some(i)
    ensures FoldSlot(S, fs, i, Unset, ms) == Some(Unset)
    decreases |ms|
  {
    if ms != [] {
      assert FieldIndex(fs, ms[0].tag) != Some(i);
      FoldSiblings(S, fs, i, ms[1..]);
    }
  }

  ghost predicate KnownTags(fs: seq<Field>, ms: seq<Member>) {
    forall k | 0 <= k < |ms| :: FieldIndex(fs, ms[k].tag).Some?
  }

  lemma Joined(fs: seq<Field>, a: seq<Member>, b: seq<Member>)
    ensures AllOk(a + b) <==> AllOk(a) && AllOk(b)
    ensures KnownTags(fs, a + b) <==> KnownTags(fs, a) && KnownTags(fs, b)
  {
    hide MemberOk, FieldIndex;
    assert forall k | 0 <= k < |a| :: a[k] == (a + b)[k];
    assert forall k | 0 <= k < |b| :: b[k] == (a + b)[|a| + k];
  }

  lemma {:induction false} AllKnown(fs: seq<Field>, ms: seq<Member>)
    requires KnownTags(fs, ms)
    ensures UnknownOf(fs, ms) == []
    decreases |ms|
  {
    if ms != [] {
      assert FieldIndex(fs, ms[0].tag).Some?;
      AllKnown(fs, ms[1..]);
    }
  }

  lemma {:induction false} AllUnknown(fs: seq<Field>, ms: seq<Member>)
    requires forall k | 0 <= k < |ms| :: FieldIndex(fs, ms[k].tag).None?
    ensures UnknownOf(fs, ms) == ms
    decreases |ms|
  {
    if ms != [] {
      assert FieldIndex(fs, ms[0].tag).None?;
      AllUnknown(fs, ms[1..]);
    }
  }
}
