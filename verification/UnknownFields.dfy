/**
 Nothing on the way to the packed bytes looks at what unknown fields hold, `protobuf_c_message_check` included.
 Here is what they must be like: with the rest of the message in order, the round trip of `RoundTrip` works exactly
 when the unknown fields, at every level, are complete members that the descriptor does not know.
 */
module UnknownFields {
  import opened Wire
  import opened Schema
  import opened Encoding
  import opened Decoding
  import opened SlotFold
  import opened Reading
  import opened RoundTrip
  import opened Concatenation

  // ---------------------------------------------------------------------------------------------
  // The two halves of MessageOk
  // ---------------------------------------------------------------------------------------------

  ghost predicate ForeignValue(S: Schema, t: FieldType, v: Value)
    decreases v, 0
  {
    v.Msg? && t.MESSAGE? ==> ForeignOk(S, t.sub, v.m)
  }

  ghost predicate ForeignSlot(S: Schema, f: Field, slot: Slot)
    decreases slot, 0
  {
    match slot
    case Unset => true
    case One(v) => ForeignValue(S, f.typ, v)
    case Many(vs) => forall k | 0 <= k < |vs| :: ForeignValue(S, f.typ, vs[k])
  }

  /** Unknown fields are complete and unknown, at every level. */
  ghost predicate ForeignOk(S: Schema, d: nat, m: Message)
    decreases m, 1
  {
    && d < |S| && |m.slots| == |S[d].fields|
    && UnknownOk(S[d].fields, m.unknown)
    && forall i | 0 <= i < |m.slots| :: ForeignSlot(S, S[d].fields[i], m.slots[i])
  }

  ghost predicate KnownValue(S: Schema, t: FieldType, v: Value)
    decreases v, 0
  {
    KindOk(t, v) && (v.Str? ==> 0 !in v.chars) && (v.Msg? ==> KnownMessage(S, t.sub, v.m))
  }

  ghost predicate KnownSlot(S: Schema, f: Field, slot: Slot)
    decreases slot, 0
  {
    match slot
    case Unset => f.rule.OPTIONAL? || f.rule.UNLABELED?
    case One(v) => !f.rule.REPEATED? && KnownValue(S, f.typ, v)
    case Many(vs) => f.rule.REPEATED? && forall k | 0 <= k < |vs| :: KnownValue(S, f.typ, vs[k])
  }

  /** `MessageOk` with nothing said about unknown fields: only the known ones are in order, at every level. */
  ghost predicate KnownMessage(S: Schema, d: nat, m: Message)
    decreases m, 1
  {
    && d < |S| && |m.slots| == |S[d].fields|
    && (forall i | 0 <= i < |m.slots| :: KnownSlot(S, S[d].fields[i], m.slots[i]))
    && OneofOk(S[d].fields, m.slots)
    && |Encode(S, d, m)| < TWO31
    && |Members(S, d, m)| <= SLAB_CAPACITY
  }

  lemma ValueHalves(S: Schema, t: FieldType, v: Value)
    ensures ValueOk(S, t, v) <==> KnownValue(S, t, v) && ForeignValue(S, t, v)
    decreases v, 0
  {
    hide MessageOk, KnownMessage, ForeignOk;
    if v.Msg? && t.MESSAGE? { MessageHalves(S, t.sub, v.m); }
  }

  lemma SlotHalves(S: Schema, f: Field, slot: Slot)
    ensures SlotOk(S, f, slot) <==> KnownSlot(S, f, slot) && ForeignSlot(S, f, slot)
    decreases slot, 0
  {
    hide ValueOk, KnownValue, ForeignValue;
    match slot
    case Unset =>
    case One(v) => ValueHalves(S, f.typ, v);
    case Many(vs) => forall k | 0 <= k < |vs| { ValueHalves(S, f.typ, vs[k]); }
  }

  lemma MessageHalves(S: Schema, d: nat, m: Message)
    ensures MessageOk(S, d, m) <==> KnownMessage(S, d, m) && ForeignOk(S, d, m)
    decreases m, 1
  {
    hide SlotOk, KnownSlot, ForeignSlot, OneofOk, UnknownOk, Encode, Members;
    if d < |S| && |m.slots| == |S[d].fields| {
      forall i | 0 <= i < |m.slots|
        ensures SlotOk(S, S[d].fields[i], m.slots[i]) <==>
          KnownSlot(S, S[d].fields[i], m.slots[i]) && ForeignSlot(S, S[d].fields[i], m.slots[i])
      {
        assert m.slots[i] < m;
        SlotHalves(S, S[d].fields[i], m.slots[i]);
      }
    }
  }

  // ---------------------------------------------------------------------------------------------
  // Every unpacked message has them
  // ---------------------------------------------------------------------------------------------

  lemma MergeForeign(S: Schema, d: nat, e: Message, l: Message)
    requires ForeignOk(S, d, e) && ForeignOk(S, d, l)
    ensures ForeignOk(S, d, MergeMessages(S, d, e, l))
    decreases e, 1
  {
    hide ForeignSlot, UnknownOk, MergeSlot, GroupFree;
    var fs, r := S[d].fields, MergeMessages(S, d, e, l);
    forall i | 0 <= i < |fs| ensures ForeignSlot(S, fs[i], r.slots[i]) {
      assert e.slots[i] < e;
      MergeSlotForeign(S, fs[i], e.slots[i], l.slots[i], GroupFree(fs, l.slots, fs[i]));
    }
  }

  lemma MergeSlotForeign(S: Schema, f: Field, e: Slot, l: Slot, groupFree: bool)
    requires ForeignSlot(S, f, e) && ForeignSlot(S, f, l)
    ensures ForeignSlot(S, f, MergeSlot(S, f, e, l, groupFree))
    decreases e, 0
  {
    hide ForeignOk, MergeMessages;
    if f.typ.MESSAGE? && e.One? && e.v.Msg? && l.One? && l.v.Msg? { MergeForeign(S, f.typ.sub, e.v.m, l.v.m); }
    if e.Many? && l.Many? {
      assert forall k | 0 <= k < |e.vs + l.vs| :: ForeignValue(S, f.typ, (e.vs + l.vs)[k]) by {
        hide ForeignValue;
      }
    }
  }

  lemma ForeignAppend(S: Schema, f: Field, a: seq<Value>, b: seq<Value>)
    requires ForeignSlot(S, f, Many(a)) && forall k | 0 <= k < |b| :: ForeignValue(S, f.typ, b[k])
    ensures ForeignSlot(S, f, Many(a + b))
  {
    hide ForeignValue;
  }

  lemma ParseValueForeign(S: Schema, t: FieldType, mem: Member)
    requires SchemaOk(S) && MemberOk(mem)
    ensures ParseValue(S, t, mem).Some? ==> ForeignValue(S, t, ParseValue(S, t, mem).value)
    decreases |mem.data|, 0
  {
    hide ForeignOk, Unpack, ParseLeaf, SchemaOk;
    if t.MESSAGE? && mem.wire == WIRE_PREFIXED { UnpackForeign(S, t.sub, Body(mem)); }
  }

  lemma StepFieldForeign(S: Schema, f: Field, slot: Slot, mem: Member)
    requires SchemaOk(S) && MemberOk(mem) && ForeignSlot(S, f, slot)
    ensures StepField(S, f, slot, mem).Some? ==> ForeignSlot(S, f, StepField(S, f, slot, mem).value)
    decreases |mem.data|, 1
  {
    hide SchemaOk, ForeignOk, MergeMessages, ParseValue, ParsePacked, Body, MemberLen;
    if ReadsPacked(f, mem.wire) {
      if ParsePacked(f.typ, Body(mem)).Some? && slot.Many? {
        ParsePackedKinds(f.typ, Body(mem));
        ForeignAppend(S, f, slot.vs, ParsePacked(f.typ, Body(mem)).value);
      }
    } else if ParseValue(S, f.typ, mem).Some? {
      var v := ParseValue(S, f.typ, mem).value;
      ParseValueForeign(S, f.typ, mem);
      if f.rule.REPEATED? {
        if slot.Many? { ForeignAppend(S, f, slot.vs, [v]); }
      } else if f.typ.MESSAGE? && f.oneof.None? && slot.One? && slot.v.Msg? && v.Msg? {
        MergeForeign(S, f.typ.sub, slot.v.m, v.m);
      }
    }
  }

  lemma {:induction false} FoldSlotForeign(S: Schema, fs: seq<Field>, i: nat, slot: Slot, ms: seq<Member>)
    requires SchemaOk(S) && i < |fs| && AllOk(ms) && ForeignSlot(S, fs[i], slot)
    ensures FoldSlot(S, fs, i, slot, ms).Some? ==> ForeignSlot(S, fs[i], FoldSlot(S, fs, i, slot, ms).value)
    decreases Weight(ms), 0
  {
    hide SchemaOk, ForeignValue, StepField, MemberOk;
    if ms != [] {
      AllOkUncons(ms);
      if FieldIndex(fs, ms[0].tag) == Some(i) { StepFieldForeign(S, fs[i], slot, ms[0]); }
      if StepSlot(S, fs, i, slot, ms[0]).Some? {
        FoldSlotForeign(S, fs, i, StepSlot(S, fs, i, slot, ms[0]).value, ms[1..]);
      }
    }
  }

  lemma InitForeign(S: Schema, f: Field)
    requires FieldOk(S, f)
    ensures ForeignSlot(S, f, InitSlot(f))
  {
  }

  lemma {:induction false} UnknownOfOk(fs: seq<Field>, ms: seq<Member>)
    requires AllOk(ms)
    ensures UnknownOk(fs, UnknownOf(fs, ms))
  {
    assert forall k | 0 <= k < |UnknownOf(fs, ms)| :: UnknownOf(fs, ms)[k] in ms;
  }

  /** Whatever the bytes, what is unpacked as unknown is complete and unknown, at every level. */
  lemma UnpackForeign(S: Schema, d: nat, data: seq<byte>)
    requires SchemaOk(S)
    ensures Unpack(S, d, data).Some? ==> ForeignOk(S, d, Unpack(S, d, data).value)
    decreases |data|, 2
  {
    hide ForeignSlot, Scan, ApplyAll, FieldOk, FoldSlot, InitSlot, SchemaOk, Unpack, UnknownOk;
    if Unpack(S, d, data).Some? {
      var m := Unpack(S, d, data).value;
      var ms := UnpackParts(S, d, data);
      var fs := S[d].fields;
      ApplyAllUnknown(S, fs, InitMessage(fs), ms);
      InitUnknown(fs);
      assert m.unknown == UnknownOf(fs, ms);
      UnknownOfOk(fs, ms);
      forall i | 0 <= i < |fs| ensures ForeignSlot(S, fs[i], m.slots[i]) {
        UnpackedSlot(S, d, data, ms, i);
        DescAt(S, d, i);
        InitForeign(S, fs[i]);
        FoldSlotForeign(S, fs, i, InitSlot(fs[i]), ms);
      }
    }
  }

  // ---------------------------------------------------------------------------------------------
  // The round trip, both ways
  // ---------------------------------------------------------------------------------------------

  lemma NormalForeign(S: Schema, d: nat, m: Message)
    requires KnownMessage(S, d, m) && ForeignOk(S, d, Normalize(S, d, m))
    ensures ForeignOk(S, d, m)
    decreases m, 1
  {
    hide KnownSlot, ForeignSlot, NormalSlot, UnknownOk, OneofOk, Encode, Members;
    var fs, r := S[d].fields, Normalize(S, d, m);
    forall i | 0 <= i < |fs| ensures ForeignSlot(S, fs[i], m.slots[i]) {
      assert m.slots[i] < m;
      NormalizeAt(S, d, m, i);
      NormalSlotForeign(S, fs[i], m.slots[i]);
    }
  }

  lemma NormalSlotForeign(S: Schema, f: Field, slot: Slot)
    requires KnownSlot(S, f, slot) && ForeignSlot(S, f, NormalSlot(S, f, slot))
    ensures ForeignSlot(S, f, slot)
    decreases slot, 0
  {
    hide KnownMessage, ForeignOk, Normalize;
    match slot
    case Unset =>
    case One(v) => if v.Msg? { NormalForeign(S, f.typ.sub, v.m); }
    case Many(vs) =>
      forall k | 0 <= k < |vs| ensures ForeignValue(S, f.typ, vs[k]) {
        assert ForeignValue(S, f.typ, NormalValues(S, f.typ, vs)[k]) && KnownValue(S, f.typ, vs[k]);
        assert NormalValues(S, f.typ, vs)[k] == NormalValue(S, f.typ, vs[k]);
        if vs[k].Msg? { NormalForeign(S, f.typ.sub, vs[k].m); }
      }
  }

  /** A message with its known fields in order comes back from a round trip if and only if its unknown fields are complete and unknown. */
  lemma RoundTripIff(S: Schema, d: nat, m: Message)
    requires SchemaOk(S) && KnownMessage(S, d, m)
    ensures Unpack(S, d, Encode(S, d, m)) == Some(Normalize(S, d, m)) <==> ForeignOk(S, d, m)
  {
    hide *;
    MessageHalves(S, d, m);
    if ForeignOk(S, d, m) { UnpackEncode(S, d, m); }
    if Unpack(S, d, Encode(S, d, m)) == Some(Normalize(S, d, m)) {
      UnpackForeign(S, d, Encode(S, d, m));
      NormalForeign(S, d, m);
    }
  }

  const NO_FIELDS: Schema := [Desc([], [])]

  /** An unknown varint of no bytes: incomplete. */
  const HOLLOW := Message([], [Member(5, WIRE_VARINT, [])])

  /** Its known fields, none, are in order, and yet it does not come back. */
  lemma HollowIsLost()
    ensures SchemaOk(NO_FIELDS) && KnownMessage(NO_FIELDS, 0, HOLLOW)
    ensures Unpack(NO_FIELDS, 0, Encode(NO_FIELDS, 0, HOLLOW)) != Some(Normalize(NO_FIELDS, 0, HOLLOW))
  {
    var mem := Member(5, WIRE_VARINT, []);
    assert Members(NO_FIELDS, 0, HOLLOW) == [mem];
    assert EncodeMembers([mem]) == EncodeMember(mem) + EncodeMembers([mem][1..]) == EncodeMember(mem);
    assert Tag(5, WIRE_VARINT) == [0x28];
    assert KnownMessage(NO_FIELDS, 0, HOLLOW);
    RoundTripIff(NO_FIELDS, 0, HOLLOW);
  }
}
