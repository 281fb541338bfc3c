/** Unpacking what was packed gives the message back, up to the normalisation packing performs. */
module RoundTrip {
  import opened Seqs
  import opened Wire
  import opened Schema
  import opened Encoding
  import opened Decoding
  import opened SlotFold
  import opened Reading

  // ---------------------------------------------------------------------------------------------
  // Normal form
  // ---------------------------------------------------------------------------------------------

  function NormalValue(S: Schema, t: FieldType, v: Value): Value
    decreases v, 0
  {
    if v.Msg? && t.MESSAGE? then Msg(Normalize(S, t.sub, v.m)) else NormalLeaf(t, v)
  }

  function NormalValues(S: Schema, t: FieldType, vs: seq<Value>): (r: seq<Value>)
    ensures |r| == |vs|
    decreases vs, 1
  {
    seq(|vs|, i requires 0 <= i < |vs| => NormalValue(S, t, vs[i]))
  }

  /** A zero in an unlabeled field is not sent. */
  function NormalSlot(S: Schema, f: Field, slot: Slot): Slot
    decreases slot, 0
  {
    match slot
    case Unset => Unset
    case One(v) => if Skipped(f, v) then Unset else One(NormalValue(S, f.typ, v))
    case Many(vs) => Many(NormalValues(S, f.typ, vs))
  }

  /** The message that comes back. */
  function Normalize(S: Schema, d: nat, m: Message): (r: Message)
    ensures d < |S| && |S[d].fields| == |m.slots| ==> |r.slots| == |m.slots|
    decreases m, 1
  {
    if d < |S| && |S[d].fields| == |m.slots| then
      m.(slots := seq(|m.slots|, i requires 0 <= i < |m.slots| => NormalSlot(S, S[d].fields[i], m.slots[i])))
    else m
  }

  // ---------------------------------------------------------------------------------------------
  // Round trip
  // ---------------------------------------------------------------------------------------------

  lemma SlotReadsBack(S: Schema, f: Field, slot: Slot)
    requires SchemaOk(S) && SlotOk(S, f, slot)
    ensures ReadsSlot(S, S, f, slot, NormalSlot(S, f, slot))
    decreases slot, 0
  {
    hide SchemaOk, MessageOk, Unpack, Encode, Normalize;
    match slot
    case Unset =>
    case One(v) => if v.Msg? { UnpackEncode(S, f.typ.sub, v.m); }
    case Many(vs) =>
      forall k | 0 <= k < |vs| ensures ReadsValue(S, S, f.typ, vs[k], NormalValues(S, f.typ, vs)[k]) {
        assert ValueOk(S, f.typ, vs[k]);
        if vs[k].Msg? { UnpackEncode(S, f.typ.sub, vs[k].m); }
      }
  }

  lemma RequiredArePresent(S: Schema, d: nat, m: Message)
    requires SchemaOk(S) && MessageOk(S, d, m)
    ensures RequiredPresent(S[d].fields, Members(S, d, m))
  {
    var fs, ms := S[d].fields, Members(S, d, m);
    forall i | 0 <= i < |fs| && fs[i].rule.REQUIRED? && fs[i].default.None?
      ensures exists k :: 0 <= k < |ms| && ms[k].tag == fs[i].id
    {
      SlotMembersOk(S, d, m, i);
      FieldMembersInside(S, fs, m.slots, i, |m.slots|);
      var mem := FieldMembers(S, fs[i], m.slots[i])[0];
      assert mem in ms && mem.tag == fs[i].id;
    }
  }

  lemma NormalizeAt(S: Schema, d: nat, m: Message, i: nat)
    requires d < |S| && |S[d].fields| == |m.slots| && i < |m.slots|
    ensures |Normalize(S, d, m).slots| == |m.slots| && Normalize(S, d, m).unknown == m.unknown
    ensures Normalize(S, d, m).slots[i] == NormalSlot(S, S[d].fields[i], m.slots[i])
  {
  }

  lemma SameAgree(fs: seq<Field>)
    requires SortedIds(fs)
    ensures Agree(fs, fs)
  {
  }

  lemma OwnSource(S: Schema, fs: seq<Field>, slots: seq<Slot>, i: nat, final: Slot)
    requires SortedIds(fs) && i < |fs| == |slots| && ReadsSlot(S, S, fs[i], slots[i], final)
    ensures Source(S, S, fs, fs, slots, i, Some(i), final)
  {
    hide ReadsSlot;
  }

  lemma UnknownUntouched(S: Schema, d: nat, m: Message, i: nat, s: Slot)
    requires MessageOk(S, d, m) && i < |m.slots| == |S[d].fields|
    ensures FoldSlot(S, S[d].fields, i, s, m.unknown) == Some(s)
  {
    assert UnknownOk(S[d].fields, m.unknown);
    hide MessageOk;
    FoldUntouched(S, S[d].fields, i, s, m.unknown);
  }

  lemma UnknownBack(S: Schema, d: nat, m: Message)
    requires SchemaOk(S) && MessageOk(S, d, m) && |m.slots| == |S[d].fields|
    ensures UnknownOf(S[d].fields, Members(S, d, m)) == m.unknown
  {
    var fs, known := S[d].fields, FieldsMembers(S, S[d].fields, m.slots, |m.slots|);
    assert UnknownOk(fs, m.unknown) && Members(S, d, m) == known + m.unknown;
    hide MessageOk, SchemaOk, FieldsMembers;
    KnownMembersOk(S, d, m, |m.slots|);
    AllKnown(fs, known);
    AllUnknown(fs, m.unknown);
    UnknownOfAppend(fs, known, m.unknown);
  }

  lemma MembersSplit(S: Schema, d: nat, m: Message)
    requires MessageOk(S, d, m)
    ensures d < |S| && |m.slots| == |S[d].fields|
    ensures Members(S, d, m) == FieldsMembers(S, S[d].fields, m.slots, |m.slots|) + m.unknown
    ensures Encode(S, d, m) == EncodeMembers(Members(S, d, m)) && |Members(S, d, m)| <= SLAB_CAPACITY
    ensures |EncodeMembers(Members(S, d, m))| < TWO31
  {
    hide FieldsMembers, EncodeMembers;
  }

  lemma UnpackMembers(R: Schema, d: nat, ms: seq<Member>, r: Message)
    requires d < |R| && AllOk(ms) && |ms| <= SLAB_CAPACITY && RequiredPresent(R[d].fields, ms)
    requires ApplyAll(R, R[d].fields, InitMessage(R[d].fields), ms) == Some(r) && |EncodeMembers(ms)| < TWO31
    ensures Unpack(R, d, EncodeMembers(ms)) == Some(r)
  {
    hide EncodeMembers, ApplyAll, Scan, AllOk, RequiredPresent, ArraysFit, Weight;
    ScanInverse(ms);
    ShortFits(R, d, ms);
  }

  lemma InitAt(fs: seq<Field>, i: nat)
    requires i < |fs|
    ensures InitMessage(fs).slots[i] == InitSlot(fs[i]) && InitMessage(fs).unknown == []
  {
  }

  /** Round trip: for every schema and every message that can be packed, unpacking gives its normal form. */
  lemma UnpackEncode(S: Schema, d: nat, m: Message)
    requires SchemaOk(S) && MessageOk(S, d, m)
    ensures Unpack(S, d, Encode(S, d, m)) == Some(Normalize(S, d, m))
    decreases m, 1
  {
    hide *;
    MembersSplit(S, d, m);
    var fs, ms, normal := S[d].fields, Members(S, d, m), Normalize(S, d, m);
    var init, known := InitMessage(fs), FieldsMembers(S, fs, m.slots, |m.slots|);
    MembersOk(S, d, m);
    RequiredArePresent(S, d, m);
    NormalizeShape(S, d, m);
    forall i | 0 <= i < |fs| ensures FoldSlot(S, fs, i, init.slots[i], ms) == Some(normal.slots[i]) {
      InitAt(fs, i);
      NormalizeAt(S, d, m, i);
      DescAt(S, d, i);
      SlotOkAt(S, d, m, i);
      assert m.slots[i] < m;
      SlotReadsBack(S, fs[i], m.slots[i]);
      SameAgree(fs);
      OwnSource(S, fs, m.slots, i, normal.slots[i]);
      FoldFields(S, S, d, m, i, Some(i), normal.slots[i], |m.slots|);
      UnknownUntouched(S, d, m, i, normal.slots[i]);
      FoldTwo(S, fs, i, init.slots[i], normal.slots[i], normal.slots[i], known, m.unknown);
    }
    UnknownBack(S, d, m);
    InitUnknown(fs);
    Empty(m.unknown);
    ApplyAllBySlots(S, fs, init, ms, normal);
    UnpackMembers(S, d, ms, normal);
  }

  lemma NormalizeShape(S: Schema, d: nat, m: Message)
    requires d < |S| && |S[d].fields| == |m.slots|
    ensures |Normalize(S, d, m).slots| == |m.slots| && Normalize(S, d, m).unknown == m.unknown
  {
  }

  lemma InitUnknown(fs: seq<Field>)
    ensures InitMessage(fs).unknown == []
  {
  }
}
