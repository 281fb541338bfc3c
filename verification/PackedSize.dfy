/** `protobuf_c_message_get_packed_size`: computes the length of the serialised message without producing it. */
module PackedSize {
  import opened Seqs
  import opened Wire
  import opened Schema
  import opened Encoding
  import opened Reading

  lemma TagLength(tag: u32, wire: WireType)
    ensures |Tag(tag, wire)| == TagSize(tag)
  {
    SplitTag(tag, wire);
    assert TagSize(tag) == |Varint(tag * 8 + wire)|;
  }

  lemma EncodeSingle(mem: Member)
    ensures EncodeMembers([mem]) == EncodeMember(mem)
  {
    assert [mem][1..] == [];
    Empty(EncodeMember(mem));
  }

  lemma MemberLength(mem: Member)
    ensures |EncodeMembers([mem])| == TagSize(mem.tag) + |mem.data|
  {
    EncodeSingle(mem);
    TagLength(mem.tag, mem.wire);
  }

  /** The payload of a packable value takes between one and ten times its type's minimum. */
  function MinSize(t: FieldType): nat { if Is32(t) then 4 else if Is64(t) then 8 else 1 }

  lemma ScalarLength(S: Schema, t: FieldType, v: Value)
    requires Packable(t) && KindOk(t, v)
    ensures MinSize(t) <= |Payload(S, t, v)| <= 10 * MinSize(t)
    ensures !IsVarint(t) || t.BOOL? ==> |Payload(S, t, v)| == MinSize(t)
  {
    if IsVarint(t) { assert UInt64Size(ToVarint(t, v)) <= 10; }
  }

  lemma {:induction false} ScalarLengths(S: Schema, t: FieldType, vs: seq<Value>, n: nat)
    requires Packable(t) && n <= |vs| && forall k | 0 <= k < |vs| :: KindOk(t, vs[k])
    ensures MinSize(t) * n <= |Payloads(S, t, vs, n)| <= 10 * (MinSize(t) * n)
    ensures !IsVarint(t) || t.BOOL? ==> |Payloads(S, t, vs, n)| == MinSize(t) * n
    decreases n
  {
    hide Payload;
    if n > 0 {
      ScalarLengths(S, t, vs, n - 1);
      ScalarLength(S, t, vs[n - 1]);
      assert MinSize(t) * n == MinSize(t) * (n - 1) + MinSize(t);
    }
  }

  /** A repeated field costs one tag for each element, or one tag and one length prefix if it is packed. */
  lemma {:induction false} ElementsLength(S: Schema, f: Field, vs: seq<Value>, n: nat)
    requires f.id < TWO32 && n <= |vs|
    ensures |EncodeMembers(ElementMembers(S, f, vs, n))| == TagSize(f.id) * n + |Payloads(S, f.typ, vs, n)|
    decreases n
  {
    hide EncodeMembers, Payload;
    if n == 0 {
      NothingToScan();
    } else {
      ElementsLength(S, f, vs, n - 1);
      EncodeMembersAppend(ElementMembers(S, f, vs, n - 1), [ElementMember(S, f, vs[n - 1])]);
      MemberLength(ElementMember(S, f, vs[n - 1]));
      assert TagSize(f.id) * n == TagSize(f.id) * (n - 1) + TagSize(f.id);
    }
  }

  function FieldBytes(S: Schema, f: Field, slot: Slot): seq<byte> { EncodeMembers(FieldMembers(S, f, slot)) }

  lemma RepeatedLength(S: Schema, f: Field, vs: seq<Value>)
    requires f.id < TWO32
    ensures |FieldBytes(S, f, Many(vs))| ==
      if vs == [] then 0
      else var n := |Payloads(S, f.typ, vs, |vs|)|;
        if f.packed then TagSize(f.id) + |Varint(n)| + n else TagSize(f.id) * |vs| + n
  {
    hide *;
    NothingToScan();
    if vs == [] { NoElementBytes(S, f); }
    else if f.packed { PackedLength(S, f, vs); }
    else { UnpackedLength(S, f, vs); }
  }

  lemma NoElementBytes(S: Schema, f: Field)
    ensures FieldBytes(S, f, Many([])) == []
  {
  }

  lemma PackedLength(S: Schema, f: Field, vs: seq<Value>)
    requires f.id < TWO32 && f.packed && vs != []
    ensures var n := |Payloads(S, f.typ, vs, |vs|)|; |FieldBytes(S, f, Many(vs))| == TagSize(f.id) + |Varint(n)| + n
  {
    hide EncodeMembers, Payloads, TagSize, Varint;
    MemberLength(Member(f.id, WIRE_PREFIXED, Prefixed(Payloads(S, f.typ, vs, |vs|))));
  }

  lemma UnpackedLength(S: Schema, f: Field, vs: seq<Value>)
    requires f.id < TWO32 && !f.packed && vs != []
    ensures |FieldBytes(S, f, Many(vs))| == TagSize(f.id) * |vs| + |Payloads(S, f.typ, vs, |vs|)|
  {
    hide EncodeMembers, Payloads, TagSize, ElementMembers;
    ElementsLength(S, f, vs, |vs|);
  }

  lemma SingleLength(S: Schema, f: Field, v: Value)
    requires f.id < TWO32 && !Skipped(f, v)
    ensures |FieldBytes(S, f, One(v))| == TagSize(f.id) + |Payload(S, f.typ, v)|
  {
    hide EncodeMembers, Payload, Skipped;
    MemberLength(ElementMember(S, f, v));
  }

  /** The sizes that fit in the C types, field by field. */
  ghost predicate FieldFits(S: Schema, f: Field, slot: Slot) {
    && SchemaOk(S) && FieldOk(S, f) && SlotOk(S, f, slot) && |FieldBytes(S, f, slot)| < TWO31
  }

  lemma OneFits(S: Schema, f: Field, v: Value)
    requires FieldFits(S, f, One(v)) && !Skipped(f, v)
    ensures ValueOk(S, f.typ, v) && |Payload(S, f.typ, v)| < TWO31 && f.id < TWO32 && !f.rule.REPEATED?
  {
    hide ValueOk, Payload, FieldMembers, EncodeMembers, Skipped;
    SingleLength(S, f, v);
  }

  lemma {:induction false} PayloadsShorter(S: Schema, t: FieldType, vs: seq<Value>, k: nat, n: nat)
    requires k < n <= |vs|
    ensures |Payload(S, t, vs[k])| <= |Payloads(S, t, vs, n)|
    decreases n
  {
    hide Payload;
    if k < n - 1 { PayloadsShorter(S, t, vs, k, n - 1); }
  }

  lemma ManyFits(S: Schema, f: Field, vs: seq<Value>)
    requires FieldFits(S, f, Many(vs))
    ensures f.id < TWO32 && |Payloads(S, f.typ, vs, |vs|)| < TWO31 && f.rule.REPEATED?
    ensures forall k | 0 <= k < |vs| :: ValueOk(S, f.typ, vs[k]) && KindOk(f.typ, vs[k]) && |Payload(S, f.typ, vs[k])| < TWO31
    ensures f.packed ==> Packable(f.typ)
  {
    hide Payload, FieldMembers, EncodeMembers, MessageOk;
    RepeatedLength(S, f, vs);
    if vs == [] { assert Payloads(S, f.typ, vs, 0) == []; }
    forall k | 0 <= k < |vs| ensures |Payload(S, f.typ, vs[k])| < TWO31 { PayloadsShorter(S, f.typ, vs, k, |vs|); }
  }

  // ---------------------------------------------------------------------------------------------
  // The size functions
  // ---------------------------------------------------------------------------------------------

  /** The switch of `required_field_get_packed_size`, without the tag. */
  method PayloadSize(S: Schema, t: FieldType, v: Value) returns (rv: nat)
    requires SchemaOk(S) && ValueOk(S, t, v) && |Payload(S, t, v)| < TWO31
    ensures rv == |Payload(S, t, v)|
    decreases v, 0
  {
    match v
    case V32(n) =>
      if t.SINT32? { rv := UInt32Size(ZigZag32(AsInt32(n))); }
      else if t.ENUM? || t.INT32? { rv := Int32Size(AsInt32(n)); }
      else if t.UINT32? { rv := UInt32Size(n); }
      else if t.BOOL? { rv := 1; }
      else { rv := 4; }
    case V64(n) =>
      if t.SINT64? { rv := UInt64Size(ZigZag64(AsInt64(n))); }
      else if t.INT64? || t.UINT64? { rv := UInt64Size(n); }
      else { rv := 8; }
    case Str(s) => rv := UInt32Size(|s|) + |s|;
    case Bin(b) => rv := UInt32Size(|b|) + |b|;
    case Msg(m) =>
      var subrv := MessageSize(S, t.sub, m);
      rv := UInt32Size(subrv) + subrv;
  }

  method RequiredFieldSize(S: Schema, f: Field, v: Value) returns (rv: nat)
    requires SchemaOk(S) && ValueOk(S, f.typ, v) && |Payload(S, f.typ, v)| < TWO31 && f.id < TWO32
    ensures rv == TagSize(f.id) + |Payload(S, f.typ, v)|
    decreases v, 1
  {
    var payload := PayloadSize(S, f.typ, v);
    rv := TagSize(f.id) + payload;
  }

  method RepeatedFieldSize(S: Schema, f: Field, vs: seq<Value>) returns (rv: nat)
    requires FieldFits(S, f, Many(vs))
    ensures rv == |FieldBytes(S, f, Many(vs))|
    decreases vs, 1
  {
    hide FieldFits, FieldBytes, ValueOk, Payload, Payloads, SchemaOk;
    ManyFits(S, f, vs);
    RepeatedLength(S, f, vs);
    FitsSchema(S, f, Many(vs));
    if |vs| == 0 { return 0; }
    var header := TagSize(f.id);
    if !f.packed { header := header * |vs|; }
    rv := 0;
    if Is32(f.typ) || Is64(f.typ) || f.typ.BOOL? {
      ScalarLengths(S, f.typ, vs, |vs|);
      rv := MinSize(f.typ) * |vs|;
    } else {
      NoPayload(S, f.typ, vs);
      for i := 0 to |vs|
        invariant rv == |Payloads(S, f.typ, vs, i)|
      {
        var n := PayloadSize(S, f.typ, vs[i]);
        PayloadsUnfold(S, f.typ, vs, i + 1);
        rv := rv + n;
      }
    }
    if f.packed { header := header + UInt32Size(rv); }
    rv := header + rv;
  }

  lemma NoPayload(S: Schema, t: FieldType, vs: seq<Value>)
    ensures Payloads(S, t, vs, 0) == []
  {
  }

  lemma FitsSchema(S: Schema, f: Field, slot: Slot)
    requires FieldFits(S, f, slot)
    ensures SchemaOk(S)
  {
    hide SchemaOk, FieldBytes;
  }

  lemma NoFieldBytes(S: Schema, f: Field, slot: Slot)
    requires slot.Unset? || (slot.One? && Skipped(f, slot.v))
    ensures FieldBytes(S, f, slot) == []
  {
  }

  method FieldSize(S: Schema, f: Field, slot: Slot) returns (rv: nat)
    requires FieldFits(S, f, slot)
    ensures rv == |FieldBytes(S, f, slot)|
    decreases slot, 2
  {
    FitsSchema(S, f, slot);
    hide FieldFits, FieldBytes, ValueOk, Payload, SchemaOk, Skipped;
    match slot
    case Unset =>
      NoFieldBytes(S, f, slot);
      rv := 0;
    case One(v) =>
      if Skipped(f, v) {
        NoFieldBytes(S, f, slot);
        rv := 0;
      } else {
        OneFits(S, f, v);
        SingleLength(S, f, v);
        rv := RequiredFieldSize(S, f, v);
      }
    case Many(vs) =>
      rv := RepeatedFieldSize(S, f, vs);
  }

  lemma MessageFits(S: Schema, d: nat, m: Message, i: nat)
    requires SchemaOk(S) && MessageOk(S, d, m) && i < |m.slots|
    ensures d < |S| && |m.slots| == |S[d].fields| && FieldFits(S, S[d].fields[i], m.slots[i])
    ensures |FieldPrefix(S, d, m, i + 1)| < TWO31
    ensures FieldPrefix(S, d, m, i + 1) == FieldPrefix(S, d, m, i) + FieldBytes(S, S[d].fields[i], m.slots[i])
  {
    hide MessageOk, SchemaOk, EncodeMembers, SlotOk, FieldsMembers, FieldOk;
    Shape(S, d, m);
    DescAt(S, d, i);
    SlotOkAt(S, d, m, i);
    FieldsMembersUnfold(S, S[d].fields, m.slots, i + 1);
    EncodeMembersAppend(FieldsMembers(S, S[d].fields, m.slots, i), FieldMembers(S, S[d].fields[i], m.slots[i]));
    PrefixShorter(S, d, m, i + 1);
  }

  /** What the first `n` fields serialise to. */
  function FieldPrefix(S: Schema, d: nat, m: Message, n: nat): seq<byte>
    requires d < |S| && |m.slots| == |S[d].fields| && n <= |m.slots|
  {
    EncodeMembers(FieldsMembers(S, S[d].fields, m.slots, n))
  }

  lemma {:induction false} PrefixGrows(S: Schema, d: nat, m: Message, k: nat, n: nat)
    requires d < |S| && |m.slots| == |S[d].fields| && k <= n <= |m.slots|
    ensures |FieldPrefix(S, d, m, k)| <= |FieldPrefix(S, d, m, n)|
    decreases n
  {
    hide EncodeMembers, FieldMembers;
    if k < n {
      PrefixGrows(S, d, m, k, n - 1);
      FieldsMembersUnfold(S, S[d].fields, m.slots, n);
      EncodeMembersAppend(FieldsMembers(S, S[d].fields, m.slots, n - 1), FieldMembers(S, S[d].fields[n - 1], m.slots[n - 1]));
    }
  }

  lemma PrefixShorter(S: Schema, d: nat, m: Message, n: nat)
    requires MessageOk(S, d, m) && n <= |m.slots|
    ensures d < |S| && |m.slots| == |S[d].fields| && |FieldPrefix(S, d, m, n)| <= |Encode(S, d, m)| < TWO31
  {
    hide EncodeMembers, FieldMembers;
    Shape(S, d, m);
    PrefixGrows(S, d, m, n, |m.slots|);
    EncodeSplit(S, d, m);
  }

  /** Fields first, then what the descriptor does not know. */
  lemma EncodeSplit(S: Schema, d: nat, m: Message)
    requires MessageOk(S, d, m)
    ensures d < |S| && |m.slots| == |S[d].fields|
    ensures Encode(S, d, m) == FieldPrefix(S, d, m, |m.slots|) + EncodeMembers(m.unknown)
    ensures |Encode(S, d, m)| < TWO31
  {
    hide EncodeMembers, FieldMembers;
    EncodeMembersAppend(FieldsMembers(S, S[d].fields, m.slots, |m.slots|), m.unknown);
  }

  lemma {:induction false} EncodeSnoc(ms: seq<Member>, n: nat)
    requires n < |ms|
    ensures EncodeMembers(ms[..n + 1]) == EncodeMembers(ms[..n]) + EncodeMember(ms[n])
  {
    hide EncodeMembers;
    TakeSnoc(ms, n + 1);
    EncodeMembersAppend(ms[..n], [ms[n]]);
    EncodeSingle(ms[n]);
  }

  /** The size a message is given is the size it is packed to. */
  method MessageSize(S: Schema, d: nat, m: Message) returns (rv: nat)
    requires SchemaOk(S) && MessageOk(S, d, m)
    ensures rv == |Encode(S, d, m)|
    decreases m, 0
  {
    hide *;
    EncodeSplit(S, d, m);
    NoFieldsYet(S, d, m);
    rv := 0;
    for i := 0 to |S[d].fields|
      invariant rv == |FieldPrefix(S, d, m, i)|
    {
      MessageFits(S, d, m, i);
      assert m.slots[i] < m;
      var n := FieldSize(S, S[d].fields[i], m.slots[i]);
      rv := rv + n;
    }
    NothingToScan();
    for i := 0 to |m.unknown|
      invariant rv == |FieldPrefix(S, d, m, |m.slots|)| + |EncodeMembers(m.unknown[..i])|
    {
      EncodeSnoc(m.unknown, i);
      EncodedLength(m.unknown[i]);
      rv := rv + (TagSize(m.unknown[i].tag) + |m.unknown[i].data|);
    }
    TakeAll(m.unknown);
  }

  lemma NoFieldsYet(S: Schema, d: nat, m: Message)
    requires d < |S| && |m.slots| == |S[d].fields|
    ensures FieldPrefix(S, d, m, 0) == []
  {
  }

  lemma EncodedLength(mem: Member)
    ensures |EncodeMember(mem)| == TagSize(mem.tag) + |mem.data|
  {
    TagLength(mem.tag, mem.wire);
  }
}
