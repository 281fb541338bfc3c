/**
 What a reader makes of the members a writer produced.  The two may use different schemas: the lemmas here ask
 only that the field in question is the same in both, and that its sub-messages are read back as claimed.
 Reading with the writer's schema, with an older one and with a newer one are the three uses.
 */
module Reading {
  import opened Seqs
  import opened Wire
  import opened Schema
  import opened Encoding
  import opened Decoding
  import opened SlotFold

  // ---------------------------------------------------------------------------------------------
  // Members survive
  // ---------------------------------------------------------------------------------------------

  lemma SplitTag(tag: u32, wire: WireType)
    ensures (tag * 8 + wire) / 8 == tag && (tag * 8 + wire) % 8 == wire
  {
  }

  lemma ParseTagInverse(tag: u32, wire: WireType, rest: seq<byte>)
    ensures ParseTag(Tag(tag, wire) + rest) == Some(Header(tag, wire, |Tag(tag, wire)|))
  {
    var bytes, number := Tag(tag, wire), tag * 8 + wire;
    TermLenFinds(bytes, rest, 5);
    assert (bytes + rest)[..|bytes|] == bytes;
    assert VarintValue(bytes) == number by { VarintInverse(number); }
    assert number / 8 == tag && number % 8 == wire by { SplitTag(tag, wire); }
    hide TermLen, VarintValue, Tag, Varint;
    assert Wrap32(number / 8) == tag;
  }

  lemma ScanMemberInverse(mem: Member, rest: seq<byte>)
    requires MemberOk(mem)
    ensures ScanMember(EncodeMember(mem) + rest) == Some((mem, |EncodeMember(mem)|))
  {
    var tag := Tag(mem.tag, mem.wire);
    var data := EncodeMember(mem) + rest;
    assert data == tag + (mem.data + rest);
    ParseTagInverse(mem.tag, mem.wire, mem.data + rest);
    assert data[|tag|..] == mem.data + rest;
    MemberLenExtend(mem.wire, mem.data, rest);
    assert (mem.data + rest)[..|mem.data|] == mem.data;
  }

  /** Splitting undoes joining, for any list of complete members. */
  lemma {:induction false} ScanInverse(ms: seq<Member>)
    requires AllOk(ms)
    ensures Scan(EncodeMembers(ms)) == Some(ms)
    decreases |ms|
  {
    hide *;
    NothingToScan();
    if ms != [] {
      AllOkUncons(ms);
      EncodeMembersUnfold(ms);
      var first, rest := EncodeMember(ms[0]), EncodeMembers(ms[1..]);
      ScanMemberInverse(ms[0], rest);
      SplitAppend(first, rest);
      ScanInverse(ms[1..]);
      ScanUnfold(first + rest, ms[0], |first|, ms[1..]);
      SplitAt(ms, 1);
    }
  }

  lemma NothingToScan()
    ensures EncodeMembers([]) == [] && Scan([]) == Some([])
  {
  }

  lemma AllOkUncons(ms: seq<Member>)
    requires AllOk(ms) && ms != []
    ensures MemberOk(ms[0]) && AllOk(ms[1..])
  {
    assert forall k | 0 <= k < |ms| - 1 :: ms[1..][k] == ms[k + 1];
  }

  lemma EncodeMembersUnfold(ms: seq<Member>)
    requires ms != []
    ensures EncodeMembers(ms) == EncodeMember(ms[0]) + EncodeMembers(ms[1..])
  {
  }

  lemma ScanUnfold(data: seq<byte>, mem: Member, used: nat, ms: seq<Member>)
    requires ScanMember(data) == Some((mem, used)) && used <= |data|
    requires Scan(data[used..]) == Some(ms)
    ensures Scan(data) == Some([mem] + ms)
  {
  }

  lemma {:induction false} MemberShorter(ms: seq<Member>, k: nat)
    requires k < |ms|
    ensures |ms[k].data| < |EncodeMembers(ms)|
    decreases k
  {
    if k > 0 {
      assert ms[k] == ms[1..][k - 1];
      MemberShorter(ms[1..], k - 1);
    }
  }

  ghost predicate Small(ms: seq<Member>) { forall k | 0 <= k < |ms| :: |ms[k].data| < TWO31 }

  ghost predicate AllTagged(ms: seq<Member>, id: int) { forall k | 0 <= k < |ms| :: ms[k].tag == id }

  /** Every member a field writes is complete and carries the field's id. */
  lemma FieldMembersOk(S: Schema, f: Field, slot: Slot)
    requires FieldOk(S, f) && SlotOk(S, f, slot) && Small(FieldMembers(S, f, slot))
    ensures AllOk(FieldMembers(S, f, slot)) && AllTagged(FieldMembers(S, f, slot), f.id)
  {
    var ms := FieldMembers(S, f, slot);
    hide Payload, MemberLen;
    match slot
    case Unset =>
    case One(v) =>
      if !Skipped(f, v) {
        assert |ms[0].data| < TWO31;
        PayloadMemberOk(S, f.typ, v);
      }
    case Many(vs) =>
      if f.packed {
        if vs != [] {
          assert |ms[0].data| < TWO31;
          PrefixedMember(Payloads(S, f.typ, vs, |vs|));
        }
      } else {
        ElementMembersAt(S, f, vs, |vs|);
        forall k | 0 <= k < |ms| ensures MemberOk(ms[k]) {
          assert |ms[k].data| < TWO31;
          PayloadMemberOk(S, f.typ, vs[k]);
        }
      }
  }

  lemma {:induction false} ElementMembersAt(S: Schema, f: Field, vs: seq<Value>, n: nat)
    requires n <= |vs|
    ensures forall k | 0 <= k < n ::
      ElementMembers(S, f, vs, n)[k] == Member(Wrap32(f.id), WireOf(f.typ), Payload(S, f.typ, vs[k]))
    decreases n
  {
    if n > 0 { ElementMembersAt(S, f, vs, n - 1); }
  }

  lemma {:induction false} FieldMembersInside(S: Schema, fs: seq<Field>, slots: seq<Slot>, i: nat, n: nat)
    requires i < n <= |fs| == |slots|
    ensures forall k | 0 <= k < |FieldMembers(S, fs[i], slots[i])| ::
      FieldMembers(S, fs[i], slots[i])[k] in FieldsMembers(S, fs, slots, n)
    decreases n
  {
    if i < n - 1 { FieldMembersInside(S, fs, slots, i, n - 1); }
  }

  lemma SlotMembersOk(S: Schema, d: nat, m: Message, i: nat)
    requires SchemaOk(S) && MessageOk(S, d, m) && i < |m.slots|
    ensures Small(FieldMembers(S, S[d].fields[i], m.slots[i])) && AllOk(FieldMembers(S, S[d].fields[i], m.slots[i]))
    ensures AllTagged(FieldMembers(S, S[d].fields[i], m.slots[i]), S[d].fields[i].id)
    ensures FieldOk(S, S[d].fields[i]) && SlotOk(S, S[d].fields[i], m.slots[i]) && SortedIds(S[d].fields)
  {
    assert DescOk(S, S[d]);
    var fs, all := S[d].fields, Members(S, d, m);
    var ms := FieldMembers(S, fs[i], m.slots[i]);
    FieldMembersInside(S, fs, m.slots, i, |m.slots|);
    forall k | 0 <= k < |ms| ensures |ms[k].data| < TWO31 {
      assert ms[k] in all;
      var j :| 0 <= j < |all| && all[j] == ms[k];
      MemberShorter(all, j);
    }
    FieldMembersOk(S, fs[i], m.slots[i]);
  }

  lemma Shape(S: Schema, d: nat, m: Message)
    requires MessageOk(S, d, m)
    ensures d < |S| && |m.slots| == |S[d].fields|
  {
  }

  lemma SlotOkAt(S: Schema, d: nat, m: Message, i: nat)
    requires MessageOk(S, d, m) && i < |m.slots|
    ensures d < |S| && |m.slots| == |S[d].fields| && SlotOk(S, S[d].fields[i], m.slots[i])
  {
  }

  /** The members of the first `n` fields are complete and known. */
  lemma {:induction false} KnownMembersOk(S: Schema, d: nat, m: Message, n: nat)
    requires SchemaOk(S) && MessageOk(S, d, m) && n <= |m.slots|
    ensures AllOk(FieldsMembers(S, S[d].fields, m.slots, n))
    ensures KnownTags(S[d].fields, FieldsMembers(S, S[d].fields, m.slots, n))
    decreases n
  {
    hide *;
    Shape(S, d, m);
    NoMembersOk(S, S[d].fields, m.slots);
    if n > 0 {
      var fs := S[d].fields;
      FieldsMembersUnfold(S, fs, m.slots, n);
      KnownMembersOk(S, d, m, n - 1);
      SlotMembersOk(S, d, m, n - 1);
      TaggedKnown(fs, n - 1, FieldMembers(S, fs[n - 1], m.slots[n - 1]));
      Joined(fs, FieldsMembers(S, fs, m.slots, n - 1), FieldMembers(S, fs[n - 1], m.slots[n - 1]));
    }
  }

  lemma NoMembersOk(S: Schema, fs: seq<Field>, slots: seq<Slot>)
    ensures AllOk(FieldsMembers(S, fs, slots, 0)) && KnownTags(fs, FieldsMembers(S, fs, slots, 0))
  {
  }

  lemma FieldsMembersUnfold(S: Schema, fs: seq<Field>, slots: seq<Slot>, n: nat)
    requires 0 < n <= |fs| && n <= |slots|
    ensures FieldsMembers(S, fs, slots, n) == FieldsMembers(S, fs, slots, n - 1) + FieldMembers(S, fs[n - 1], slots[n - 1])
  {
  }

  lemma TaggedKnown(fs: seq<Field>, i: nat, ms: seq<Member>)
    requires SortedIds(fs) && i < |fs| && AllTagged(ms, fs[i].id)
    ensures KnownTags(fs, ms)
  {
    FieldIndexOf(fs, i);
  }

  /** Packing only ever writes complete members. */
  lemma MembersOk(S: Schema, d: nat, m: Message)
    requires SchemaOk(S) && MessageOk(S, d, m)
    ensures AllOk(Members(S, d, m))
  {
    KnownMembersOk(S, d, m, |m.slots|);
  }

  // ---------------------------------------------------------------------------------------------
  // Values survive
  // ---------------------------------------------------------------------------------------------

  lemma {:induction false} ParseBooleanVarint(n: nat)
    ensures ParseBoolean(Varint(n)) <==> n != 0
  {
    if n >= 128 {
      ParseBooleanVarint(n / 128);
      assert Varint(n)[1..] == Varint(n / 128);
    }
  }

  lemma ParseUInt32Inverse(u: u64)
    ensures ParseUInt32(Varint(u)) == u % TWO32
    ensures u <= 0xFFFF_FFFF ==> ParseUInt32(Varint(u)) == u
  {
    hide VarintValue, ParseUInt32, Varint;
    VarintInverse(u);
    ParseUInt32Value(Varint(u));
  }

  lemma FromVarint32(t: FieldType, n: u32)
    requires t.INT32? || t.ENUM? || t.UINT32? || t.SINT32?
    ensures ToVarint(t, V32(n)) == if t.SINT32? then ZigZag32(AsInt32(n)) else if t.UINT32? then n else Wrap64(AsInt32(n))
    ensures var s := Varint(ToVarint(t, V32(n)));
      FromVarint(t, s) == V32(if t.SINT32? then Wrap32(UnZigZag32(ParseUInt32(s))) else ParseUInt32(s))
  {
    hide ParseUInt32, Varint, UnZigZag32, ZigZag32, AsInt32, Wrap32, Wrap64;
  }

  lemma Varint32Inverse(t: FieldType, n: u32)
    requires t.INT32? || t.ENUM? || t.UINT32? || t.SINT32?
    ensures FromVarint(t, Varint(ToVarint(t, V32(n)))) == V32(n)
  {
    hide *;
    var u := ToVarint(t, V32(n));
    ParseUInt32Inverse(u);
    FromVarint32(t, n);
    if t.SINT32? { SignedZigZag(n); } else if !t.UINT32? { SignExtension(n); }
  }

  lemma SignedZigZag(n: u32)
    ensures Wrap32(UnZigZag32(ZigZag32(AsInt32(n)) % TWO32)) == n
  {
    ZigZag32Bijective(AsInt32(n), 0);
    hide ZigZag32, UnZigZag32;
    var z := ZigZag32(AsInt32(n));
    assert z % TWO32 == z;
  }

  lemma SignedZigZag64(n: u64)
    ensures Wrap64(UnZigZag64(ZigZag64(AsInt64(n)))) == n
  {
    ZigZag64Bijective(AsInt64(n), 0);
    hide ZigZag64, UnZigZag64;
  }

  lemma ParseUInt64Inverse(u: u64)
    ensures ParseUInt64(Varint(u)) == u
  {
    hide VarintValue, ParseUInt64, Varint;
    VarintInverse(u);
    ParseUInt64Value(Varint(u));
  }

  lemma FromVarint64(t: FieldType, n: u64)
    requires t.INT64? || t.UINT64? || t.SINT64?
    ensures ToVarint(t, V64(n)) == if t.SINT64? then ZigZag64(AsInt64(n)) else n
    ensures var s := Varint(ToVarint(t, V64(n)));
      FromVarint(t, s) == V64(if t.SINT64? then Wrap64(UnZigZag64(ParseUInt64(s))) else ParseUInt64(s))
  {
    hide ParseUInt64, Varint, UnZigZag64, ZigZag64, AsInt64, Wrap64;
  }

  lemma Varint64Inverse(t: FieldType, n: u64)
    requires t.INT64? || t.UINT64? || t.SINT64?
    ensures FromVarint(t, Varint(ToVarint(t, V64(n)))) == V64(n)
  {
    hide *;
    var u := ToVarint(t, V64(n));
    ParseUInt64Inverse(u);
    FromVarint64(t, n);
    if t.SINT64? { SignedZigZag64(n); }
  }

  lemma VarintValueInverse(t: FieldType, v: Value)
    requires IsVarint(t) && KindOk(t, v)
    ensures FromVarint(t, Varint(ToVarint(t, v))) == NormalLeaf(t, v)
  {
    if t.BOOL? { ParseBooleanVarint(ToVarint(t, v)); }
    else if v.V32? { Varint32Inverse(t, v.n32); }
    else { Varint64Inverse(t, v.n64); }
  }

  /** Truncating the sign extension gives the 32-bit pattern back. */
  lemma SignExtension(n: u32)
    ensures Wrap64(AsInt32(n)) == if n < TWO31 then n else n + (TWO64 - TWO32)
    ensures Wrap64(AsInt32(n)) % TWO32 == n
  {
    if n >= TWO31 {
      assert TWO64 - TWO32 == TWO32 * (TWO32 - 1);
    }
  }

  lemma LeafInverse(S: Schema, id: u32, t: FieldType, v: Value)
    requires KindOk(t, v) && !v.Msg? && (v.Str? ==> 0 !in v.chars) && |Payload(S, t, v)| < TWO31
    requires MemberOk(Member(id, WireOf(t), Payload(S, t, v)))
    ensures ParseLeaf(t, Member(id, WireOf(t), Payload(S, t, v))) == Some(NormalLeaf(t, v))
  {
    match v
    case V32(n) => if Is32(t) { LittleEndian32Inverse(n); } else { VarintValueInverse(t, v); }
    case V64(n) => if Is64(t) { LittleEndian64Inverse(n); } else { VarintValueInverse(t, v); }
    case Str(s) => PrefixedMember(s);
    case Bin(b) => PrefixedMember(b);
  }

  // ---------------------------------------------------------------------------------------------
  // Packed fields survive
  // ---------------------------------------------------------------------------------------------

  lemma ElementLenExtend(t: FieldType, a: seq<byte>, b: seq<byte>)
    requires ElementLen(t, a) > 0
    ensures ElementLen(t, a + b) == ElementLen(t, a)
  {
    if !Is32(t) && !Is64(t) && !t.BOOL? {
      var k := TermLen(a, 10);
      assert a + b == a[..k] + (a[k..] + b);
      TermLenFinds(a[..k], a[k..] + b, 10);
    }
  }

  lemma ParsePackedStep(t: FieldType, a: seq<byte>)
    requires Packable(t) && a != [] && ParsePacked(t, a).Some?
    ensures ElementLen(t, a) > 0 && ParsePacked(t, a[ElementLen(t, a)..]).Some? && !(t.BOOL? && a[0] > 1)
    ensures ElementLen(t, a[..ElementLen(t, a)]) == ElementLen(t, a)
    ensures ParsePacked(t, a).value == [ElementValue(t, a[..ElementLen(t, a)])] + ParsePacked(t, a[ElementLen(t, a)..]).value
  {
    ElementLenPrefix(t, a);
  }

  lemma ParsePackedUnfold(t: FieldType, c: seq<byte>, k: nat, vs: seq<Value>)
    requires Packable(t) && k == ElementLen(t, c) > 0 && !(t.BOOL? && c[0] > 1)
    requires ParsePacked(t, c[k..]) == Some(vs)
    ensures ElementLen(t, c[..k]) == k
    ensures ParsePacked(t, c) == Some([ElementValue(t, c[..k])] + vs)
  {
    ElementLenPrefix(t, c);
  }

  lemma {:induction false} ParsePackedAppend(t: FieldType, a: seq<byte>, b: seq<byte>)
    requires Packable(t) && ParsePacked(t, a).Some? && ParsePacked(t, b).Some?
    ensures ParsePacked(t, a + b) == Some(ParsePacked(t, a).value + ParsePacked(t, b).value)
    decreases |a|
  {
    if a == [] {
      Empty(b);
      Empty(ParsePacked(t, b).value);
    } else {
      var k := ElementLen(t, a);
      ParsePackedStep(t, a);
      ElementLenExtend(t, a, b);
      ParsePackedAppend(t, a[k..], b);
      hide *;
      SliceAppend(a, b, k);
      var v, vs, ws := [ElementValue(t, a[..k])], ParsePacked(t, a[k..]).value, ParsePacked(t, b).value;
      ParsePackedUnfold(t, a + b, k, vs + ws);
      Assoc(v, vs, ws);
    }
  }

  lemma ParsePackedSingle(t: FieldType, p: seq<byte>)
    requires Packable(t) && ElementLen(t, p) == |p| > 0 && (t.BOOL? ==> p[0] <= 1)
    ensures ParsePacked(t, p) == Some([ElementValue(t, p)])
  {
    assert p[..|p|] == p && p[|p|..] == [];
    assert ParsePacked(t, p[|p|..]) == Some([]);
    assert [ElementValue(t, p)] + [] == [ElementValue(t, p)];
  }

  lemma ElementInverse(S: Schema, t: FieldType, v: Value)
    requires Packable(t) && KindOk(t, v)
    ensures ParsePacked(t, Payload(S, t, v)) == Some([NormalLeaf(t, v)])
  {
    var p := Payload(S, t, v);
    if Is32(t) {
      LittleEndian32Inverse(v.n32);
    } else if Is64(t) {
      LittleEndian64Inverse(v.n64);
    } else if t.BOOL? {
      assert p == [ToVarint(t, v)];
    } else {
      VarintMember(ToVarint(t, v));
      VarintValueInverse(t, v);
    }
    ParsePackedSingle(t, p);
  }

  lemma {:induction false} PayloadsRead(W: Schema, R: Schema, t: FieldType, vs: seq<Value>, ws: seq<Value>, n: nat)
    requires Packable(t) && n <= |vs| && ReadsValues(W, R, t, vs, ws)
    ensures ParsePacked(t, Payloads(W, t, vs, n)) == Some(ws[..n])
    decreases n
  {
    hide *;
    NoPayloads(W, t, vs, ws);
    if n > 0 {
      ReadsValuesAt(W, R, t, vs, ws, n - 1);
      PayloadsRead(W, R, t, vs, ws, n - 1);
      ElementInverse(W, t, vs[n - 1]);
      PayloadsUnfold(W, t, vs, n);
      LeafRead(W, R, t, vs[n - 1], ws[n - 1]);
      ParsePackedAppend(t, Payloads(W, t, vs, n - 1), Payload(W, t, vs[n - 1]));
      TakeSnoc(ws, n);
    }
  }

  lemma NoPayloads(W: Schema, t: FieldType, vs: seq<Value>, ws: seq<Value>)
    requires Packable(t)
    ensures ParsePacked(t, Payloads(W, t, vs, 0)) == Some(ws[..0])
  {
  }

  lemma LeafRead(W: Schema, R: Schema, t: FieldType, v: Value, w: Value)
    requires ReadsValue(W, R, t, v, w) && Packable(t)
    ensures w == NormalLeaf(t, v)
  {
  }

  lemma PayloadsUnfold(S: Schema, t: FieldType, vs: seq<Value>, n: nat)
    requires 0 < n <= |vs|
    ensures Payloads(S, t, vs, n) == Payloads(S, t, vs, n - 1) + Payload(S, t, vs[n - 1])
  {
  }

  // ---------------------------------------------------------------------------------------------
  // Slots survive
  // ---------------------------------------------------------------------------------------------

  /** Booleans become 0 or 1. */
  function NormalLeaf(t: FieldType, v: Value): Value {
    if t.BOOL? && v.V32? then FromBool(v.n32 != 0) else v
  }

  /** `v` as packed with schema `W` is unpacked with schema `R` as `w`. */
  ghost predicate ReadsValue(W: Schema, R: Schema, t: FieldType, v: Value, w: Value) {
    && KindOk(t, v)
    && (v.Str? ==> 0 !in v.chars)
    && if v.Msg? then w.Msg? && Unpack(R, t.sub, Encode(W, t.sub, v.m)) == Some(w.m) else w == NormalLeaf(t, v)
  }

  ghost predicate ReadsValues(W: Schema, R: Schema, t: FieldType, vs: seq<Value>, ws: seq<Value>) {
    |vs| == |ws| && forall k | 0 <= k < |vs| :: ReadsValue(W, R, t, vs[k], ws[k])
  }

  /** A zero in an unlabeled field is not sent. */
  ghost predicate ReadsSlot(W: Schema, R: Schema, f: Field, s: Slot, r: Slot) {
    match s
    case Unset => r.Unset? && (f.rule.OPTIONAL? || f.rule.UNLABELED?)
    case One(v) => !f.rule.REPEATED? && if Skipped(f, v) then r.Unset? else r.One? && ReadsValue(W, R, f.typ, v, r.v)
    case Many(vs) => f.rule.REPEATED? && r.Many? && ReadsValues(W, R, f.typ, vs, r.vs)
  }

  lemma ReadsValuesAt(W: Schema, R: Schema, t: FieldType, vs: seq<Value>, ws: seq<Value>, k: nat)
    requires ReadsValues(W, R, t, vs, ws) && k < |vs|
    ensures |vs| == |ws| && ReadsValue(W, R, t, vs[k], ws[k]) && KindOk(t, vs[k])
  {
  }

  lemma ParseValueReads(W: Schema, R: Schema, id: u32, t: FieldType, v: Value, w: Value)
    requires ReadsValue(W, R, t, v, w) && |Payload(W, t, v)| < TWO31
    requires MemberOk(Member(id, WireOf(t), Payload(W, t, v)))
    ensures ParseValue(R, t, Member(id, WireOf(t), Payload(W, t, v))) == Some(w)
  {
    if v.Msg? {
      hide Unpack, Encode;
      PrefixedMember(Encode(W, t.sub, v.m));
    } else {
      LeafInverse(W, id, t, v);
      hide *;
      LeafIsValue(R, t, Member(id, WireOf(t), Payload(W, t, v)));
    }
  }

  lemma LeafIsValue(R: Schema, t: FieldType, mem: Member)
    requires MemberOk(mem) && !t.MESSAGE?
    ensures ParseValue(R, t, mem) == ParseLeaf(t, mem)
  {
  }

  lemma {:induction false} ElementsRead(W: Schema, R: Schema, fs: seq<Field>, i: nat, vs: seq<Value>, ws: seq<Value>, n: nat)
    requires SortedIds(fs) && i < |fs| && fs[i].id < TWO32 && fs[i].rule.REPEATED? && !fs[i].packed
    requires ReadsValues(W, R, fs[i].typ, vs, ws) && n <= |vs|
    requires AllOk(ElementMembers(W, fs[i], vs, n)) && Small(ElementMembers(W, fs[i], vs, n))
    ensures FoldSlot(R, fs, i, Many([]), ElementMembers(W, fs[i], vs, n)) == Some(Many(ws[..n]))
    decreases n
  {
    hide *;
    NoElements(W, R, fs, i, vs, ws);
    if n > 0 {
      var f := fs[i];
      var before, mem := ElementMembers(W, f, vs, n - 1), ElementMember(W, f, vs[n - 1]);
      ReadsValuesAt(W, R, f.typ, vs, ws, n - 1);
      ElementMembersUnfold(W, f, vs, n);
      ElementsRead(W, R, fs, i, vs, ws, n - 1);
      ParseValueReads(W, R, f.id, f.typ, vs[n - 1], ws[n - 1]);
      StepElement(R, f, ws[..n - 1], mem, ws[n - 1]);
      StepOne(R, fs, i, Many(ws[..n - 1]), mem);
      TakeSnoc(ws, n);
      FoldTwo(R, fs, i, Many([]), Many(ws[..n - 1]), Many(ws[..n]), before, [mem]);
    }
  }

  lemma NoElements(W: Schema, R: Schema, fs: seq<Field>, i: nat, vs: seq<Value>, ws: seq<Value>)
    requires i < |fs|
    ensures FoldSlot(R, fs, i, Many([]), ElementMembers(W, fs[i], vs, 0)) == Some(Many(ws[..0]))
  {
  }

  function ElementMember(S: Schema, f: Field, v: Value): Member {
    Member(Wrap32(f.id), WireOf(f.typ), Payload(S, f.typ, v))
  }

  /** The last element of an unpacked field is complete and is read as a single value. */
  lemma ElementMembersUnfold(S: Schema, f: Field, vs: seq<Value>, n: nat)
    requires f.id < TWO32 && 0 < n <= |vs| && KindOk(f.typ, vs[n - 1])
    requires !f.packed && AllOk(ElementMembers(S, f, vs, n)) && Small(ElementMembers(S, f, vs, n))
    ensures var mem := ElementMember(S, f, vs[n - 1]);
      && ElementMembers(S, f, vs, n) == ElementMembers(S, f, vs, n - 1) + [mem]
      && AllOk(ElementMembers(S, f, vs, n - 1)) && Small(ElementMembers(S, f, vs, n - 1))
      && mem == Member(f.id, WireOf(f.typ), Payload(S, f.typ, vs[n - 1]))
      && MemberOk(mem) && |mem.data| < TWO31 && !ReadsPacked(f, mem.wire)
  {
    hide Payload, MemberLen;
    var all, before := ElementMembers(S, f, vs, n), ElementMembers(S, f, vs, n - 1);
    assert all[n - 1] == ElementMember(S, f, vs[n - 1]);
    assert forall k | 0 <= k < n - 1 :: before[k] == all[k];
  }

  lemma StepOne(S: Schema, fs: seq<Field>, i: nat, slot: Slot, mem: Member)
    requires SortedIds(fs) && i < |fs| && mem.tag == fs[i].id && MemberOk(mem)
    ensures FoldSlot(S, fs, i, slot, [mem]) == StepField(S, fs[i], slot, mem)
  {
    FieldIndexOf(fs, i);
    match StepField(S, fs[i], slot, mem)
    case None =>
    case Some(s) => assert FoldSlot(S, fs, i, s, [mem][1..]) == Some(s);
  }

  lemma StepPacked(S: Schema, f: Field, prev: seq<Value>, mem: Member, vs: seq<Value>)
    requires MemberOk(mem) && ReadsPacked(f, mem.wire) && ParsePacked(f.typ, Body(mem)) == Some(vs)
    ensures StepField(S, f, Many(prev), mem) == Some(Many(prev + vs))
  {
  }

  lemma StepElement(S: Schema, f: Field, prev: seq<Value>, mem: Member, v: Value)
    requires MemberOk(mem) && f.rule.REPEATED? && !ReadsPacked(f, mem.wire) && ParseValue(S, f.typ, mem) == Some(v)
    ensures StepField(S, f, Many(prev), mem) == Some(Many(prev + [v]))
  {
  }

  lemma OneRead(W: Schema, R: Schema, fs: seq<Field>, i: nat, v: Value, w: Value)
    requires SortedIds(fs) && i < |fs| && FieldOk(R, fs[i]) && !fs[i].rule.REPEATED? && !Skipped(fs[i], v)
    requires ReadsValue(W, R, fs[i].typ, v, w)
    requires AllOk(FieldMembers(W, fs[i], One(v))) && Small(FieldMembers(W, fs[i], One(v)))
    ensures FoldSlot(R, fs, i, InitSlot(fs[i]), FieldMembers(W, fs[i], One(v))) == Some(One(w))
  {
    hide *;
    OneMember(W, R, fs[i], v);
    var f, mem := fs[i], ElementMember(W, fs[i], v);
    ParseValueReads(W, R, f.id, f.typ, v, w);
    StepOne(R, fs, i, InitSlot(f), mem);
    StepFirst(R, f, mem, w);
  }

  lemma OneMember(W: Schema, R: Schema, f: Field, v: Value)
    requires FieldOk(R, f) && !Skipped(f, v)
    requires AllOk(FieldMembers(W, f, One(v))) && Small(FieldMembers(W, f, One(v)))
    ensures var mem := ElementMember(W, f, v);
      && FieldMembers(W, f, One(v)) == [mem] && mem == Member(f.id, WireOf(f.typ), Payload(W, f.typ, v))
      && MemberOk(mem) && |mem.data| < TWO31
  {
    hide Payload, MemberLen;
    assert FieldMembers(W, f, One(v))[0] == ElementMember(W, f, v);
  }

  /** A sub-message has no default, so the first value of a field is stored as it is. */
  lemma StepFirst(S: Schema, f: Field, mem: Member, v: Value)
    requires MemberOk(mem) && FieldOk(S, f) && !f.rule.REPEATED? && ParseValue(S, f.typ, mem) == Some(v)
    ensures StepField(S, f, InitSlot(f), mem) == Some(One(v))
  {
  }

  lemma PackedRead(W: Schema, R: Schema, fs: seq<Field>, i: nat, vs: seq<Value>, ws: seq<Value>)
    requires SortedIds(fs) && i < |fs| && FieldOk(R, fs[i]) && fs[i].packed && vs != []
    requires ReadsValues(W, R, fs[i].typ, vs, ws)
    requires AllOk(FieldMembers(W, fs[i], Many(vs))) && Small(FieldMembers(W, fs[i], Many(vs)))
    ensures FoldSlot(R, fs, i, Many([]), FieldMembers(W, fs[i], Many(vs))) == Some(Many(ws))
  {
    hide *;
    var f := fs[i];
    var mem := PackedMember(W, R, f, vs);
    PayloadsRead(W, R, f.typ, vs, ws, |vs|);
    SameLength(W, R, f.typ, vs, ws);
    TakeAll(ws);
    Empty(ws);
    StepPacked(R, f, [], mem, ws);
    StepOne(R, fs, i, Many([]), mem);
  }

  lemma SameLength(W: Schema, R: Schema, t: FieldType, vs: seq<Value>, ws: seq<Value>)
    requires ReadsValues(W, R, t, vs, ws)
    ensures |vs| == |ws|
  {
  }

  lemma PackedMember(W: Schema, R: Schema, f: Field, vs: seq<Value>) returns (mem: Member)
    requires FieldOk(R, f) && f.packed && vs != []
    requires AllOk(FieldMembers(W, f, Many(vs))) && Small(FieldMembers(W, f, Many(vs)))
    ensures FieldMembers(W, f, Many(vs)) == [mem] && mem.tag == f.id && MemberOk(mem)
    ensures Packable(f.typ) && ReadsPacked(f, mem.wire) && Body(mem) == Payloads(W, f.typ, vs, |vs|)
  {
    hide Payloads, MemberLen, Body, Prefixed;
    var payloads := Payloads(W, f.typ, vs, |vs|);
    mem := Member(f.id, WIRE_PREFIXED, Prefixed(payloads));
    assert FieldMembers(W, f, Many(vs))[0] == mem;
    BodyOfPrefixed(f.id, payloads);
  }

  lemma BodyOfPrefixed(tag: u32, s: seq<byte>)
    requires |Prefixed(s)| < TWO31
    ensures Body(Member(tag, WIRE_PREFIXED, Prefixed(s))) == s
  {
    PrefixedMember(s);
  }

  /** A field's members, read into the field's empty slot. */
  lemma SlotRead(W: Schema, R: Schema, fs: seq<Field>, i: nat, s: Slot, r: Slot)
    requires SortedIds(fs) && i < |fs| && FieldOk(R, fs[i]) && ReadsSlot(W, R, fs[i], s, r)
    requires AllOk(FieldMembers(W, fs[i], s)) && Small(FieldMembers(W, fs[i], s))
    ensures FoldSlot(R, fs, i, InitSlot(fs[i]), FieldMembers(W, fs[i], s)) == Some(r)
  {
    hide ReadsValues, ReadsValue, Payload, Payloads, ElementMembers, AllOk, Small, SortedIds;
    var f := fs[i];
    match s
    case Unset =>
    case One(v) => if !Skipped(f, v) { OneRead(W, R, fs, i, v, r.v); }
    case Many(vs) =>
      SameLength(W, R, f.typ, vs, r.vs);
      if !f.packed {
        ElementsRead(W, R, fs, i, vs, r.vs, |vs|);
        TakeAll(r.vs);
      } else if vs != [] {
        PackedRead(W, R, fs, i, vs, r.vs);
      }
  }

  // ---------------------------------------------------------------------------------------------
  // All fields of a message
  // ---------------------------------------------------------------------------------------------

  /** Fields with the same id are the same in both descriptors. */
  ghost predicate Agree(wfs: seq<Field>, rfs: seq<Field>) {
    forall k, i | 0 <= k < |wfs| && 0 <= i < |rfs| && wfs[k].id == rfs[i].id :: wfs[k] == rfs[i]
  }

  /** Slot `i` of the reader is written as field `k`, or not at all, and ends up as `final`. */
  ghost predicate Source(W: Schema, R: Schema, wfs: seq<Field>, rfs: seq<Field>, slots: seq<Slot>, i: nat, k: Option<nat>, final: Slot)
    requires |slots| == |wfs|
  {
    && i < |rfs|
    && (forall j | 0 <= j < |wfs| :: wfs[j].id == rfs[i].id <==> k == Some(j))
    && match k
       case None => final == InitSlot(rfs[i])
       case Some(j) => j < |wfs| && ReadsSlot(W, R, rfs[i], slots[j], final)
  }

  /** The members of another field `j` leave reader slot `i` as it is: if they share a oneof, slot `i` is unset anyway. */
  lemma OtherBlock(W: Schema, R: Schema, d: nat, m: Message, i: nat, k: Option<nat>, final: Slot, j: nat, s: Slot)
    requires SchemaOk(W) && MessageOk(W, d, m) && SchemaOk(R) && d < |R| && j < |m.slots| == |W[d].fields|
    requires Agree(W[d].fields, R[d].fields) && Source(W, R, W[d].fields, R[d].fields, m.slots, i, k, final) && k != Some(j)
    requires s == InitSlot(R[d].fields[i]) || s == final
    ensures FoldSlot(R, R[d].fields, i, s, FieldMembers(W, W[d].fields[j], m.slots[j])) == Some(s)
  {
    var wfs, rfs := W[d].fields, R[d].fields;
    var ms := FieldMembers(W, wfs[j], m.slots[j]);
    SlotMembersOk(W, d, m, j);
    DescAt(R, d, i);
    hide MessageOk, FoldSlot, MemberOk, ReadsValues, ReadsValue, SchemaOk;
    if ms != [] && SameGroup(rfs[i], wfs[j]) {
      assert k.Some? ==> m.slots[k.value].Unset? by { if k.Some? { OneCase(W, d, m, k.value, j); } }
      assert s.Unset?;
      forall n | 0 <= n < |ms| ensures FieldIndex(rfs, ms[n].tag) != Some(i) { assert ms[n].tag == wfs[j].id; }
      FoldSiblings(R, rfs, i, ms);
    } else {
      forall n | 0 <= n < |ms| ensures !Touches(rfs, i, ms[n]) { assert ms[n].tag == wfs[j].id; }
      FoldUntouched(R, rfs, i, s, ms);
    }
  }

  lemma OneCase(W: Schema, d: nat, m: Message, k: nat, j: nat)
    requires MessageOk(W, d, m) && k < |m.slots| == |W[d].fields| && j < |m.slots| && k != j
    requires SameGroup(W[d].fields[k], W[d].fields[j]) && FieldMembers(W, W[d].fields[j], m.slots[j]) != []
    ensures m.slots[k].Unset?
  {
    assert OneofOk(W[d].fields, m.slots);
    assert SameGroup(W[d].fields[j], W[d].fields[k]);
    hide MessageOk;
    assert !m.slots[j].Unset?;
  }

  lemma DescAt(S: Schema, d: nat, i: nat)
    requires SchemaOk(S) && d < |S| && i < |S[d].fields|
    ensures FieldOk(S, S[d].fields[i]) && SortedIds(S[d].fields)
  {
    assert DescOk(S, S[d]);
  }

  lemma OwnBlock(W: Schema, R: Schema, d: nat, m: Message, i: nat, k: nat, final: Slot)
    requires SchemaOk(W) && MessageOk(W, d, m) && SchemaOk(R) && d < |R| && k < |m.slots| == |W[d].fields|
    requires Agree(W[d].fields, R[d].fields) && Source(W, R, W[d].fields, R[d].fields, m.slots, i, Some(k), final)
    ensures FoldSlot(R, R[d].fields, i, InitSlot(R[d].fields[i]), FieldMembers(W, W[d].fields[k], m.slots[k])) == Some(final)
  {
    hide MessageOk, FoldSlot, ReadsSlot, SchemaOk, AllOk, Small;
    Shape(W, d, m);
    SlotMembersOk(W, d, m, k);
    DescAt(R, d, i);
    assert W[d].fields[k] == R[d].fields[i];
    SlotRead(W, R, R[d].fields, i, m.slots[k], final);
  }

  lemma NothingWritten(W: Schema, R: Schema, d: nat, m: Message, i: nat)
    requires d < |W| && d < |R| && |m.slots| == |W[d].fields| && i < |R[d].fields|
    ensures FoldSlot(R, R[d].fields, i, InitSlot(R[d].fields[i]), FieldsMembers(W, W[d].fields, m.slots, 0))
      == Some(InitSlot(R[d].fields[i]))
  {
  }

  lemma SourceIndex(W: Schema, R: Schema, wfs: seq<Field>, rfs: seq<Field>, slots: seq<Slot>, i: nat, k: Option<nat>, final: Slot)
    requires |slots| == |wfs| && Source(W, R, wfs, rfs, slots, i, k, final)
    ensures i < |rfs| && (k.Some? ==> k.value < |wfs|) && (k.None? ==> final == InitSlot(rfs[i]))
  {
  }

  /** After the members of the first `n` fields, reader slot `i` is final if its field is among them and untouched otherwise. */
  lemma {:induction false} FoldFields(W: Schema, R: Schema, d: nat, m: Message, i: nat, k: Option<nat>, final: Slot, n: nat)
    requires SchemaOk(W) && MessageOk(W, d, m) && SchemaOk(R) && d < |R| && n <= |m.slots| == |W[d].fields|
    requires Agree(W[d].fields, R[d].fields) && Source(W, R, W[d].fields, R[d].fields, m.slots, i, k, final)
    ensures i < |R[d].fields| && FoldSlot(R, R[d].fields, i, InitSlot(R[d].fields[i]), FieldsMembers(W, W[d].fields, m.slots, n))
      == Some(if k.Some? && k.value < n then final else InitSlot(R[d].fields[i]))
    decreases n
  {
    hide *;
    Shape(W, d, m);
    var wfs, rfs := W[d].fields, R[d].fields;
    SourceIndex(W, R, wfs, rfs, m.slots, i, k, final);
    NothingWritten(W, R, d, m, i);
    if n > 0 {
      FieldsMembersUnfold(W, wfs, m.slots, n);
      FoldFields(W, R, d, m, i, k, final, n - 1);
      var init, before, last := InitSlot(rfs[i]), FieldsMembers(W, wfs, m.slots, n - 1), FieldMembers(W, wfs[n - 1], m.slots[n - 1]);
      if k == Some(n - 1) {
        OwnBlock(W, R, d, m, i, n - 1, final);
        FoldTwo(R, rfs, i, init, init, final, before, last);
      } else {
        var s := if k.Some? && k.value < n then final else init;
        OtherBlock(W, R, d, m, i, k, final, n - 1, s);
        FoldTwo(R, rfs, i, init, s, s, before, last);
      }
    }
  }
}
