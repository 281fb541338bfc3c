/**
 What a message looks like on the wire.  The encoder is described in two layers: a message is a list of
 members (field number, wire type, raw data), and each member is its tag followed by its data.

 The functions are total: a value whose kind does not match its field's type contributes nothing.
 `MessageOk` rules that out.
 */
module Encoding {
  import opened Seqs
  import opened Wire
  import opened Schema

  /** The most members one message may hold: 23 slabs, of 16, 32, 64, ... entries. */
  const SLAB_CAPACITY: nat := 0x800_0000 - 16

  /** The number a varint-typed field writes. A negative int32 is sign-extended to 64 bits. */
  function ToVarint(t: FieldType, v: Value): u64 {
    match v
    case V32(n) =>
      if t.INT32? || t.ENUM? then Wrap64(AsInt32(n))
      else if t.SINT32? then ZigZag32(AsInt32(n))
      else if t.BOOL? then (if n == 0 then 0 else 1)
      else n
    case V64(n) => if t.SINT64? then ZigZag64(AsInt64(n)) else n
    case _ => 0
  }

  /** The bytes that follow the tag of a single value. */
  function Payload(S: Schema, t: FieldType, v: Value): seq<byte>
    decreases v, 0
  {
    match v
    case V32(n) => if Is32(t) then LittleEndian32(n) else if IsVarint(t) then Varint(ToVarint(t, v)) else []
    case V64(n) => if Is64(t) then LittleEndian64(n) else if IsVarint(t) then Varint(ToVarint(t, v)) else []
    case Str(s) => Prefixed(s)
    case Bin(b) => Prefixed(b)
    case Msg(m) => if t.MESSAGE? then Prefixed(Encode(S, t.sub, m)) else []
  }

  /** The payloads of the first `n` elements, one after the other. */
  function Payloads(S: Schema, t: FieldType, vs: seq<Value>, n: nat): seq<byte>
    requires n <= |vs|
    decreases vs, n
  {
    if n == 0 then [] else Payloads(S, t, vs, n - 1) + Payload(S, t, vs[n - 1])
  }

  /** One member for each of the first `n` elements. */
  function ElementMembers(S: Schema, f: Field, vs: seq<Value>, n: nat): (r: seq<Member>)
    requires n <= |vs|
    ensures |r| == n
    decreases vs, n
  {
    if n == 0 then []
    else ElementMembers(S, f, vs, n - 1) + [Member(Wrap32(f.id), WireOf(f.typ), Payload(S, f.typ, vs[n - 1]))]
  }

  /** An unlabeled field outside a oneof is left out when it holds a zero. */
  predicate Skipped(f: Field, v: Value) {
    f.rule.UNLABELED? && f.oneof.None? && Zeroish(f.typ, v)
  }

  function FieldMembers(S: Schema, f: Field, slot: Slot): seq<Member>
    decreases slot, 0
  {
    match slot
    case Unset => []
    case One(v) => if Skipped(f, v) then [] else [Member(Wrap32(f.id), WireOf(f.typ), Payload(S, f.typ, v))]
    case Many(vs) =>
      if !f.packed then ElementMembers(S, f, vs, |vs|)
      else if vs == [] then []
      else [Member(Wrap32(f.id), WIRE_PREFIXED, Prefixed(Payloads(S, f.typ, vs, |vs|)))]
  }

  /** The members of the first `n` fields. */
  function FieldsMembers(S: Schema, fs: seq<Field>, slots: seq<Slot>, n: nat): seq<Member>
    requires n <= |fs| && n <= |slots|
    decreases slots, n
  {
    if n == 0 then [] else FieldsMembers(S, fs, slots, n - 1) + FieldMembers(S, fs[n - 1], slots[n - 1])
  }

  function Members(S: Schema, d: nat, m: Message): seq<Member>
    decreases m, 0
  {
    if d < |S| && |S[d].fields| == |m.slots|
    then FieldsMembers(S, S[d].fields, m.slots, |m.slots|) + m.unknown
    else []
  }

  function EncodeMember(mem: Member): (r: seq<byte>)
    ensures |r| > |mem.data|
  {
    Tag(mem.tag, mem.wire) + mem.data
  }

  function EncodeMembers(ms: seq<Member>): seq<byte> {
    if ms == [] then [] else EncodeMember(ms[0]) + EncodeMembers(ms[1..])
  }

  /** The serialised message. */
  function Encode(S: Schema, d: nat, m: Message): seq<byte>
    decreases m, 1
  {
    EncodeMembers(Members(S, d, m))
  }

  lemma {:induction false} EncodeMembersAppend(a: seq<Member>, b: seq<Member>)
    ensures EncodeMembers(a + b) == EncodeMembers(a) + EncodeMembers(b)
  {
    if a == [] {
      assert a + b == b;
    } else {
      assert (a + b)[1..] == a[1..] + b;
      EncodeMembersAppend(a[1..], b);
    }
  }

  // ---------------------------------------------------------------------------------------------
  // Which data can follow a tag, and which messages can be packed
  // ---------------------------------------------------------------------------------------------

  /**
   Length of the data that follows a tag of wire type `wire` at the start of `rest`; 0 if it is incomplete.
   A length prefix whose sum with its own size does not fit 32 bits announces nothing that could be complete.
   */
  function MemberLen(wire: WireType, rest: seq<byte>): (r: nat)
    ensures r <= |rest|
  {
    if wire == WIRE_VARINT then TermLen(rest, 10)
    else if wire == WIRE_64BIT then (if |rest| < 8 then 0 else 8)
    else if wire == WIRE_32BIT then (if |rest| < 4 then 0 else 4)
    else if wire == WIRE_PREFIXED then
      var k := TermLen(rest, 5);
      if k == 0 then 0 else
      var len := k + Wrap32(VarintValue(rest[..k]));
      if len > |rest| || len >= TWO32 then 0 else len
    else 0
  }

  predicate MemberOk(mem: Member) { MemberLen(mem.wire, mem.data) == |mem.data| > 0 }

  /** What a length-prefixed member announces. */
  function Body(mem: Member): (r: seq<byte>)
    ensures MemberOk(mem) && mem.wire == WIRE_PREFIXED ==> |r| < |mem.data|
  {
    mem.data[TermLen(mem.data, 5)..]
  }

  ghost predicate ValueOk(S: Schema, t: FieldType, v: Value)
    decreases v, 0
  {
    && KindOk(t, v)
    && (v.Str? ==> 0 !in v.chars)
    && (v.Msg? ==> MessageOk(S, t.sub, v.m))
  }

  ghost predicate SlotOk(S: Schema, f: Field, slot: Slot)
    decreases slot, 0
  {
    match slot
    case Unset => f.rule.OPTIONAL? || f.rule.UNLABELED?
    case One(v) => !f.rule.REPEATED? && ValueOk(S, f.typ, v)
    case Many(vs) => f.rule.REPEATED? && forall i | 0 <= i < |vs| :: ValueOk(S, f.typ, vs[i])
  }

  /** At most one field of each oneof is set. */
  ghost predicate OneofOk(fs: seq<Field>, slots: seq<Slot>)
    requires |fs| == |slots|
  {
    forall i, j | 0 <= i < j < |fs| && SameGroup(fs[i], fs[j]) :: slots[i].Unset? || slots[j].Unset?
  }

  ghost predicate UnknownOk(fs: seq<Field>, unknown: seq<Member>) {
    forall k | 0 <= k < |unknown| :: MemberOk(unknown[k]) && FieldIndex(fs, unknown[k].tag).None?
  }

  /**
   A message that can be packed and read back.  At every level the fields that must be set are, each value is of its
   field's kind, no string holds a NUL, at most one case of a oneof is set, unknown fields are complete and unknown,
   and the sizes are within what the C types and the slabs hold.
   */
  ghost predicate MessageOk(S: Schema, d: nat, m: Message)
    decreases m, 2
  {
    && d < |S|
    && |m.slots| == |S[d].fields|
    && (forall i | 0 <= i < |m.slots| :: SlotOk(S, S[d].fields[i], m.slots[i]))
    && OneofOk(S[d].fields, m.slots)
    && UnknownOk(S[d].fields, m.unknown)
    && |Encode(S, d, m)| < TWO31
    && |Members(S, d, m)| <= SLAB_CAPACITY
  }

  lemma PrefixLen(v: seq<byte>, s: seq<byte>)
    requires TermLen(v + s, 5) == |v| > 0 && VarintValue(v) == |s| < TWO32 - 5
    ensures MemberLen(WIRE_PREFIXED, v + s) == |v + s| && (v + s)[|v|..] == s
  {
    hide TermLen, VarintValue;
    SplitAppend(v, s);
  }

  lemma PrefixedMember(s: seq<byte>)
    requires |s| < TWO32 - 5
    ensures TermLen(Prefixed(s), 5) == |Varint(|s|)|
    ensures MemberLen(WIRE_PREFIXED, Prefixed(s)) == |Prefixed(s)|
    ensures Prefixed(s)[TermLen(Prefixed(s), 5)..] == s
  {
    hide Varint, TermLen, VarintValue, MemberLen;
    VarintLengths();
    VarintInverse(|s|);
    TermLenFinds(Varint(|s|), s, 5);
    PrefixLen(Varint(|s|), s);
  }

  lemma VarintMember(n: u64)
    ensures |Varint(n)| <= 10
    ensures MemberLen(WIRE_VARINT, Varint(n)) == |Varint(n)|
  {
    assert UInt64Size(n) <= 10;
    assert Varint(n) + [] == Varint(n);
    TermLenFinds(Varint(n), [], 10);
  }

  lemma PayloadMemberOk(S: Schema, t: FieldType, v: Value)
    requires KindOk(t, v) && |Payload(S, t, v)| < TWO31
    ensures MemberLen(WireOf(t), Payload(S, t, v)) == |Payload(S, t, v)| > 0
  {
    match v
    case V32(n) => if IsVarint(t) { VarintMember(ToVarint(t, v)); }
    case V64(n) => if IsVarint(t) { VarintMember(ToVarint(t, v)); }
    case Str(s) => PrefixedMember(s);
    case Bin(b) => PrefixedMember(b);
    case Msg(m) => PrefixedMember(Encode(S, t.sub, m));
  }
}
