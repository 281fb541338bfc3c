/**
 Message descriptors and the messages they describe.

 A schema is a sequence of message descriptors and a MESSAGE field names its sub-descriptor by index, so a
 descriptor may refer to itself (libinit's linked lists do).  A message holds one slot per field of its
 descriptor and the fields its descriptor does not know.
 */
module Schema {
  import opened Wire

  datatype Option<+T> = None | Some(value: T)

  datatype FieldType =
    | INT32 | SINT32 | SFIXED32 | INT64 | SINT64 | SFIXED64 | UINT32 | FIXED32 | UINT64 | FIXED64
    | FLOAT | DOUBLE | BOOL | ENUM | STRING | BYTES
    | MESSAGE(sub: nat)

  /** `UNLABELED` is the proto3 label that protobuf-c calls `LABEL_NONE`. */
  datatype Label = REQUIRED | OPTIONAL | REPEATED | UNLABELED

  /** Scalars are kept as the 32- or 64-bit pattern stored in the C struct. */
  datatype Value =
    | V32(n32: u32)
    | V64(n64: u64)
    | Str(chars: seq<byte>)
    | Bin(bytes: seq<byte>)
    | Msg(m: Message)

  /**
   `Unset` is a `has` flag or oneof case that does not select the field, or a pointer that is NULL or still the default.
   `Many` is the array of a repeated field.
   */
  datatype Slot = Unset | One(v: Value) | Many(vs: seq<Value>)

  type WireType = x: int | 0 <= x < 8

  /** A field on the wire: what follows the tag, including the length prefix of a length-prefixed field. */
  datatype Member = Member(tag: u32, wire: WireType, data: seq<byte>)

  datatype Message = Message(slots: seq<Slot>, unknown: seq<Member>)

  datatype Field = Field(id: nat, rule: Label, typ: FieldType, packed: bool, oneof: Option<nat>, default: Option<Value>)

  /** A run of consecutive field ids; its length is the distance to the next entry's `orig`. */
  datatype IntRange = IntRange(start: int, orig: nat)

  datatype Desc = Desc(fields: seq<Field>, ranges: seq<IntRange>)

  type Schema = seq<Desc>

  // ---------------------------------------------------------------------------------------------
  // Field types
  // ---------------------------------------------------------------------------------------------

  predicate Is32(t: FieldType) { t.SFIXED32? || t.FIXED32? || t.FLOAT? }

  predicate Is64(t: FieldType) { t.SFIXED64? || t.FIXED64? || t.DOUBLE? }

  predicate Packable(t: FieldType) { !t.STRING? && !t.BYTES? && !t.MESSAGE? }

  predicate IsVarint(t: FieldType) { Packable(t) && !Is32(t) && !Is64(t) }

  function WireOf(t: FieldType): WireType {
    if Is32(t) then WIRE_32BIT else if Is64(t) then WIRE_64BIT else if IsVarint(t) then WIRE_VARINT else WIRE_PREFIXED
  }

  /** Which constructor of `Value` a C member of type `t` is stored with. */
  predicate KindOk(t: FieldType, v: Value) {
    match t
    case INT32 | SINT32 | UINT32 | ENUM | BOOL | SFIXED32 | FIXED32 | FLOAT => v.V32?
    case INT64 | SINT64 | UINT64 | SFIXED64 | FIXED64 | DOUBLE => v.V64?
    case STRING => v.Str?
    case BYTES => v.Bin?
    case MESSAGE(_) => v.Msg?
  }

  /** The values an unlabeled field does not send. A float is compared as a float, so both zeroes count. */
  predicate Zeroish(t: FieldType, v: Value) {
    match v
    case V32(n) => if t.FLOAT? then n % TWO31 == 0 else n == 0
    case V64(n) => if t.DOUBLE? then n % TWO63 == 0 else n == 0
    case Str(s) => s == []
    case Bin(b) => b == []
    case Msg(_) => false
  }

  /** C strings end at the first NUL. */
  function CString(s: seq<byte>): (r: seq<byte>)
    ensures 0 !in r
    ensures 0 !in s ==> r == s
    ensures |r| <= |s|
  {
    if s == [] || s[0] == 0 then [] else [s[0]] + CString(s[1..])
  }

  // ---------------------------------------------------------------------------------------------
  // Descriptors
  // ---------------------------------------------------------------------------------------------

  predicate LeafOk(t: FieldType, v: Value) {
    KindOk(t, v) && !v.Msg? && (v.Str? ==> 0 !in v.chars)
  }

  predicate FieldOk(S: Schema, f: Field) {
    && 1 <= f.id < 0x2000_0000
    && (f.typ.MESSAGE? ==> f.typ.sub < |S|)
    && (f.packed ==> f.rule.REPEATED? && Packable(f.typ))
    && (f.oneof.Some? ==> f.rule.OPTIONAL? || f.rule.UNLABELED?)
    && (f.default.Some? ==> LeafOk(f.typ, f.default.value))
  }

  ghost predicate SortedIds(fs: seq<Field>) {
    forall i, j | 0 <= i < j < |fs| :: fs[i].id < fs[j].id
  }

  /** The compressed form of the sorted id list that `protoc-c` emits, sentinel included. */
  ghost predicate RangesOk(fs: seq<Field>, ranges: seq<IntRange>) {
    if fs == [] then ranges == [] else
    && |ranges| >= 2
    && ranges[0].orig == 0
    && ranges[|ranges| - 1].orig == |fs|
    && (forall r, s | 0 <= r < s < |ranges| :: ranges[r].orig < ranges[s].orig)
    && (forall r, k | 0 <= r < |ranges| - 1 && ranges[r].orig <= k < ranges[r + 1].orig ::
         fs[k].id == ranges[r].start + (k - ranges[r].orig))
  }

  ghost predicate DescOk(S: Schema, desc: Desc) {
    && SortedIds(desc.fields)
    && (forall i | 0 <= i < |desc.fields| :: FieldOk(S, desc.fields[i]))
    && RangesOk(desc.fields, desc.ranges)
  }

  ghost predicate SchemaOk(S: Schema) {
    forall d | 0 <= d < |S| :: DescOk(S, S[d])
  }

  /** The field with a given id, found by looking at all of them. */
  function FieldIndex(fs: seq<Field>, id: int): (r: Option<nat>)
    ensures r.Some? ==> r.value < |fs| && fs[r.value].id == id
    ensures r.None? <==> forall i | 0 <= i < |fs| :: fs[i].id != id
  {
    if fs == [] then None
    else if fs[|fs| - 1].id == id then Some(|fs| - 1)
    else FieldIndex(fs[..|fs| - 1], id)
  }

  lemma FieldIndexOf(fs: seq<Field>, i: nat)
    requires SortedIds(fs) && i < |fs|
    ensures FieldIndex(fs, fs[i].id) == Some(i)
  {
    assert forall k | 0 <= k < |fs| && k != i :: fs[k].id != fs[i].id;
  }

  predicate SameGroup(f: Field, g: Field) { f.oneof.Some? && f.oneof == g.oneof }
}
