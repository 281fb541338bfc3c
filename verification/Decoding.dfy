/**
 What `protobuf_c_message_unpack` makes of a byte string, stated in one pass: split the bytes into members,
 then apply the members to an initial message in order.  (`Unpacker` has the two-pass parser and its slabs,
 and is proved to compute this.)
 */
module Decoding {
  import opened Wire
  import opened Schema
  import opened Encoding

  // ---------------------------------------------------------------------------------------------
  // Splitting the input
  // ---------------------------------------------------------------------------------------------

  datatype Header = Header(tag: u32, wire: WireType, used: nat)

  /** The tag at the start of `data`: a varint of at most five bytes. */
  function ParseTag(data: seq<byte>): (r: Option<Header>)
    ensures r.Some? ==> 0 < r.value.used <= |data|
  {
    var k := TermLen(data, 5);
    if k == 0 then None else
    var v := VarintValue(data[..k]);
    Some(Header(Wrap32(v / 8), v % 8, k))
  }

  /** The first member of `data`, and how many bytes it takes. */
  function ScanMember(data: seq<byte>): (r: Option<(Member, nat)>)
    ensures r.Some? ==> MemberOk(r.value.0) && |r.value.0.data| < r.value.1 <= |data|
  {
    match ParseTag(data)
    case None => None
    case Some(h) =>
      var rest := data[h.used..];
      var len := MemberLen(h.wire, rest);
      if len == 0 then None else
      MemberLenPrefix(h.wire, rest, len);
      Some((Member(h.tag, h.wire, rest[..len]), h.used + len))
  }

  ghost predicate AllOk(ms: seq<Member>) { forall k | 0 <= k < |ms| :: MemberOk(ms[k]) }

  /** A measure for recursion on members: what they take at least on the wire. */
  function Weight(ms: seq<Member>): nat {
    if ms == [] then 0 else |ms[0].data| + 1 + Weight(ms[1..])
  }

  /** All of `data` as members. */
  function Scan(data: seq<byte>): (r: Option<seq<Member>>)
    ensures r.Some? ==> AllOk(r.value) && Weight(r.value) <= |data|
    decreases |data|
  {
    if data == [] then Some([]) else
    match ScanMember(data)
    case None => None
    case Some((mem, used)) =>
      match Scan(data[used..])
      case None => None
      case Some(ms) => Some([mem] + ms)
  }

  /** Whether a member is complete is decided by its own bytes, not by what follows. */
  lemma MemberLenPrefix(wire: WireType, rest: seq<byte>, len: nat)
    requires len == MemberLen(wire, rest) > 0
    ensures MemberLen(wire, rest[..len]) == len
  {
    if wire == WIRE_VARINT {
      TerminatedUnique(rest[..len], len, 10);
      assert rest[..len][..len] == rest[..len];
    } else if wire == WIRE_PREFIXED {
      var k := TermLen(rest, 5);
      assert rest[..len][..k] == rest[..k];
      TerminatedUnique(rest[..len], k, 5);
    }
  }

  lemma MemberLenExtend(wire: WireType, data: seq<byte>, rest: seq<byte>)
    requires MemberLen(wire, data) == |data| > 0
    ensures MemberLen(wire, data + rest) == |data|
  {
    if wire == WIRE_VARINT {
      assert data[..|data|] == data;
      TermLenFinds(data, rest, 10);
    } else if wire == WIRE_PREFIXED {
      var k := TermLen(data, 5);
      assert data == data[..k] + data[k..];
      assert data + rest == data[..k] + (data[k..] + rest);
      TermLenFinds(data[..k], data[k..] + rest, 5);
      assert (data + rest)[..k] == data[..k];
    }
  }

  // ---------------------------------------------------------------------------------------------
  // Values
  // ---------------------------------------------------------------------------------------------

  function ParseBoolean(s: seq<byte>): bool {
    s != [] && (Low7(s[0]) != 0 || ParseBoolean(s[1..]))
  }

  function FromBool(b: bool): Value { V32(if b then 1 else 0) }

  /** A varint-typed value from the bytes of a varint. */
  function FromVarint(t: FieldType, s: seq<byte>): (r: Value)
    requires |s| > 0 && IsVarint(t)
    ensures KindOk(t, r)
  {
    match t
    case SINT32 => V32(Wrap32(UnZigZag32(ParseUInt32(s))))
    case SINT64 => V64(Wrap64(UnZigZag64(ParseUInt64(s))))
    case INT64 | UINT64 => V64(ParseUInt64(s))
    case BOOL => FromBool(ParseBoolean(s))
    case INT32 | UINT32 | ENUM => V32(ParseUInt32(s))
  }

  /** Anything but a sub-message. The source does not look at the wire type of a boolean. */
  function ParseLeaf(t: FieldType, mem: Member): (r: Option<Value>)
    requires MemberOk(mem)
    ensures r.Some? ==> KindOk(t, r.value) && (r.value.Str? ==> 0 !in r.value.chars)
  {
    if t.MESSAGE? || (!t.BOOL? && mem.wire != WireOf(t)) then None
    else if Is32(t) then Some(V32(FromLittleEndian32(mem.data)))
    else if Is64(t) then Some(V64(FromLittleEndian64(mem.data)))
    else if t.STRING? then Some(Str(CString(Body(mem))))
    else if t.BYTES? then Some(Bin(Body(mem)))
    else Some(FromVarint(t, mem.data))
  }

  /** Bytes the next packed element takes; 0 if there is no complete one. */
  function ElementLen(t: FieldType, body: seq<byte>): (r: nat)
    ensures r <= |body|
  {
    if Is32(t) then (if |body| < 4 then 0 else 4)
    else if Is64(t) then (if |body| < 8 then 0 else 8)
    else if t.BOOL? then (if body == [] then 0 else 1)
    else TermLen(body, 10)
  }

  function ElementValue(t: FieldType, s: seq<byte>): (r: Value)
    requires Packable(t) && 0 < |s| && ElementLen(t, s) == |s|
    ensures KindOk(t, r)
  {
    if Is32(t) then V32(FromLittleEndian32(s))
    else if Is64(t) then V64(FromLittleEndian64(s))
    else if t.BOOL? then V32(s[0])
    else FromVarint(t, s)
  }

  lemma ElementLenPrefix(t: FieldType, body: seq<byte>)
    requires ElementLen(t, body) > 0
    ensures ElementLen(t, body[..ElementLen(t, body)]) == ElementLen(t, body)
  {
    var k := ElementLen(t, body);
    if !Is32(t) && !Is64(t) && !t.BOOL? {
      assert body[..k][..k] == body[..k];
      TerminatedUnique(body[..k], k, 10);
    }
  }

  /** The elements of a packed field. A packed boolean must be a single byte 0 or 1. */
  function ParsePacked(t: FieldType, body: seq<byte>): (r: Option<seq<Value>>)
    requires Packable(t)
    decreases |body|
  {
    if body == [] then Some([]) else
    var k := ElementLen(t, body);
    if k == 0 || (t.BOOL? && body[0] > 1) then None else
    match ParsePacked(t, body[k..])
    case None => None
    case Some(vs) => ElementLenPrefix(t, body); Some([ElementValue(t, body[..k])] + vs)
  }

  // ---------------------------------------------------------------------------------------------
  // Merging
  // ---------------------------------------------------------------------------------------------

  /** No field of `f`'s oneof is set. */
  predicate GroupFree(fs: seq<Field>, slots: seq<Slot>, f: Field)
    requires |fs| == |slots|
  {
    forall j | 0 <= j < |fs| && SameGroup(fs[j], f) :: slots[j].Unset?
  }

  predicate BothMessages(e: Slot, l: Slot) { e.One? && e.v.Msg? && l.One? && l.v.Msg? }

  predicate EmptyBytes(s: Slot) { s == One(Bin([])) }

  /**
   A set oneof case that `merge_messages` does not move.  An empty byte string has no block, so it is taken for unset.
   A string is moved if the later message's pointer is the default; but there the oneof is unset, which means zero.
   */
  predicate Stays(f: Field, e: Slot) {
    e.One? && ((f.typ.BYTES? && EmptyBytes(e)) || (f.typ.STRING? && f.default.Some?))
  }

  /**
   `merge_messages` for one field: the slot the later message ends up with.  An unlabeled scalar has no flag, so
   it is always taken from the later message.
   */
  function MergeSlot(S: Schema, f: Field, e: Slot, l: Slot, groupFree: bool): Slot
    decreases e, 0
  {
    if f.rule.REQUIRED? then l
    else if f.rule.REPEATED? then (if e.Many? && l.Many? then Many(e.vs + l.vs) else l)
    else if f.oneof.Some? then (if groupFree && !Stays(f, e) then e else l)
    else if f.typ.MESSAGE? then
      if BothMessages(e, l) then One(Msg(MergeMessages(S, f.typ.sub, e.v.m, l.v.m)))
      else if l.Unset? then e else l
    else if f.typ.BYTES? then
      if e.One? && !EmptyBytes(e) && (l.Unset? || EmptyBytes(l)) then e else l
    else if f.typ.STRING? || f.rule.OPTIONAL? then
      if l.Unset? then e else l
    else l
  }

  /** `merge_messages`: fold the earlier occurrence of a sub-message into the later one. Its unknown fields are dropped. */
  function MergeMessages(S: Schema, d: nat, e: Message, l: Message): (r: Message)
    ensures |r.slots| == |l.slots| && r.unknown == l.unknown
    decreases e, 1
  {
    if d < |S| && |S[d].fields| == |e.slots| == |l.slots| then
      Message(seq(|e.slots|, i requires 0 <= i < |e.slots| =>
                MergeSlot(S, S[d].fields[i], e.slots[i], l.slots[i], GroupFree(S[d].fields, l.slots, S[d].fields[i]))),
              l.unknown)
    else l
  }

  /**
   Whether `merge_messages` stays inside the descriptor.  For a oneof that the later message leaves unset it looks up
   the earlier message's case; if that is unset too, nothing is found and the field before the first one is read.
   */
  predicate InBounds(S: Schema, d: nat, e: Message, l: Message)
    decreases e, 1
  {
    d < |S| && |S[d].fields| == |e.slots| == |l.slots| ==>
      forall i | 0 <= i < |e.slots| ::
        && (S[d].fields[i].oneof.Some? ==> !GroupFree(S[d].fields, e.slots, S[d].fields[i]) || !GroupFree(S[d].fields, l.slots, S[d].fields[i]))
        && SlotInBounds(S, S[d].fields[i], e.slots[i], l.slots[i])
  }

  /** Sub-messages that both messages have are merged in turn. */
  predicate SlotInBounds(S: Schema, f: Field, e: Slot, l: Slot)
    decreases e, 0
  {
    f.typ.MESSAGE? && f.oneof.None? && !f.rule.REQUIRED? && BothMessages(e, l) ==> InBounds(S, f.typ.sub, e.v.m, l.v.m)
  }

  // ---------------------------------------------------------------------------------------------
  // Applying members
  // ---------------------------------------------------------------------------------------------

  function InitSlot(f: Field): Slot {
    if f.rule.REPEATED? then Many([])
    else if f.rule.REQUIRED? && f.default.Some? then One(f.default.value)
    else Unset
  }

  function InitMessage(fs: seq<Field>): (r: Message)
    ensures |r.slots| == |fs|
  {
    Message(seq(|fs|, i requires 0 <= i < |fs| => InitSlot(fs[i])), [])
  }

  /** Whether a repeated field's member is read as a run of packed elements: also for a field not declared packed. */
  predicate ReadsPacked(f: Field, wire: WireType) {
    f.rule.REPEATED? && wire == WIRE_PREFIXED && Packable(f.typ)
  }

  function ParseValue(S: Schema, t: FieldType, mem: Member): (r: Option<Value>)
    requires MemberOk(mem)
    ensures r.Some? ==> KindOk(t, r.value) && (r.value.Str? ==> 0 !in r.value.chars)
    decreases |mem.data|, 0
  {
    if t.MESSAGE? then
      if mem.wire != WIRE_PREFIXED then None else
      match Unpack(S, t.sub, Body(mem))
      case None => None
      case Some(m) => Some(Msg(m))
    else ParseLeaf(t, mem)
  }

  /** A singular sub-message that occurs again is merged with the one already there. */
  predicate Merges(f: Field, prev: Slot, v: Value) {
    f.typ.MESSAGE? && f.oneof.None? && BothMessages(prev, One(v))
  }

  function Replace(S: Schema, f: Field, prev: Slot, v: Value): Value {
    if Merges(f, prev, v) then Msg(MergeMessages(S, f.typ.sub, prev.v.m, v.m)) else v
  }

  /** The merge, if there is one, stays inside the descriptor. */
  predicate ReplaceInBounds(S: Schema, f: Field, prev: Slot, v: Value) {
    Merges(f, prev, v) ==> InBounds(S, f.typ.sub, prev.v.m, v.m)
  }

  /** What a member with field `f`'s id does to `f`'s slot; nothing, if parsing fails or the merge leaves its bounds. */
  function StepField(S: Schema, f: Field, slot: Slot, mem: Member): Option<Slot>
    requires MemberOk(mem)
    decreases |mem.data|, 1
  {
    if ReadsPacked(f, mem.wire) then
      match ParsePacked(f.typ, Body(mem))
      case None => None
      case Some(vs) => if slot.Many? then Some(Many(slot.vs + vs)) else None
    else
      match ParseValue(S, f.typ, mem)
      case None => None
      case Some(v) =>
        if f.rule.REPEATED? then (if slot.Many? then Some(Many(slot.vs + [v])) else None)
        else if ReplaceInBounds(S, f, slot, v) then Some(One(Replace(S, f, slot, v)))
        else None
  }

  /** One member: an unknown field is kept, a oneof field also clears its siblings. */
  function Apply(S: Schema, fs: seq<Field>, acc: Message, mem: Member): (r: Option<Message>)
    requires |acc.slots| == |fs| && MemberOk(mem)
    ensures r.Some? ==> |r.value.slots| == |fs|
    decreases |mem.data|, 2
  {
    match FieldIndex(fs, mem.tag)
    case None => Some(acc.(unknown := acc.unknown + [mem]))
    case Some(j) =>
      match StepField(S, fs[j], acc.slots[j], mem)
      case None => None
      case Some(s) => Some(acc.(slots := seq(|fs|, i requires 0 <= i < |fs| =>
          if i == j then s else if SameGroup(fs[i], fs[j]) then Unset else acc.slots[i])))
  }

  function ApplyAll(S: Schema, fs: seq<Field>, acc: Message, ms: seq<Member>): (r: Option<Message>)
    requires |acc.slots| == |fs| && AllOk(ms)
    ensures r.Some? ==> |r.value.slots| == |fs|
    decreases Weight(ms), 3
  {
    if ms == [] then Some(acc) else
    match Apply(S, fs, acc, ms[0])
    case None => None
    case Some(next) => ApplyAll(S, fs, next, ms[1..])
  }

  /** Every required field without a default occurs. */
  predicate RequiredPresent(fs: seq<Field>, ms: seq<Member>) {
    forall i | 0 <= i < |fs| && fs[i].rule.REQUIRED? && fs[i].default.None? ::
      exists k | 0 <= k < |ms| :: ms[k].tag == fs[i].id
  }

  /** The elements of a repeated field's slot. */
  function Held(slot: Slot): nat { if slot.Many? then |slot.vs| else 0 }

  /** The arrays of repeated fields are allocated for the low 32 bits of the number of their elements. */
  predicate ArraysFit(slots: seq<Slot>) { forall i | 0 <= i < |slots| :: Held(slots[i]) < TWO32 }

  /**
   The message a byte string stands for, if it stands for one, every merge on the way stays inside its descriptor,
   and the elements of every repeated field fit the array allocated for them.
   */
  function Unpack(S: Schema, d: nat, data: seq<byte>): (r: Option<Message>)
    ensures r.Some? ==> d < |S| && |r.value.slots| == |S[d].fields|
    decreases |data|, 4
  {
    if d >= |S| then None else
    match Scan(data)
    case None => None
    case Some(ms) =>
      if |ms| > SLAB_CAPACITY || !RequiredPresent(S[d].fields, ms) then None
      else match ApplyAll(S, S[d].fields, InitMessage(S[d].fields), ms)
        case None => None
        case Some(m) => if ArraysFit(m.slots) then Some(m) else None
  }

  // ---------------------------------------------------------------------------------------------
  // Short inputs
  // ---------------------------------------------------------------------------------------------

  lemma {:induction false} PackedShort(t: FieldType, body: seq<byte>)
    requires Packable(t)
    ensures ParsePacked(t, body).Some? ==> |ParsePacked(t, body).value| <= |body|
    decreases |body|
  {
    hide ElementLen, ElementValue;
    if body != [] && ElementLen(t, body) > 0 { PackedShort(t, body[ElementLen(t, body)..]); }
  }

  lemma BodyShort(mem: Member)
    requires MemberOk(mem)
    ensures 0 < |mem.data| && |Body(mem)| <= |mem.data|
  {
    hide TermLen, VarintValue;
  }

  lemma StepShort(S: Schema, f: Field, slot: Slot, mem: Member)
    requires MemberOk(mem)
    ensures StepField(S, f, slot, mem).Some? ==> Held(StepField(S, f, slot, mem).value) <= Held(slot) + |mem.data|
  {
    BodyShort(mem);
    if ReadsPacked(f, mem.wire) { PackedShort(f.typ, Body(mem)); }
    hide ParsePacked, ParseValue, MemberLen, Body, InBounds, Replace;
  }

  lemma ApplyShort(S: Schema, fs: seq<Field>, acc: Message, mem: Member, i: nat)
    requires |acc.slots| == |fs| && MemberOk(mem) && i < |fs|
    ensures Apply(S, fs, acc, mem).Some? ==>
      Held(Apply(S, fs, acc, mem).value.slots[i]) <= Held(acc.slots[i]) + |mem.data|
  {
    hide StepField, MemberOk;
    if FieldIndex(fs, mem.tag) == Some(i) { StepShort(S, fs[i], acc.slots[i], mem); }
  }

  lemma {:induction false} ApplyAllShort(S: Schema, fs: seq<Field>, acc: Message, ms: seq<Member>, i: nat)
    requires |acc.slots| == |fs| && AllOk(ms) && i < |fs|
    ensures ApplyAll(S, fs, acc, ms).Some? ==> Held(ApplyAll(S, fs, acc, ms).value.slots[i]) <= Held(acc.slots[i]) + Weight(ms)
    decreases |ms|
  {
    hide Apply, MemberOk, Held;
    if ms != [] {
      ApplyShort(S, fs, acc, ms[0], i);
      if Apply(S, fs, acc, ms[0]).Some? { ApplyAllShort(S, fs, Apply(S, fs, acc, ms[0]).value, ms[1..], i); }
    }
  }

  /** From less than 2^32 bytes no field gets more elements than its array holds. */
  lemma ShortFits(S: Schema, d: nat, ms: seq<Member>)
    requires d < |S| && AllOk(ms) && Weight(ms) < TWO32
    ensures var fs := S[d].fields;
      ApplyAll(S, fs, InitMessage(fs), ms).Some? ==> ArraysFit(ApplyAll(S, fs, InitMessage(fs), ms).value.slots)
  {
    var fs := S[d].fields;
    if ApplyAll(S, fs, InitMessage(fs), ms).Some? {
      hide ApplyAll, AllOk, Weight;
      forall i | 0 <= i < |fs| ensures Held(ApplyAll(S, fs, InitMessage(fs), ms).value.slots[i]) < TWO32 {
        ApplyAllShort(S, fs, InitMessage(fs), ms, i);
      }
    }
  }
}
