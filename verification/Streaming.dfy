/**
 `protobuf_c_message_pack_to_buffer`: the second printer, which appends chunks to a growing buffer instead of
 writing at an offset.  It is proved to append exactly what `Packing.MessagePack` writes.
 */
module Streaming {
  import opened Seqs
  import opened Wire
  import opened Schema
  import opened Encoding
  import opened Reading
  import opened PackedSize
  import opened Packing
  import opened Memory

  /** `ProtobufCBufferSimple` */
  class SimpleBuffer {
    var data: array<byte>
    var len: nat
    /** The block behind `data`, unless that still is the caller's scratch memory (`must_free_data`). */
    var block: Option<nat>

    ghost predicate Valid()
      reads this
    {
      0 < data.Length && len <= data.Length
    }

    ghost function Contents(): seq<byte>
      reads this, data
      requires Valid()
    {
      data[..len]
    }

    /** The buffer's block is all there is in the heap besides `rest`. */
    ghost predicate Owns(heap: Heap, rest: multiset<nat>)
      reads this, heap
    {
      heap.Valid() && heap.live == rest + Opt(block)
    }

    /** `PROTOBUF_C_BUFFER_SIMPLE_INIT` over a scratch array of the caller's. */
    constructor (scratch: array<byte>)
      requires 0 < scratch.Length
      ensures Valid() && data == scratch && Contents() == [] && block == None
    {
      data, len, block := scratch, 0, None;
    }

    method Copied(newAlloced: nat) returns (newData: array<byte>)
      requires Valid() && len <= newAlloced
      ensures fresh(newData) && newData.Length == newAlloced && newData[..len] == Contents()
    {
      newData := new byte[newAlloced];
      forall i | 0 <= i < len { newData[i] := data[i]; }
    }

    /** A block of at least `newLen` bytes in place of the present one, with the same contents, or nothing at all. */
    method Grow(newLen: nat, heap: Heap, ghost rest: multiset<nat>) returns (ok: bool)
      requires Valid() && Owns(heap, rest) && newLen > data.Length
      modifies heap, this
      ensures Valid() && Owns(heap, rest) && Contents() == old(Contents()) && len == old(len)
      ensures ok <==> heap.grants(old(heap.requests))
      ensures heap.refusals == old(heap.refusals) + if ok then 0 else 1
      ensures if ok then fresh(data) && data.Length >= newLen else data == old(data)
    {
      var newAlloced := data.Length * 2;
      while newAlloced < newLen
        invariant newAlloced > 0
        decreases newLen - newAlloced
      {
        newAlloced := newAlloced + newAlloced;
      }
      hide Opt;
      var newBlock := heap.Alloc();
      if newBlock.None? { return false; }
      Replaced(rest, block, newBlock);
      var newData := Copied(newAlloced);
      FreeBlock(heap, block, rest + Opt(newBlock));
      block, data := newBlock, newData;
      ok := true;
    }

    /**
     Doubles the capacity until the chunk fits, keeping what is there, then copies the chunk behind it.  If the memory
     is refused nothing at all happens, and the caller is not told.
     */
    method Append(chunk: seq<byte>, heap: Heap, ghost rest: multiset<nat>)
      requires Valid() && Owns(heap, rest)
      modifies heap, this, data
      ensures Valid() && Owns(heap, rest)
      ensures data == old(data) || fresh(data)
      ensures heap.refusals >= old(heap.refusals)
      ensures heap.refusals == old(heap.refusals) ==> Contents() == old(Contents()) + chunk
      ensures heap.refusals > old(heap.refusals) <==>
        |old(Contents())| + |chunk| > old(data.Length) && !heap.grants(old(heap.requests))
      ensures heap.refusals > old(heap.refusals) ==> data == old(data) && Contents() == old(Contents())
    {
      hide Opt, Owns;
      var newLen := len + |chunk|;
      if newLen > data.Length {
        var ok := Grow(newLen, heap, rest);
        if !ok { return; }
      }
      Put(chunk, heap, rest);
    }

    /** The chunk goes behind what is there. */
    method Put(chunk: seq<byte>, heap: Heap, ghost rest: multiset<nat>)
      requires Valid() && len + |chunk| <= data.Length && Owns(heap, rest)
      modifies this`len, data
      ensures Valid() && Contents() == old(Contents()) + chunk && Owns(heap, rest)
    {
      forall i | 0 <= i < |chunk| { data[len + i] := chunk[i]; }
      len := len + |chunk|;
      assert data[..len] == old(data[..len]) + chunk;
    }

    /** `PROTOBUF_C_BUFFER_SIMPLE_CLEAR` */
    method Clear(heap: Heap, ghost rest: multiset<nat>)
      requires Owns(heap, rest)
      modifies heap
      ensures heap.Valid() && heap.live == rest && heap.refusals == old(heap.refusals)
    {
      FreeBlock(heap, block, rest);
    }
  }

  lemma Replaced(rest: multiset<nat>, earlier: Option<nat>, later: Option<nat>)
    ensures later.Some? ==> rest + Opt(earlier) + multiset{later.value} == rest + Opt(later) + Opt(earlier)
  {
  }

  lemma ScratchTwo(before: seq<byte>, s: seq<byte>, t: seq<byte>, mid: seq<byte>, out: seq<byte>)
    requires |s| + |t| <= |before| && mid == Written(before, 0, s) && out == Written(mid, |s|, t)
    ensures |out| == |before| && out[..|s| + |t|] == s + t
  {
    Glue(before, 0, s, t, mid, out);
  }

  lemma ScratchOne(before: seq<byte>, s: seq<byte>)
    requires |s| <= |before|
    ensures Written(before, 0, s)[..|s|] == s
  {
  }

  /** Appends a tag and a length, the two things every length-prefixed field starts with. */
  method HeaderToBuffer(id: u32, len: u32, buffer: SimpleBuffer, heap: Heap, ghost rest: multiset<nat>) returns (rv: nat)
    requires buffer.Valid() && buffer.Owns(heap, rest)
    modifies heap, buffer, buffer.data
    ensures buffer.Valid() && buffer.Owns(heap, rest) && (buffer.data == old(buffer.data) || fresh(buffer.data))
    ensures heap.refusals >= old(heap.refusals)
    ensures rv == |Tag(id, WIRE_PREFIXED) + Varint(len)|
    ensures heap.refusals == old(heap.refusals) ==> buffer.Contents() == old(buffer.Contents()) + (Tag(id, WIRE_PREFIXED) + Varint(len))
  {
    assert UInt32Size(len) <= 5;
    hide Tag, Varint, Written;
    var scratch := new byte[20];
    ghost var before := scratch[..];
    rv := TagWirePack(id, WIRE_PREFIXED, scratch, 0);
    ghost var mid := scratch[..];
    var n := UInt32Pack(len, scratch, rv);
    ScratchTwo(before, Tag(id, WIRE_PREFIXED), Varint(len), mid, scratch[..]);
    rv := rv + n;
    buffer.Append(scratch[..rv], heap, rest);
  }

  /** The length-prefixed cases: the header is one chunk and the bytes are another. */
  method PrefixedToBuffer(id: u32, s: seq<byte>, buffer: SimpleBuffer, heap: Heap, ghost rest: multiset<nat>) returns (rv: nat)
    requires buffer.Valid() && buffer.Owns(heap, rest) && |s| < TWO31
    modifies heap, buffer, buffer.data
    ensures buffer.Valid() && buffer.Owns(heap, rest) && (buffer.data == old(buffer.data) || fresh(buffer.data))
    ensures heap.refusals >= old(heap.refusals)
    ensures rv == |Tag(id, WIRE_PREFIXED) + Prefixed(s)|
    ensures heap.refusals == old(heap.refusals) ==> buffer.Contents() == old(buffer.Contents()) + (Tag(id, WIRE_PREFIXED) + Prefixed(s))
  {
    hide Tag, Varint;
    ghost var before := buffer.Contents();
    rv := HeaderToBuffer(id, |s|, buffer, heap, rest);
    buffer.Append(s, heap, rest);
    rv := rv + |s|;
    Assoc(Tag(id, WIRE_PREFIXED), Varint(|s|), s);
    Assoc(before, Tag(id, WIRE_PREFIXED) + Varint(|s|), s);
  }

  /** The scalar cases: tag and value are assembled in a scratch array and appended as one chunk. */
  method ScalarToBuffer(S: Schema, f: Field, v: Value, buffer: SimpleBuffer, heap: Heap, ghost rest: multiset<nat>) returns (rv: nat)
    requires buffer.Valid() && buffer.Owns(heap, rest) && SchemaOk(S) && ValueOk(S, f.typ, v) && Packable(f.typ) && f.id < TWO32
    modifies heap, buffer, buffer.data
    ensures buffer.Valid() && buffer.Owns(heap, rest) && (buffer.data == old(buffer.data) || fresh(buffer.data))
    ensures heap.refusals >= old(heap.refusals)
    ensures rv == |EncodeMember(ElementMember(S, f, v))|
    ensures heap.refusals == old(heap.refusals) ==> buffer.Contents() == old(buffer.Contents()) + EncodeMember(ElementMember(S, f, v))
  {
    hide SchemaOk, Tag, Payload, Written;
    ScalarLength(S, f.typ, v);
    var scratch := new byte[20];
    ghost var before := scratch[..];
    rv := TagWirePack(f.id, WireOf(f.typ), scratch, 0);
    ghost var mid := scratch[..];
    var n := PayloadPack(S, f.typ, v, scratch, rv);
    ScratchTwo(before, Tag(f.id, WireOf(f.typ)), Payload(S, f.typ, v), mid, scratch[..]);
    rv := rv + n;
    buffer.Append(scratch[..rv], heap, rest);
  }

  lemma PrefixedMemberBytes(S: Schema, f: Field, v: Value, body: seq<byte>)
    requires f.id < TWO32 && KindOk(f.typ, v) && !Packable(f.typ) && Payload(S, f.typ, v) == Prefixed(body)
    ensures EncodeMember(ElementMember(S, f, v)) == Tag(f.id, WIRE_PREFIXED) + Prefixed(body)
  {
    hide Payload, Tag, Prefixed;
  }

  lemma PrefixedBody(S: Schema, t: FieldType, v: Value)
    requires ValueOk(S, t, v) && |Payload(S, t, v)| < TWO31 && !Packable(t)
    ensures match v
      case Str(s) => Payload(S, t, v) == Prefixed(s) && |s| < TWO31
      case Bin(b) => Payload(S, t, v) == Prefixed(b) && |b| < TWO31
      case Msg(m) => t.MESSAGE? && MessageOk(S, t.sub, m) && |Encode(S, t.sub, m)| < TWO31
                     && Payload(S, t, v) == Prefixed(Encode(S, t.sub, m))
      case _ => false
  {
    hide MessageOk, Encode;
  }

  /**
   `required_field_pack_to_buffer`.  A sub-message goes through a buffer of its own, which is cleared at the end.  If
   some of its memory was refused it holds less than the length that is read from it then: `stray` is true if that is
   outside its array.
   */
  method RequiredFieldToBuffer(S: Schema, f: Field, v: Value, buffer: SimpleBuffer, heap: Heap, ghost rest: multiset<nat>) returns (rv: nat, stray: bool)
    requires buffer.Valid() && buffer.Owns(heap, rest) && SchemaOk(S) && ValueOk(S, f.typ, v) && f.id < TWO32 && |Payload(S, f.typ, v)| < TWO31
    modifies heap, buffer, buffer.data
    ensures !stray ==> buffer.Valid() && buffer.Owns(heap, rest) && (buffer.data == old(buffer.data) || fresh(buffer.data))
    ensures heap.refusals >= old(heap.refusals) && (stray ==> heap.refusals > old(heap.refusals))
    ensures !stray ==> rv == |EncodeMember(ElementMember(S, f, v))|
    ensures heap.refusals == old(heap.refusals) ==> buffer.Contents() == old(buffer.Contents()) + EncodeMember(ElementMember(S, f, v))
    decreases v, 1
  {
    hide SchemaOk, ValueOk, MessageOk, Payload, EncodeMember, Tag, Encode, Prefixed, Packable;
    stray := false;
    if Packable(f.typ) {
      rv := ScalarToBuffer(S, f, v, buffer, heap, rest);
      return;
    }
    ValueKind(S, f.typ, v);
    PrefixedBody(S, f.typ, v);
    match v
    case Str(s) =>
      PrefixedMemberBytes(S, f, v, s);
      rv := PrefixedToBuffer(f.id, s, buffer, heap, rest);
    case Bin(b) =>
      PrefixedMemberBytes(S, f, v, b);
      rv := PrefixedToBuffer(f.id, b, buffer, heap, rest);
    case Msg(m) =>
      PrefixedMemberBytes(S, f, v, Encode(S, f.typ.sub, m));
      rv, stray := SubmessageToBuffer(S, f.id, f.typ.sub, m, buffer, heap, rest);
  }

  method SubmessageToBuffer(S: Schema, id: u32, d: nat, m: Message, buffer: SimpleBuffer, heap: Heap, ghost rest: multiset<nat>)
    returns (rv: nat, stray: bool)
    requires buffer.Valid() && buffer.Owns(heap, rest) && SchemaOk(S) && MessageOk(S, d, m) && |Encode(S, d, m)| < TWO31
    modifies heap, buffer, buffer.data
    ensures !stray ==> buffer.Valid() && buffer.Owns(heap, rest) && (buffer.data == old(buffer.data) || fresh(buffer.data))
    ensures heap.refusals >= old(heap.refusals) && (stray ==> heap.refusals > old(heap.refusals))
    ensures !stray ==> rv == |Tag(id, WIRE_PREFIXED) + Prefixed(Encode(S, d, m))|
    ensures heap.refusals == old(heap.refusals) ==>
      buffer.Contents() == old(buffer.Contents()) + (Tag(id, WIRE_PREFIXED) + Prefixed(Encode(S, d, m)))
    decreases m, 1
  {
    hide SchemaOk, MessageOk, Tag, Encode, Prefixed, SimpleBuffer.Owns, Opt;
    var scratch := new byte[256];
    var nested := new SimpleBuffer(scratch);
    OwnsIs(buffer, heap, rest);
    NoBlock(rest + Opt(buffer.block));
    OwnsIs(nested, heap, rest + Opt(buffer.block));
    var sublen;
    sublen, stray := MessageToBuffer(S, d, m, nested, heap, rest + Opt(buffer.block));
    if stray { return sublen, stray; }
    Empty(Encode(S, d, m));
    if sublen > nested.data.Length { return sublen, true; }
    Exchange(rest, Opt(buffer.block), Opt(nested.block));
    OwnsIs(nested, heap, rest + Opt(buffer.block));
    OwnsIs(buffer, heap, rest + Opt(nested.block));
    SameLength(id, nested.data[..sublen], Encode(S, d, m));
    rv := PrefixedToBuffer(id, nested.data[..sublen], buffer, heap, rest + Opt(nested.block));
    Exchange(rest, Opt(buffer.block), Opt(nested.block));
    OwnsIs(buffer, heap, rest + Opt(nested.block));
    OwnsIs(nested, heap, rest + Opt(buffer.block));
    nested.Clear(heap, rest + Opt(buffer.block));
    OwnsIs(buffer, heap, rest);
  }

  lemma OwnsIs(buffer: SimpleBuffer, heap: Heap, rest: multiset<nat>)
    ensures buffer.Owns(heap, rest) <==> heap.Valid() && heap.live == rest + Opt(buffer.block)
  {
  }

  lemma NoBlock(live: multiset<nat>)
    ensures live + Opt(None) == live
  {
  }

  lemma Exchange(rest: multiset<nat>, a: multiset<nat>, b: multiset<nat>)
    ensures rest + a + b == rest + b + a
  {
  }

  lemma SameLength(id: u32, s: seq<byte>, t: seq<byte>)
    requires |s| == |t|
    ensures |Tag(id, WIRE_PREFIXED) + Prefixed(s)| == |Tag(id, WIRE_PREFIXED) + Prefixed(t)|
  {
  }

  lemma ValueKind(S: Schema, t: FieldType, v: Value)
    requires ValueOk(S, t, v)
    ensures KindOk(t, v)
  {
  }

  /** `get_packed_payload_length` */
  method PackedPayloadLength(S: Schema, t: FieldType, vs: seq<Value>) returns (rv: nat)
    requires SchemaOk(S) && Packable(t) && forall k | 0 <= k < |vs| :: ValueOk(S, t, vs[k])
    requires |Payloads(S, t, vs, |vs|)| < TWO31
    ensures rv == |Payloads(S, t, vs, |vs|)|
  {
    hide Payload, Payloads, SchemaOk, ValueOk;
    forall k | 0 <= k < |vs| ensures KindOk(t, vs[k]) && |Payload(S, t, vs[k])| < TWO31 {
      ValueKind(S, t, vs[k]);
      PayloadsShorter(S, t, vs, k, |vs|);
    }
    if Is32(t) || Is64(t) || t.BOOL? {
      ScalarLengths(S, t, vs, |vs|);
      return |vs| * MinSize(t);
    }
    NoPayload(S, t, vs);
    rv := 0;
    for i := 0 to |vs|
      invariant rv == |Payloads(S, t, vs, i)|
    {
      PayloadsUnfold(S, t, vs, i + 1);
      var n := PayloadSize(S, t, vs[i]);
      rv := rv + n;
    }
  }

  /** One element, through a scratch array. */
  method ElementToBuffer(S: Schema, t: FieldType, v: Value, buffer: SimpleBuffer, heap: Heap, ghost rest: multiset<nat>) returns (rv: nat)
    requires buffer.Valid() && buffer.Owns(heap, rest) && SchemaOk(S) && Packable(t) && ValueOk(S, t, v)
    modifies heap, buffer, buffer.data
    ensures buffer.Valid() && buffer.Owns(heap, rest) && (buffer.data == old(buffer.data) || fresh(buffer.data))
    ensures heap.refusals >= old(heap.refusals)
    ensures rv == |Payload(S, t, v)|
    ensures heap.refusals == old(heap.refusals) ==> buffer.Contents() == old(buffer.Contents()) + Payload(S, t, v)
  {
    hide Payload, SchemaOk, ValueOk, Written;
    ValueKind(S, t, v);
    ScalarLength(S, t, v);
    var scratch := new byte[16];
    ghost var blank := scratch[..];
    rv := PayloadPack(S, t, v, scratch, 0);
    ScratchOne(blank, Payload(S, t, v));
    buffer.Append(scratch[..rv], heap, rest);
  }

  /**
   `pack_buffer_packed_payload`: on a little-endian machine the array of a fixed-width field already is its
   payload and is appended whole; other elements are packed one at a time.
   */
  method PackedPayloadToBuffer(S: Schema, t: FieldType, vs: seq<Value>, buffer: SimpleBuffer, heap: Heap, ghost rest: multiset<nat>) returns (rv: nat)
    requires buffer.Valid() && buffer.Owns(heap, rest) && SchemaOk(S) && Packable(t) && forall k | 0 <= k < |vs| :: ValueOk(S, t, vs[k])
    modifies heap, buffer, buffer.data
    ensures buffer.Valid() && buffer.Owns(heap, rest) && (buffer.data == old(buffer.data) || fresh(buffer.data))
    ensures heap.refusals >= old(heap.refusals)
    ensures rv == |Payloads(S, t, vs, |vs|)|
    ensures heap.refusals == old(heap.refusals) ==> buffer.Contents() == old(buffer.Contents()) + Payloads(S, t, vs, |vs|)
  {
    hide Payload, Payloads, SchemaOk, ValueOk, Written;
    forall k | 0 <= k < |vs| ensures KindOk(t, vs[k]) && |Payload(S, t, vs[k])| <= 10 * MinSize(t) {
      ValueKind(S, t, vs[k]);
      ScalarLength(S, t, vs[k]);
    }
    if Is32(t) || Is64(t) {
      ScalarLengths(S, t, vs, |vs|);
      rv := MinSize(t) * |vs|;
      buffer.Append(Payloads(S, t, vs, |vs|), heap, rest);
      return;
    }
    ghost var before := buffer.Contents();
    NoPayload(S, t, vs);
    Empty(before);
    rv := 0;
    for i := 0 to |vs|
      invariant buffer.Valid() && buffer.Owns(heap, rest) && (buffer.data == old(buffer.data) || fresh(buffer.data))
      invariant heap.refusals >= old(heap.refusals)
      invariant rv == |Payloads(S, t, vs, i)|
      invariant heap.refusals == old(heap.refusals) ==> buffer.Contents() == before + Payloads(S, t, vs, i)
    {
      PayloadsUnfold(S, t, vs, i + 1);
      var n := ElementToBuffer(S, t, vs[i], buffer, heap, rest);
      Assoc(before, Payloads(S, t, vs, i), Payload(S, t, vs[i]));
      rv := rv + n;
    }
  }

  method PackedFieldToBuffer(S: Schema, f: Field, vs: seq<Value>, buffer: SimpleBuffer, heap: Heap, ghost rest: multiset<nat>) returns (rv: nat)
    requires buffer.Valid() && buffer.Owns(heap, rest) && FieldFits(S, f, Many(vs)) && f.packed && vs != []
    modifies heap, buffer, buffer.data
    ensures buffer.Valid() && buffer.Owns(heap, rest) && (buffer.data == old(buffer.data) || fresh(buffer.data))
    ensures heap.refusals >= old(heap.refusals)
    ensures rv == |FieldBytes(S, f, Many(vs))|
    ensures heap.refusals == old(heap.refusals) ==> buffer.Contents() == old(buffer.Contents()) + FieldBytes(S, f, Many(vs))
  {
    ManyFits(S, f, vs);
    FitsSchema(S, f, Many(vs));
    hide FieldFits, FieldBytes, SchemaOk, ValueOk, Payload, Payloads, Tag, Varint;
    ghost var before, payload := buffer.Contents(), Payloads(S, f.typ, vs, |vs|);
    PackedBytes(S, f, vs);
    var payloadLen := PackedPayloadLength(S, f.typ, vs);
    rv := HeaderToBuffer(f.id, payloadLen, buffer, heap, rest);
    var tmp := PackedPayloadToBuffer(S, f.typ, vs, buffer, heap, rest);
    assert tmp == payloadLen;
    rv := rv + payloadLen;
    Assoc(Tag(f.id, WIRE_PREFIXED), Varint(|payload|), payload);
    Assoc(before, Tag(f.id, WIRE_PREFIXED) + Varint(|payload|), payload);
  }

  /** `repeated_field_pack_to_buffer` */
  method RepeatedFieldToBuffer(S: Schema, f: Field, vs: seq<Value>, buffer: SimpleBuffer, heap: Heap, ghost rest: multiset<nat>) returns (rv: nat, stray: bool)
    requires buffer.Valid() && buffer.Owns(heap, rest) && FieldFits(S, f, Many(vs))
    modifies heap, buffer, buffer.data
    ensures !stray ==> buffer.Valid() && buffer.Owns(heap, rest) && (buffer.data == old(buffer.data) || fresh(buffer.data))
    ensures heap.refusals >= old(heap.refusals) && (stray ==> heap.refusals > old(heap.refusals))
    ensures !stray ==> rv == |FieldBytes(S, f, Many(vs))|
    ensures heap.refusals == old(heap.refusals) ==> buffer.Contents() == old(buffer.Contents()) + FieldBytes(S, f, Many(vs))
    decreases vs, 2
  {
    ManyFits(S, f, vs);
    FitsSchema(S, f, Many(vs));
    hide FieldFits, FieldBytes, SchemaOk, ValueOk, Payload, Payloads, EncodeMember, EncodeMembers, ElementMembers;
    ghost var before := buffer.Contents();
    Empty(before);
    stray := false;
    if |vs| == 0 {
      NoElementBytes(S, f);
      return 0, stray;
    }
    if f.packed {
      rv := PackedFieldToBuffer(S, f, vs, buffer, heap, rest);
      return;
    }
    UnpackedBytes(S, f, vs);
    rv := 0;
    for i := 0 to |vs|
      invariant buffer.Valid() && buffer.Owns(heap, rest) && (buffer.data == old(buffer.data) || fresh(buffer.data))
      invariant heap.refusals >= old(heap.refusals)
      invariant rv == |EncodeMembers(ElementMembers(S, f, vs, i))|
      invariant heap.refusals == old(heap.refusals) ==> buffer.Contents() == before + EncodeMembers(ElementMembers(S, f, vs, i))
    {
      ElementsUnfold(S, f, vs, i + 1);
      var n, strayed := RequiredFieldToBuffer(S, f, vs[i], buffer, heap, rest);
      if strayed { return rv, true; }
      Assoc(before, EncodeMembers(ElementMembers(S, f, vs, i)), EncodeMember(ElementMember(S, f, vs[i])));
      rv := rv + n;
    }
  }

  method FieldToBuffer(S: Schema, f: Field, slot: Slot, buffer: SimpleBuffer, heap: Heap, ghost rest: multiset<nat>) returns (rv: nat, stray: bool)
    requires buffer.Valid() && buffer.Owns(heap, rest) && FieldFits(S, f, slot)
    modifies heap, buffer, buffer.data
    ensures !stray ==> buffer.Valid() && buffer.Owns(heap, rest) && (buffer.data == old(buffer.data) || fresh(buffer.data))
    ensures heap.refusals >= old(heap.refusals) && (stray ==> heap.refusals > old(heap.refusals))
    ensures !stray ==> rv == |FieldBytes(S, f, slot)|
    ensures heap.refusals == old(heap.refusals) ==> buffer.Contents() == old(buffer.Contents()) + FieldBytes(S, f, slot)
    decreases slot, 3
  {
    FitsSchema(S, f, slot);
    hide FieldFits, FieldBytes, SchemaOk, ValueOk, Payload, EncodeMember, Skipped;
    Empty(buffer.Contents());
    stray := false;
    match slot
    case Unset =>
      NoFieldBytes(S, f, slot);
      rv := 0;
    case One(v) =>
      if Skipped(f, v) {
        NoFieldBytes(S, f, slot);
        rv := 0;
      } else {
        OneFits(S, f, v);
        SingleBytes(S, f, v);
        rv, stray := RequiredFieldToBuffer(S, f, v, buffer, heap, rest);
      }
    case Many(vs) =>
      rv, stray := RepeatedFieldToBuffer(S, f, vs, buffer, heap, rest);
  }

  method UnknownFieldToBuffer(mem: Member, buffer: SimpleBuffer, heap: Heap, ghost rest: multiset<nat>) returns (rv: nat)
    requires buffer.Valid() && buffer.Owns(heap, rest)
    modifies heap, buffer, buffer.data
    ensures buffer.Valid() && buffer.Owns(heap, rest) && (buffer.data == old(buffer.data) || fresh(buffer.data))
    ensures heap.refusals >= old(heap.refusals)
    ensures rv == |EncodeMember(mem)|
    ensures heap.refusals == old(heap.refusals) ==> buffer.Contents() == old(buffer.Contents()) + EncodeMember(mem)
  {
    hide Tag, Written;
    ghost var before := buffer.Contents();
    var header := new byte[10];
    ghost var blank := header[..];
    rv := TagWirePack(mem.tag, mem.wire, header, 0);
    ScratchOne(blank, Tag(mem.tag, mem.wire));
    buffer.Append(header[..rv], heap, rest);
    buffer.Append(mem.data, heap, rest);
    Assoc(before, Tag(mem.tag, mem.wire), mem.data);
    rv := rv + |mem.data|;
  }

  /**
   The chunks appended for a message are, put together, the serialised message, if no memory is refused.  In any case
   the length of the whole message is returned, and, unless a nested buffer is read outside its array, the heap holds
   the buffer's block and what it held besides before.
   */
  method MessageToBuffer(S: Schema, d: nat, m: Message, buffer: SimpleBuffer, heap: Heap, ghost rest: multiset<nat>) returns (rv: nat, stray: bool)
    requires buffer.Valid() && buffer.Owns(heap, rest) && SchemaOk(S) && MessageOk(S, d, m)
    modifies heap, buffer, buffer.data
    ensures !stray ==> buffer.Valid() && buffer.Owns(heap, rest) && (buffer.data == old(buffer.data) || fresh(buffer.data))
    ensures heap.refusals >= old(heap.refusals) && (stray ==> heap.refusals > old(heap.refusals))
    ensures !stray ==> rv == |Encode(S, d, m)|
    ensures heap.refusals == old(heap.refusals) ==> buffer.Contents() == old(buffer.Contents()) + Encode(S, d, m)
    decreases m, 0
  {
    hide SchemaOk, MessageOk, Encode, FieldPrefix, FieldBytes, FieldFits, EncodeMembers, EncodeMember;
    ghost var before := buffer.Contents();
    EncodeSplit(S, d, m);
    NoFieldsYet(S, d, m);
    Empty(before);
    rv := 0;
    for i := 0 to |S[d].fields|
      invariant buffer.Valid() && buffer.Owns(heap, rest) && (buffer.data == old(buffer.data) || fresh(buffer.data))
      invariant heap.refusals >= old(heap.refusals)
      invariant rv == |FieldPrefix(S, d, m, i)|
      invariant heap.refusals == old(heap.refusals) ==> buffer.Contents() == before + FieldPrefix(S, d, m, i)
    {
      MessageFits(S, d, m, i);
      assert m.slots[i] < m;
      var n, strayed := FieldToBuffer(S, S[d].fields[i], m.slots[i], buffer, heap, rest);
      if strayed { return rv, true; }
      Assoc(before, FieldPrefix(S, d, m, i), FieldBytes(S, S[d].fields[i], m.slots[i]));
      rv := rv + n;
    }
    NothingToScan();
    ghost var fields := FieldPrefix(S, d, m, |m.slots|);
    Empty(fields);
    for i := 0 to |m.unknown|
      invariant buffer.Valid() && buffer.Owns(heap, rest) && (buffer.data == old(buffer.data) || fresh(buffer.data))
      invariant heap.refusals >= old(heap.refusals)
      invariant rv == |fields + EncodeMembers(m.unknown[..i])|
      invariant heap.refusals == old(heap.refusals) ==> buffer.Contents() == before + (fields + EncodeMembers(m.unknown[..i]))
    {
      EncodeSnoc(m.unknown, i);
      var n := UnknownFieldToBuffer(m.unknown[i], buffer, heap, rest);
      Assoc(before, fields + EncodeMembers(m.unknown[..i]), EncodeMember(m.unknown[i]));
      Assoc(fields, EncodeMembers(m.unknown[..i]), EncodeMember(m.unknown[i]));
      rv := rv + n;
    }
    TakeAll(m.unknown);
    stray := false;
  }
}
