/**
 The wire format as the Protocol Buffers "Encoding" specification describes it, with its numbers written out, and
 without the functions that `Encoding` and `Decoding` share.  A byte string has this form for a message exactly if it
 is what `Encoding.Encode` makes of the message.  What `Decoding` reads is stated the same way.
 */
module WireFormat {
  import opened Seqs
  import opened Wire
  import opened Schema
  import opened Encoding
  import opened Reading
  import opened PackedSize
  import opened Packing

  // ---------------------------------------------------------------------------------------------
  // The format
  // ---------------------------------------------------------------------------------------------

  /** The shortest base-128 form of `n`: least significant group first, the top bit set on all bytes but the last. */
  predicate VarintOf(s: seq<byte>, n: nat) {
    && s != [] && s[|s| - 1] < 128 && (forall i | 0 <= i < |s| - 1 :: s[i] >= 128)
    && (|s| > 1 ==> s[|s| - 1] > 0)
    && VarintValue(s) == n
  }

  /** Bytes as a number, least significant first. */
  function Weighted(s: seq<byte>): nat {
    if s == [] then 0 else s[0] as int + 256 * Weighted(s[1..])
  }

  function WireNumber(t: FieldType): nat {
    match t
    case INT32 | INT64 | UINT32 | UINT64 | SINT32 | SINT64 | BOOL | ENUM => 0
    case FIXED64 | SFIXED64 | DOUBLE => 1
    case STRING | BYTES | MESSAGE(_) => 2
    case FIXED32 | SFIXED32 | FLOAT => 5
  }

  /** What is written for a number of a varint type: sign-extended, zigzag, or as it is. */
  function VarintNumber(t: FieldType, v: Value): nat {
    match v
    case V32(n) =>
      if t == INT32 || t == ENUM then (if n < 0x8000_0000 then n else n + 0xFFFF_FFFF_0000_0000)
      else if t == SINT32 then (if n < 0x8000_0000 then 2 * n else 2 * (0x1_0000_0000 - n) - 1)
      else if t == BOOL then (if n == 0 then 0 else 1)
      else n
    case V64(n) =>
      if t == SINT64 then (if n < 0x8000_0000_0000_0000 then 2 * n else 2 * (0x1_0000_0000_0000_0000 - n) - 1) else n
    case _ => 0
  }

  /** The first `k` bytes are the length of the others. */
  predicate Announces(data: seq<byte>, k: nat) {
    0 < k <= |data| && VarintOf(data[..k], |data| - k)
  }

  /** What follows the tag of one value. */
  ghost predicate DataOf(S: Schema, t: FieldType, v: Value, data: seq<byte>)
    decreases v, 0
  {
    match WireNumber(t)
    case 0 => VarintOf(data, VarintNumber(t, v))
    case 1 => v.V64? && |data| == 8 && Weighted(data) == v.n64
    case 5 => v.V32? && |data| == 4 && Weighted(data) == v.n32
    case _ =>
      exists k: nat :: Announces(data, k) &&
        match v
        case Str(s) => data[k..] == s
        case Bin(b) => data[k..] == b
        case Msg(m) => t.MESSAGE? && MessageOnWire(S, t.sub, m, data[k..])
        case _ => false
  }

  /** Tag and data of one value. */
  ghost predicate FieldOnWire(S: Schema, f: Field, v: Value, data: seq<byte>)
    decreases v, 1
  {
    exists k | 0 < k <= |data| :: VarintOf(data[..k], 8 * f.id + WireNumber(f.typ)) && DataOf(S, f.typ, v, data[k..])
  }

  ghost predicate FieldsOfMany(S: Schema, f: Field, vs: seq<Value>, n: nat, data: seq<byte>)
    requires n <= |vs|
    decreases vs, n
  {
    if n == 0 then data == [] else
    exists k | 0 <= k <= |data| :: FieldsOfMany(S, f, vs, n - 1, data[..k]) && FieldOnWire(S, f, vs[n - 1], data[k..])
  }

  ghost predicate DataOfMany(S: Schema, t: FieldType, vs: seq<Value>, n: nat, data: seq<byte>)
    requires n <= |vs|
    decreases vs, n
  {
    if n == 0 then data == [] else
    exists k | 0 <= k <= |data| :: DataOfMany(S, t, vs, n - 1, data[..k]) && DataOf(S, t, vs[n - 1], data[k..])
  }

  /** What an unlabeled field outside a oneof does not send: zero, both zeroes of a floating-point number, nothing. */
  predicate NotSent(f: Field, v: Value) {
    f.rule == UNLABELED && f.oneof == None &&
    match f.typ
    case FLOAT => v == V32(0) || v == V32(0x8000_0000)
    case DOUBLE => v == V64(0) || v == V64(0x8000_0000_0000_0000)
    case STRING => v == Str([])
    case BYTES => v == Bin([])
    case MESSAGE(_) => false
    case _ => v == V32(0) || v == V64(0)
  }

  ghost predicate SlotOnWire(S: Schema, f: Field, slot: Slot, data: seq<byte>)
    decreases slot, 0
  {
    match slot
    case Unset => data == []
    case One(v) => if NotSent(f, v) then data == [] else FieldOnWire(S, f, v, data)
    case Many(vs) =>
      if vs == [] then data == []
      else if !f.packed then FieldsOfMany(S, f, vs, |vs|, data)
      else exists k | 0 < k <= |data| :: VarintOf(data[..k], 8 * f.id + 2) && PackedBody(S, f.typ, vs, data[k..])
  }

  ghost predicate PackedBody(S: Schema, t: FieldType, vs: seq<Value>, data: seq<byte>)
    decreases vs, |vs| + 1
  {
    exists k: nat :: Announces(data, k) && DataOfMany(S, t, vs, |vs|, data[k..])
  }

  ghost predicate SlotsOnWire(S: Schema, fs: seq<Field>, slots: seq<Slot>, n: nat, data: seq<byte>)
    requires n <= |fs| && n <= |slots|
    decreases slots, n
  {
    if n == 0 then data == [] else
    exists k | 0 <= k <= |data| ::
      SlotsOnWire(S, fs, slots, n - 1, data[..k]) && SlotOnWire(S, fs[n - 1], slots[n - 1], data[k..])
  }

  /** An unknown field is sent as it was received. */
  predicate UnknownOnWire(mem: Member, data: seq<byte>) {
    exists k | 0 < k <= |data| :: VarintOf(data[..k], 8 * mem.tag + mem.wire) && data[k..] == mem.data
  }

  ghost predicate UnknownsOnWire(us: seq<Member>, data: seq<byte>)
    decreases |us|
  {
    if us == [] then data == [] else
    exists k | 0 <= k <= |data| :: UnknownOnWire(us[0], data[..k]) && UnknownsOnWire(us[1..], data[k..])
  }

  /** The fields that are sent, in the order of the descriptor, and then the unknown ones. */
  ghost predicate MessageOnWire(S: Schema, d: nat, m: Message, data: seq<byte>)
    decreases m, 1
  {
    && d < |S| && |S[d].fields| == |m.slots|
    && exists k | 0 <= k <= |data| ::
         SlotsOnWire(S, S[d].fields, m.slots, |m.slots|, data[..k]) && UnknownsOnWire(m.unknown, data[k..])
  }

  // ---------------------------------------------------------------------------------------------
  // Numbers
  // ---------------------------------------------------------------------------------------------

  lemma {:induction false} VarintMinimal(n: nat)
    ensures |Varint(n)| > 1 ==> Varint(n)[|Varint(n)| - 1] > 0
    ensures n > 0 ==> Varint(n)[|Varint(n)| - 1] > 0
  {
    if n >= 128 { VarintMinimal(n / 128); }
  }

  lemma VarintUnfold(low: nat, high: nat)
    requires low < 128 && high > 0
    ensures Varint(low + 128 * high) == [low + 128] + Varint(high)
  {
    var n := low + 128 * high;
    assert n / 128 == high && n % 128 == low;
  }

  lemma TailVarint(s: seq<byte>, n: nat)
    requires |s| > 1 && VarintOf(s, n)
    ensures VarintOf(s[1..], VarintValue(s[1..])) && VarintValue(s[1..]) > 0
    ensures s[0] >= 128 && n == (s[0] - 128) + 128 * VarintValue(s[1..]) && s == [s[0]] + s[1..]
  {
    var rest := s[1..];
    assert rest[|rest| - 1] == s[|s| - 1];
    assert forall i | 0 <= i < |rest| - 1 :: rest[i] == s[i + 1];
    PositiveValue(rest);
  }

  lemma {:induction false} ShortestIsVarint(s: seq<byte>, n: nat)
    requires VarintOf(s, n)
    ensures s == Varint(n)
    decreases |s|
  {
    if |s| == 1 {
      assert s[1..] == [];
    } else {
      TailVarint(s, n);
      hide VarintOf, Varint, VarintValue;
      ShortestIsVarint(s[1..], VarintValue(s[1..]));
      VarintUnfold(s[0] - 128, VarintValue(s[1..]));
    }
  }

  lemma {:induction false} PositiveValue(s: seq<byte>)
    requires s != [] && 0 < s[|s| - 1] < 128
    ensures VarintValue(s) > 0
  {
    if |s| > 1 {
      assert s[1..][|s| - 2] == s[|s| - 1];
      PositiveValue(s[1..]);
    }
  }

  lemma VarintOfIff(s: seq<byte>, n: nat)
    ensures VarintOf(s, n) <==> s == Varint(n)
  {
    if VarintOf(s, n) { ShortestIsVarint(s, n); }
    if s == Varint(n) {
      VarintMinimal(n);
      VarintInverse(n);
    }
  }

  lemma WeightedFour(s: seq<byte>)
    requires |s| == 4
    ensures Weighted(s) == FromLittleEndian32(s)
  {
    assert s[1..][1..] == s[2..] && s[2..][1..] == s[3..] && s[3..][1..] == [];
    assert Weighted(s) == s[0] as int + 256 * Weighted(s[1..]);
    assert Weighted(s[1..]) == s[1] as int + 256 * Weighted(s[2..]);
    assert Weighted(s[2..]) == s[2] as int + 256 * Weighted(s[3..]);
    assert Weighted(s[3..]) == s[3] as int;
  }

  lemma WeightedEight(s: seq<byte>)
    requires |s| == 8
    ensures Weighted(s) == FromLittleEndian64(s)
  {
    WeightedAppend(s[..4], s[4..8]);
    assert s == s[..4] + s[4..8];
    WeightedFour(s[..4]);
    WeightedFour(s[4..8]);
    hide FromLittleEndian32, Weighted;
  }

  lemma {:induction false} WeightedAppend(a: seq<byte>, b: seq<byte>)
    ensures |a| == 4 ==> Weighted(a + b) == Weighted(a) + 0x1_0000_0000 * Weighted(b)
  {
    if |a| == 4 {
      var s := a + b;
      assert s[1..][1..][1..][1..] == b && a[1..][1..][1..][1..] == [];
      assert s[1..][0] == a[1] && s[1..][1..][0] == a[2] && s[1..][1..][1..][0] == a[3];
      assert Weighted(s) == s[0] as int + 256 * Weighted(s[1..]);
      assert Weighted(s[1..]) == s[1] as int + 256 * Weighted(s[1..][1..]);
      assert Weighted(s[1..][1..]) == s[2] as int + 256 * Weighted(s[1..][1..][1..]);
      assert Weighted(s[1..][1..][1..]) == s[3] as int + 256 * Weighted(b);
      WeightedFour(a);
    }
  }

  lemma LittleEndian32Iff(s: seq<byte>, n: u32)
    requires |s| == 4
    ensures Weighted(s) == n <==> s == LittleEndian32(n)
  {
    WeightedFour(s);
    LittleEndian32Inverse(n);
    if FromLittleEndian32(s) == n { Bytes32(s); }
    hide FromLittleEndian32, LittleEndian32;
  }

  lemma Bytes32(s: seq<byte>)
    requires |s| == 4
    ensures LittleEndian32(FromLittleEndian32(s)) == s
  {
    var n := FromLittleEndian32(s);
    assert n % 256 == s[0] as int;
    assert n / 0x100 == s[1] as int + s[2] as int * 0x100 + s[3] as int * 0x1_0000;
    assert n / 0x1_0000 == s[2] as int + s[3] as int * 0x100;
    assert n / 0x100_0000 == s[3] as int;
  }

  lemma LittleEndian64Iff(s: seq<byte>, n: u64)
    requires |s| == 8
    ensures Weighted(s) == n <==> s == LittleEndian64(n)
  {
    WeightedEight(s);
    LittleEndian64Inverse(n);
    if FromLittleEndian64(s) == n {
      Bytes32(s[..4]);
      Bytes32(s[4..8]);
      Halves(FromLittleEndian32(s[..4]), FromLittleEndian32(s[4..8]));
      assert s == s[..4] + s[4..8];
    }
    hide FromLittleEndian32, LittleEndian32;
  }

  lemma Halves(low: u32, high: u32)
    ensures (low + high * TWO32) % TWO32 == low && (low + high * TWO32) / TWO32 == high
  {
  }

  // ---------------------------------------------------------------------------------------------
  // One field
  // ---------------------------------------------------------------------------------------------

  lemma WireNumbers(t: FieldType)
    ensures WireNumber(t) == WireOf(t) && WireNumber(t) in {0, 1, 2, 5}
    ensures WireNumber(t) == 0 <==> IsVarint(t)
    ensures WireNumber(t) == 1 <==> Is64(t)
    ensures WireNumber(t) == 2 <==> !Packable(t)
    ensures WireNumber(t) == 5 <==> Is32(t)
    ensures WIRE_PREFIXED == 2
  {
  }

  lemma VarintNumbers(t: FieldType, v: Value)
    requires KindOk(t, v) && IsVarint(t)
    ensures VarintNumber(t, v) == ToVarint(t, v)
  {
    match v
    case V32(n) =>
      if t == INT32 || t == ENUM { SignExtended(n); }
      else if t == SINT32 {
        ZigZag32Value(AsInt32(n));
        hide ZigZag32;
      }
    case V64(n) =>
      if t == SINT64 {
        ZigZag64Value(AsInt64(n));
        hide ZigZag64;
      }
  }

  lemma SignExtended(n: u32)
    ensures Wrap64(AsInt32(n)) == if n < 0x8000_0000 then n else n + 0xFFFF_FFFF_0000_0000
  {
  }

  lemma AnnouncesIff(data: seq<byte>, body: seq<byte>)
    ensures (exists k: nat :: Announces(data, k) && data[k..] == body) <==> data == Prefixed(body)
  {
    if k: nat :| Announces(data, k) && data[k..] == body {
      VarintOfIff(data[..k], |data| - k);
      assert data == data[..k] + data[k..];
    }
    if data == Prefixed(body) {
      var k := |Varint(|body|)|;
      VarintOfIff(data[..k], |body|);
      assert data[..k] == Varint(|body|) && data[k..] == body;
      assert Announces(data, k);
    }
  }

  lemma DataOfIff(S: Schema, t: FieldType, v: Value, data: seq<byte>)
    requires SchemaOk(S) && ValueOk(S, t, v)
    ensures DataOf(S, t, v, data) <==> data == Payload(S, t, v)
    decreases v, 0
  {
    hide SchemaOk, MessageOk, Encode, MessageOnWire, VarintOf, Weighted, Prefixed, LittleEndian32;
    hide LittleEndian64, Announces, VarintNumber, ToVarint;
    WireNumbers(t);
    match v
    case V32(n) =>
      if Is32(t) {
        if |data| == 4 { LittleEndian32Iff(data, n); }
      } else {
        VarintNumbers(t, v);
        VarintOfIff(data, ToVarint(t, v));
      }
    case V64(n) =>
      if Is64(t) {
        if |data| == 8 { LittleEndian64Iff(data, n); }
      } else {
        VarintNumbers(t, v);
        VarintOfIff(data, ToVarint(t, v));
      }
    case Str(s) => AnnouncesIff(data, s);
    case Bin(b) => AnnouncesIff(data, b);
    case Msg(m) =>
      AnnouncesIff(data, Encode(S, t.sub, m));
      forall k: nat | Announces(data, k)
        ensures k <= |data| && (MessageOnWire(S, t.sub, m, data[k..]) <==> data[k..] == Encode(S, t.sub, m))
      {
        AnnouncedInside(data, k);
        EncodeIff(S, t.sub, m, data[k..]);
      }
  }

  lemma AnnouncedInside(data: seq<byte>, k: nat)
    requires Announces(data, k)
    ensures 0 < k <= |data|
  {
  }

  /** Two parts, each known. */
  lemma SplitIff(data: seq<byte>, a: seq<byte>, b: seq<byte>)
    ensures data == a + b <==> |a| <= |data| && data[..|a|] == a && data[|a|..] == b
  {
  }

  lemma TaggedIff(data: seq<byte>, id: nat, w: WireType, rest: seq<byte>)
    requires id < 0x1_0000_0000
    ensures (exists k | 0 < k <= |data| :: VarintOf(data[..k], 8 * id + w) && data[k..] == rest)
      <==> data == Tag(id, w) + rest
  {
    hide VarintOf, Varint;
    forall k | 0 < k <= |data| ensures VarintOf(data[..k], 8 * id + w) <==> data[..k] == Tag(id, w) {
      VarintOfIff(data[..k], 8 * id + w);
    }
    SplitIff(data, Tag(id, w), rest);
    if k :| 0 < k <= |data| && VarintOf(data[..k], 8 * id + w) && data[k..] == rest {
      assert data[..k] == Tag(id, w);
    }
    if data == Tag(id, w) + rest {
      assert VarintOf(data[..|Tag(id, w)|], 8 * id + w);
    }
  }

  lemma FieldIff(S: Schema, f: Field, v: Value, data: seq<byte>)
    requires SchemaOk(S) && ValueOk(S, f.typ, v) && FieldOk(S, f)
    ensures FieldOnWire(S, f, v, data) <==> data == EncodeMember(ElementMember(S, f, v))
    decreases v, 1
  {
    hide SchemaOk, ValueOk, DataOf, Payload, VarintOf, Tag;
    WireNumbers(f.typ);
    IdBound(S, f);
    forall k | 0 < k <= |data| ensures DataOf(S, f.typ, v, data[k..]) <==> data[k..] == Payload(S, f.typ, v) {
      DataOfIff(S, f.typ, v, data[k..]);
    }
    TaggedIff(data, f.id, WireOf(f.typ), Payload(S, f.typ, v));
  }

  lemma IdBound(S: Schema, f: Field)
    requires FieldOk(S, f)
    ensures 1 <= f.id < 0x2000_0000 && Wrap32(f.id) == f.id
    ensures f.packed ==> f.rule.REPEATED? && Packable(f.typ)
  {
  }

  // ---------------------------------------------------------------------------------------------
  // Lists
  // ---------------------------------------------------------------------------------------------

  lemma {:induction false} FieldsOfManyIff(S: Schema, f: Field, vs: seq<Value>, n: nat, data: seq<byte>)
    requires SchemaOk(S) && FieldOk(S, f) && n <= |vs| && forall k | 0 <= k < |vs| :: ValueOk(S, f.typ, vs[k])
    ensures FieldsOfMany(S, f, vs, n, data) <==> data == EncodeMembers(ElementMembers(S, f, vs, n))
    decreases vs, n
  {
    hide SchemaOk, ValueOk, FieldOk, FieldOnWire, EncodeMember, ElementMember, EncodeMembers, ElementMembers;
    if n == 0 {
      NoMembers(S, f, vs);
    } else {
      var a, b := EncodeMembers(ElementMembers(S, f, vs, n - 1)), EncodeMember(ElementMember(S, f, vs[n - 1]));
      ElementsUnfold(S, f, vs, n);
      SplitIff(data, a, b);
      forall k | 0 <= k <= |data|
        ensures FieldsOfMany(S, f, vs, n - 1, data[..k]) <==> data[..k] == a
        ensures FieldOnWire(S, f, vs[n - 1], data[k..]) <==> data[k..] == b
      {
        FieldsOfManyIff(S, f, vs, n - 1, data[..k]);
        FieldIff(S, f, vs[n - 1], data[k..]);
      }
      Parted(data, a, b);
      if data == a + b { assert FieldsOfMany(S, f, vs, n - 1, data[..|a|]); }
    }
  }

  lemma Parted(data: seq<byte>, a: seq<byte>, b: seq<byte>)
    ensures forall k | 0 <= k <= |data| && data[..k] == a && data[k..] == b :: data == a + b
  {
    forall k | 0 <= k <= |data| && data[..k] == a && data[k..] == b ensures data == a + b {
      assert data == data[..k] + data[k..];
    }
  }

  lemma NoMembers(S: Schema, f: Field, vs: seq<Value>)
    ensures EncodeMembers(ElementMembers(S, f, vs, 0)) == []
  {
  }

  lemma {:induction false} DataOfManyIff(S: Schema, t: FieldType, vs: seq<Value>, n: nat, data: seq<byte>)
    requires SchemaOk(S) && n <= |vs| && forall k | 0 <= k < |vs| :: ValueOk(S, t, vs[k])
    ensures DataOfMany(S, t, vs, n, data) <==> data == Payloads(S, t, vs, n)
    decreases vs, n
  {
    hide SchemaOk, ValueOk, DataOf, Payload;
    if n > 0 {
      var a, b := Payloads(S, t, vs, n - 1), Payload(S, t, vs[n - 1]);
      assert Payloads(S, t, vs, n) == a + b;
      hide Payloads;
      SplitIff(data, a, b);
      forall k | 0 <= k <= |data|
        ensures DataOfMany(S, t, vs, n - 1, data[..k]) <==> data[..k] == a
        ensures DataOf(S, t, vs[n - 1], data[k..]) <==> data[k..] == b
      {
        DataOfManyIff(S, t, vs, n - 1, data[..k]);
        DataOfIff(S, t, vs[n - 1], data[k..]);
      }
      Parted(data, a, b);
      if data == a + b { assert DataOfMany(S, t, vs, n - 1, data[..|a|]); }
    }
  }

  lemma PackedBodyIff(S: Schema, t: FieldType, vs: seq<Value>, data: seq<byte>)
    requires SchemaOk(S) && forall k | 0 <= k < |vs| :: ValueOk(S, t, vs[k])
    ensures PackedBody(S, t, vs, data) <==> data == Prefixed(Payloads(S, t, vs, |vs|))
    decreases vs, |vs| + 1
  {
    hide SchemaOk, ValueOk, Payloads, Prefixed, Announces, DataOfMany;
    AnnouncesIff(data, Payloads(S, t, vs, |vs|));
    forall k: nat | Announces(data, k)
      ensures k <= |data| && (DataOfMany(S, t, vs, |vs|, data[k..]) <==> data[k..] == Payloads(S, t, vs, |vs|))
    {
      AnnouncedInside(data, k);
      DataOfManyIff(S, t, vs, |vs|, data[k..]);
    }
  }

  lemma NotSentIff(f: Field, v: Value)
    requires KindOk(f.typ, v)
    ensures NotSent(f, v) <==> Skipped(f, v)
  {
  }

  lemma SlotIff(S: Schema, f: Field, slot: Slot, data: seq<byte>)
    requires SchemaOk(S) && SlotOk(S, f, slot) && FieldOk(S, f)
    ensures SlotOnWire(S, f, slot, data) <==> data == FieldBytes(S, f, slot)
    decreases slot, 0
  {
    hide SchemaOk, ValueOk, FieldOk, FieldOnWire, FieldsOfMany, PackedBody, NotSent;
    hide Skipped, EncodeMember, EncodeMembers, ElementMembers, Payloads, Prefixed, VarintOf;
    match slot
    case Unset => NoFieldBytes(S, f, slot);
    case One(v) =>
      OneKind(S, f.typ, v);
      NotSentIff(f, v);
      if Skipped(f, v) {
        NoFieldBytes(S, f, slot);
      } else {
        FieldIff(S, f, v, data);
        SingleBytes(S, f, v);
      }
    case Many(vs) =>
      if vs == [] {
        NoElementBytes(S, f);
      } else if !f.packed {
        FieldsOfManyIff(S, f, vs, |vs|, data);
        UnpackedBytes(S, f, vs);
      } else {
        IdBound(S, f);
        WireNumbers(f.typ);
        forall k | 0 < k <= |data|
          ensures PackedBody(S, f.typ, vs, data[k..]) <==> data[k..] == Prefixed(Payloads(S, f.typ, vs, |vs|))
        {
          PackedBodyIff(S, f.typ, vs, data[k..]);
        }
        TaggedIff(data, f.id, 2, Prefixed(Payloads(S, f.typ, vs, |vs|)));
        PackedBytes(S, f, vs);
      }
  }

  lemma OneKind(S: Schema, t: FieldType, v: Value)
    requires ValueOk(S, t, v)
    ensures KindOk(t, v)
  {
  }

  lemma {:induction false} SlotsIff(S: Schema, fs: seq<Field>, slots: seq<Slot>, n: nat, data: seq<byte>)
    requires SchemaOk(S) && n <= |fs| == |slots|
    requires forall i | 0 <= i < |fs| :: FieldOk(S, fs[i]) && SlotOk(S, fs[i], slots[i])
    ensures SlotsOnWire(S, fs, slots, n, data) <==> data == EncodeMembers(FieldsMembers(S, fs, slots, n))
    decreases slots, n
  {
    hide SchemaOk, SlotOk, FieldOk, SlotOnWire, FieldMembers, EncodeMembers;
    if n == 0 {
      NothingToSend();
    } else {
      var before, own := FieldsMembers(S, fs, slots, n - 1), FieldMembers(S, fs[n - 1], slots[n - 1]);
      var a, b := EncodeMembers(before), EncodeMembers(own);
      EncodeMembersAppend(before, own);
      SplitIff(data, a, b);
      hide FieldsMembers;
      forall k | 0 <= k <= |data|
        ensures SlotsOnWire(S, fs, slots, n - 1, data[..k]) <==> data[..k] == a
        ensures SlotOnWire(S, fs[n - 1], slots[n - 1], data[k..]) <==> data[k..] == b
      {
        SlotsIff(S, fs, slots, n - 1, data[..k]);
        SlotIff(S, fs[n - 1], slots[n - 1], data[k..]);
      }
      Parted(data, a, b);
      if data == a + b { assert SlotsOnWire(S, fs, slots, n - 1, data[..|a|]); }
    }
  }

  lemma NothingToSend()
    ensures EncodeMembers([]) == []
  {
  }

  lemma {:induction false} UnknownsIff(us: seq<Member>, data: seq<byte>)
    ensures UnknownsOnWire(us, data) <==> data == EncodeMembers(us)
    decreases |us|
  {
    hide UnknownOnWire, EncodeMember;
    if us != [] {
      var a, b := EncodeMember(us[0]), EncodeMembers(us[1..]);
      assert EncodeMembers(us) == a + b;
      hide EncodeMembers;
      SplitIff(data, a, b);
      forall k | 0 <= k <= |data|
        ensures UnknownOnWire(us[0], data[..k]) <==> data[..k] == a
        ensures UnknownsOnWire(us[1..], data[k..]) <==> data[k..] == b
      {
        UnknownIff(us[0], data[..k]);
        UnknownsIff(us[1..], data[k..]);
      }
      Parted(data, a, b);
      if data == a + b { assert UnknownsOnWire(us[1..], data[|a|..]) && UnknownOnWire(us[0], data[..|a|]); }
    }
  }

  lemma UnknownIff(mem: Member, data: seq<byte>)
    ensures UnknownOnWire(mem, data) <==> data == EncodeMember(mem)
  {
    TaggedIff(data, mem.tag, mem.wire, mem.data);
    hide VarintOf, Tag;
  }

  // ---------------------------------------------------------------------------------------------
  // Messages
  // ---------------------------------------------------------------------------------------------

  lemma MessageFields(S: Schema, d: nat, m: Message)
    requires SchemaOk(S) && MessageOk(S, d, m)
    ensures d < |S| && |S[d].fields| == |m.slots|
    ensures forall i | 0 <= i < |m.slots| :: FieldOk(S, S[d].fields[i]) && SlotOk(S, S[d].fields[i], m.slots[i])
  {
    hide FieldOk, SlotOk, Encode, Members;
    assert DescOk(S, S[d]);
  }

  /** The bytes of a message are the only ones of the described form. */
  lemma EncodeIff(S: Schema, d: nat, m: Message, data: seq<byte>)
    requires SchemaOk(S) && MessageOk(S, d, m)
    ensures MessageOnWire(S, d, m, data) <==> data == Encode(S, d, m)
    decreases m, 1
  {
    MessageFields(S, d, m);
    hide SchemaOk, MessageOk, FieldOk, SlotOk, SlotsOnWire, UnknownsOnWire, EncodeMembers, FieldsMembers;
    var known := FieldsMembers(S, S[d].fields, m.slots, |m.slots|);
    var a, b := EncodeMembers(known), EncodeMembers(m.unknown);
    EncodeMembersAppend(known, m.unknown);
    SplitIff(data, a, b);
    forall k | 0 <= k <= |data|
      ensures SlotsOnWire(S, S[d].fields, m.slots, |m.slots|, data[..k]) <==> data[..k] == a
      ensures UnknownsOnWire(m.unknown, data[k..]) <==> data[k..] == b
    {
      SlotsIff(S, S[d].fields, m.slots, |m.slots|, data[..k]);
      UnknownsIff(m.unknown, data[k..]);
    }
    Parted(data, a, b);
    if data == a + b { assert SlotsOnWire(S, S[d].fields, m.slots, |m.slots|, data[..|a|]); }
  }
}
