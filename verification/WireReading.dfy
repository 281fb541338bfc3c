/**
 What the parser takes from a byte string, with the numbers of the Protocol Buffers "Encoding" specification and of
 the source's limits written out: how long the first member is, what value its data stands for, and which elements
 are in a packed body.  Each is stated for every input, and exactly.  At the end, both ways together: what comes back.
 */
module WireReading {
  import opened Wire
  import opened Schema
  import opened Encoding
  import opened Decoding
  import opened RoundTrip
  import opened WireFormat

  // ---------------------------------------------------------------------------------------------
  // Members
  // ---------------------------------------------------------------------------------------------

  /** The first `k` bytes are a varint, and `max` bytes at most are looked at. */
  predicate FirstVarint(s: seq<byte>, k: nat, max: nat) {
    0 < k <= |s| && k <= max && s[k - 1] < 128 && forall i | 0 <= i < k - 1 :: s[i] >= 128
  }

  /** `n` bytes of data follow a tag of wire type `w`. A length prefix counts with 32 bits, and so does its sum. */
  ghost predicate DataLength(w: WireType, rest: seq<byte>, n: nat) {
    && n <= |rest|
    && match w
       case 0 => FirstVarint(rest, n, 10)
       case 1 => n == 8
       case 2 =>
         n < 0x1_0000_0000 && exists k: nat :: FirstVarint(rest, k, 5) && n == k + VarintValue(rest[..k]) % 0x1_0000_0000
       case 5 => n == 4
       case _ => false
  }

  /** The first `used` bytes are `mem`: a tag of at most five bytes, and the data that its wire type calls for. */
  ghost predicate MemberRead(data: seq<byte>, mem: Member, used: nat) {
    exists k: nat :: FirstVarint(data, k, 5) && k < used <= |data|
      && mem.tag == VarintValue(data[..k]) / 8 % 0x1_0000_0000 && mem.wire == VarintValue(data[..k]) % 8
      && mem.data == data[k..used] && DataLength(mem.wire, data[k..], used - k)
  }

  ghost predicate MembersRead(data: seq<byte>, ms: seq<Member>)
    decreases |ms|
  {
    if ms == [] then data == [] else
    exists used | 0 < used <= |data| :: MemberRead(data, ms[0], used) && MembersRead(data[used..], ms[1..])
  }

  lemma FirstVarintIff(s: seq<byte>, k: nat, max: nat)
    ensures FirstVarint(s, k, max) <==> k > 0 && TermLen(s, max) == k
  {
    if FirstVarint(s, k, max) {
      TerminatedUnique(s, k, max);
    }
  }

  lemma DataLengthIff(w: WireType, rest: seq<byte>, n: nat)
    ensures DataLength(w, rest, n) <==> n > 0 && MemberLen(w, rest) == n
  {
    FirstVarintIff(rest, n, 10);
    forall k: nat ensures FirstVarint(rest, k, 5) <==> k > 0 && TermLen(rest, 5) == k {
      FirstVarintIff(rest, k, 5);
    }
    var j := TermLen(rest, 5);
    assert j > 0 ==> FirstVarint(rest, j, 5);
    hide FirstVarint, TermLen, VarintValue;
  }

  /** Which members are complete. */
  lemma MemberOkIff(mem: Member)
    ensures MemberOk(mem) <==> DataLength(mem.wire, mem.data, |mem.data|)
  {
    hide MemberLen, DataLength;
    DataLengthIff(mem.wire, mem.data, |mem.data|);
  }

  /** `parse_tag_and_wiretype` and the choice of a data length in the scan loop. */
  lemma ScanMemberIff(data: seq<byte>, mem: Member, used: nat)
    ensures ScanMember(data) == Some((mem, used)) <==> MemberRead(data, mem, used)
  {
    hide FirstVarint, TermLen, VarintValue, DataLength, MemberLen, MemberOk;
    var k := TermLen(data, 5);
    forall j: nat ensures FirstVarint(data, j, 5) <==> j > 0 && k == j {
      FirstVarintIff(data, j, 5);
    }
    if k > 0 && k < used <= |data| {
      var w := VarintValue(data[..k]) % 8;
      DataLengthIff(w, data[k..], used - k);
      assert data[k..][..used - k] == data[k..used];
      assert FirstVarint(data, k, 5);
    }
  }

  /** The scan succeeds exactly on a sequence of complete members, and these are the ones. */
  lemma {:induction false} ScanIff(data: seq<byte>, ms: seq<Member>)
    ensures Scan(data) == Some(ms) <==> MembersRead(data, ms)
    decreases |ms|
  {
    hide ScanMember, MemberRead;
    if data != [] && ms != [] {
      forall used: nat ensures MemberRead(data, ms[0], used) <==> ScanMember(data) == Some((ms[0], used)) {
        ScanMemberIff(data, ms[0], used);
      }
      assert ms == [ms[0]] + ms[1..];
      if ScanMember(data).Some? {
        var used := ScanMember(data).value.1;
        ScanIff(data[used..], ms[1..]);
        ScanStep(data, ms, used);
      }
    }
  }

  lemma ScanStep(data: seq<byte>, ms: seq<Member>, used: nat)
    requires data != [] && ms != [] && ScanMember(data).Some? && ScanMember(data).value.1 == used
    ensures Scan(data) == Some(ms) <==> ScanMember(data).value.0 == ms[0] && Scan(data[used..]) == Some(ms[1..])
  {
    hide ScanMember;
    if Scan(data[used..]).Some? {
      var rest := Scan(data[used..]).value;
      assert Scan(data) == Some([ScanMember(data).value.0] + rest);
      assert ms == [ms[0]] + ms[1..];
      assert ([ScanMember(data).value.0] + rest)[1..] == rest;
    }
  }

  // ---------------------------------------------------------------------------------------------
  // Values
  // ---------------------------------------------------------------------------------------------

  /** What a length-prefixed member announces. */
  ghost predicate BodyRead(data: seq<byte>, body: seq<byte>) {
    exists k: nat :: FirstVarint(data, k, 5) && body == data[k..]
  }

  /** `c` is what C sees of the bytes `s` as a string: all of them, or those before the first NUL. */
  predicate UpToNul(s: seq<byte>, c: seq<byte>) {
    0 !in c && (s == c || c + [0] <= s)
  }

  /** The number of a varint type that a varint's bytes stand for. */
  function NumberRead(t: FieldType, s: seq<byte>): Value {
    var n := VarintValue(s);
    match t
    case INT64 | UINT64 => V64(n % 0x1_0000_0000_0000_0000)
    case SINT32 =>
      var z := n % 0x1_0000_0000;
      V32(if z % 2 == 0 then z / 2 else 0xFFFF_FFFF - z / 2)
    case SINT64 =>
      var z := n % 0x1_0000_0000_0000_0000;
      V64(if z % 2 == 0 then z / 2 else 0xFFFF_FFFF_FFFF_FFFF - z / 2)
    case BOOL => V32(if n == 0 then 0 else 1)
    case _ => V32(n % 0x1_0000_0000)
  }

  /** The value of a member that is no sub-message. A boolean is read whatever the wire type. */
  ghost predicate LeafRead(t: FieldType, mem: Member, v: Value) {
    && (t == BOOL || mem.wire == WireNumber(t))
    && match t
       case FIXED32 | SFIXED32 | FLOAT => v.V32? && v.n32 == Weighted(mem.data)
       case FIXED64 | SFIXED64 | DOUBLE => v.V64? && v.n64 == Weighted(mem.data)
       case STRING => v.Str? && exists s :: BodyRead(mem.data, s) && UpToNul(s, v.chars)
       case BYTES => v.Bin? && BodyRead(mem.data, v.bytes)
       case MESSAGE(_) => false
       case _ => v == NumberRead(t, mem.data)
  }

  lemma {:induction false} BooleanValue(s: seq<byte>)
    ensures ParseBoolean(s) <==> VarintValue(s) != 0
  {
    if s != [] { BooleanValue(s[1..]); }
  }

  lemma FromVarintValue(t: FieldType, s: seq<byte>)
    requires |s| > 0 && IsVarint(t)
    ensures FromVarint(t, s) == NumberRead(t, s)
  {
    hide ParseUInt32, ParseUInt64, ParseBoolean, VarintValue, UnZigZag32, UnZigZag64;
    match t
    case BOOL => BooleanValue(s);
    case SINT32 =>
      ParseUInt32Value(s);
      UnZigZag32Pattern(ParseUInt32(s));
    case SINT64 =>
      ParseUInt64Value(s);
      UnZigZag64Pattern(ParseUInt64(s));
    case INT64 | UINT64 => ParseUInt64Value(s);
    case INT32 | UINT32 | ENUM => ParseUInt32Value(s);
  }

  lemma UnZigZag32Pattern(z: u32)
    ensures Wrap32(UnZigZag32(z)) == if z % 2 == 0 then z / 2 else 0xFFFF_FFFF - z / 2
  {
    UnZigZag32Value(z);
    hide UnZigZag32;
  }

  lemma UnZigZag64Pattern(z: u64)
    ensures Wrap64(UnZigZag64(z)) == if z % 2 == 0 then z / 2 else 0xFFFF_FFFF_FFFF_FFFF - z / 2
  {
    UnZigZag64Value(z);
    hide UnZigZag64;
  }

  lemma {:induction false} CStringIff(s: seq<byte>, c: seq<byte>)
    ensures UpToNul(s, c) <==> c == CString(s)
  {
    if s == [] || s[0] == 0 {
      assert c + [0] <= s && c != [] ==> c[0] == s[0];
      assert c != [] ==> c[0] in c;
      assert c == [] && s != [] ==> c + [0] <= s;
    } else if c != [] {
      assert c[0] in c && c == [c[0]] + c[1..] && s == [s[0]] + s[1..];
      CStringIff(s[1..], c[1..]);
      assert (c + [0])[1..] == c[1..] + [0];
    }
  }

  lemma BodyIff(mem: Member, body: seq<byte>)
    requires MemberOk(mem) && mem.wire == 2
    ensures BodyRead(mem.data, body) <==> body == Body(mem)
  {
    hide FirstVarint, TermLen, VarintValue;
    var k := TermLen(mem.data, 5);
    forall j: nat ensures FirstVarint(mem.data, j, 5) <==> j > 0 && j == k {
      FirstVarintIff(mem.data, j, 5);
    }
    assert FirstVarint(mem.data, k, 5);
  }

  /** Every single value but a sub-message, from a complete member: which value, and when none is read. */
  lemma LeafIff(t: FieldType, mem: Member, v: Value)
    requires MemberOk(mem)
    ensures ParseLeaf(t, mem) == Some(v) <==> LeafRead(t, mem, v)
  {
    hide BodyRead, Body, FromVarint, NumberRead, FromLittleEndian32, FromLittleEndian64, Weighted;
    hide VarintValue, TermLen, CString, UpToNul;
    WireNumbers(t);
    if t.STRING? && mem.wire == 2 {
      forall s ensures BodyRead(mem.data, s) <==> s == Body(mem) { BodyIff(mem, s); }
      if v.Str? { CStringIff(Body(mem), v.chars); }
    } else if t.BYTES? && mem.wire == 2 {
      if v.Bin? { BodyIff(mem, v.bytes); }
    } else if Is32(t) && mem.wire == 5 {
      WeightedFour(mem.data);
    } else if Is64(t) && mem.wire == 1 {
      WeightedEight(mem.data);
    } else if IsVarint(t) && (t.BOOL? || mem.wire == 0) {
      FromVarintValue(t, mem.data);
    }
  }

  /** A sub-message is read from what the length prefix announces. */
  lemma SubmessageIff(S: Schema, sub: nat, mem: Member, v: Value)
    requires MemberOk(mem)
    ensures ParseValue(S, MESSAGE(sub), mem) == Some(v)
        <==> v.Msg? && mem.wire == 2 && exists body :: BodyRead(mem.data, body) && Unpack(S, sub, body) == Some(v.m)
  {
    hide BodyRead, Body, Unpack, MemberOk;
    if mem.wire == 2 {
      forall body ensures BodyRead(mem.data, body) <==> body == Body(mem) { BodyIff(mem, body); }
      assert BodyRead(mem.data, Body(mem));
    }
    assert WIRE_PREFIXED == 2;
  }

  // ---------------------------------------------------------------------------------------------
  // Packed elements
  // ---------------------------------------------------------------------------------------------

  /** The first `k` bytes of a packed body are the element `v`. A boolean must be one byte, 0 or 1. */
  predicate ElementRead(t: FieldType, body: seq<byte>, k: nat, v: Value) {
    && 0 < k <= |body|
    && match t
       case FIXED32 | SFIXED32 | FLOAT => k == 4 && v.V32? && v.n32 == Weighted(body[..k])
       case FIXED64 | SFIXED64 | DOUBLE => k == 8 && v.V64? && v.n64 == Weighted(body[..k])
       case BOOL => k == 1 && body[0] <= 1 && v == V32(body[0])
       case STRING | BYTES | MESSAGE(_) => false
       case _ => FirstVarint(body, k, 10) && v == NumberRead(t, body[..k])
  }

  ghost predicate ElementsRead(t: FieldType, body: seq<byte>, vs: seq<Value>)
    decreases |vs|
  {
    if vs == [] then body == [] else
    exists k: nat :: ElementRead(t, body, k, vs[0]) && ElementsRead(t, body[k..], vs[1..])
  }

  lemma ElementIff(t: FieldType, body: seq<byte>, k: nat, v: Value)
    requires Packable(t)
    ensures ElementRead(t, body, k, v)
        <==> (&& k > 0 && ElementLen(t, body) == k && !(t.BOOL? && body[0] > 1)
              && (ElementLenPrefix(t, body); ElementValue(t, body[..k])) == v)
  {
    hide FromVarint, NumberRead, FromLittleEndian32, FromLittleEndian64, Weighted, VarintValue, TermLen, FirstVarint;
    if 0 < k <= |body| {
      FirstVarintIff(body, k, 10);
      if Is32(t) && k == 4 { WeightedFour(body[..k]); }
      if Is64(t) && k == 8 { WeightedEight(body[..k]); }
      if IsVarint(t) { FromVarintValue(t, body[..k]); }
    }
  }

  lemma NoElement(t: FieldType, k: nat, v: Value)
    ensures !ElementRead(t, [], k, v)
  {
  }

  /** The elements of a packed body, whatever type they have; nothing is left over. */
  lemma {:induction false} ElementsIff(t: FieldType, body: seq<byte>, vs: seq<Value>)
    requires Packable(t)
    ensures ParsePacked(t, body) == Some(vs) <==> ElementsRead(t, body, vs)
    decreases |vs|
  {
    hide ElementRead, ElementLen, ElementValue;
    if body == [] {
      forall k: nat, v ensures !ElementRead(t, body, k, v) { NoElement(t, k, v); }
    } else if vs != [] {
      var k := ElementLen(t, body);
      forall j: nat ensures ElementRead(t, body, j, vs[0]) <==>
          (&& j > 0 && k == j && !(t.BOOL? && body[0] > 1)
           && (ElementLenPrefix(t, body); ElementValue(t, body[..j])) == vs[0])
      {
        ElementIff(t, body, j, vs[0]);
      }
      if k > 0 { ElementsIff(t, body[k..], vs[1..]); }
      if ParsePacked(t, body) == Some(vs) { assert ElementRead(t, body, k, vs[0]) && ElementsRead(t, body[k..], vs[1..]); }
      assert vs == [vs[0]] + vs[1..];
    }
  }

  /** A repeated number is read packed when it comes length-prefixed, whether it is declared packed or not. */
  lemma RepeatedReads(S: Schema, f: Field, prev: seq<Value>, mem: Member, vs: seq<Value>)
    requires MemberOk(mem) && f.rule == REPEATED && !f.typ.MESSAGE?
    ensures StepField(S, f, Many(prev), mem) == Some(Many(prev + vs)) <==>
      if mem.wire == 2 && f.typ != STRING && f.typ != BYTES then
        exists body :: BodyRead(mem.data, body) && ElementsRead(f.typ, body, vs)
      else |vs| == 1 && LeafRead(f.typ, mem, vs[0])
  {
    hide BodyRead, ElementsRead, LeafRead, ParseLeaf, ParsePacked, Body, MemberOk;
    if ReadsPacked(f, mem.wire) {
      forall body ensures BodyRead(mem.data, body) <==> body == Body(mem) { BodyIff(mem, body); }
      ElementsIff(f.typ, Body(mem), vs);
    } else if |vs| == 1 {
      LeafIff(f.typ, mem, vs[0]);
    }
    if ParseLeaf(f.typ, mem).Some? { SameTail(prev, [ParseLeaf(f.typ, mem).value], vs); }
    if Packable(f.typ) && ParsePacked(f.typ, Body(mem)).Some? {
      SameTail(prev, ParsePacked(f.typ, Body(mem)).value, vs);
    }
  }

  lemma SameTail(a: seq<Value>, b: seq<Value>, c: seq<Value>)
    ensures a + b == a + c <==> b == c
  {
    if a + b == a + c { assert b == (a + b)[|a|..] == c; }
  }

  // ---------------------------------------------------------------------------------------------
  // What comes back
  // ---------------------------------------------------------------------------------------------

  /** `w` is what becomes of a sent value `v`: the same, but a boolean is 0 or 1, and a sub-message makes its own way. */
  ghost predicate ValueBack(S: Schema, t: FieldType, v: Value, w: Value) {
    match v
    case V32(n) => w == V32(if t != BOOL then n else if n == 0 then 0 else 1)
    case Msg(m) => t.MESSAGE? && w.Msg? && Unpack(S, t.sub, Encode(S, t.sub, m)) == Some(w.m)
    case _ => w == v
  }

  ghost predicate SlotBack(S: Schema, f: Field, slot: Slot, back: Slot) {
    match slot
    case Unset => back == Unset
    case One(v) => if NotSent(f, v) then back == Unset else back.One? && ValueBack(S, f.typ, v, back.v)
    case Many(vs) =>
      back.Many? && |back.vs| == |vs| && forall k | 0 <= k < |vs| :: ValueBack(S, f.typ, vs[k], back.vs[k])
  }

  lemma NormalBack(S: Schema, t: FieldType, v: Value)
    requires SchemaOk(S) && ValueOk(S, t, v)
    ensures ValueBack(S, t, v, NormalValue(S, t, v))
  {
    hide SchemaOk, MessageOk, Unpack, Encode, Normalize;
    if v.Msg? { UnpackEncode(S, t.sub, v.m); }
  }

  /** Field by field, every message that is packed and unpacked: exactly the zeroes that are not sent get lost. */
  lemma ComesBack(S: Schema, d: nat, m: Message)
    requires SchemaOk(S) && MessageOk(S, d, m)
    ensures var r := Unpack(S, d, Encode(S, d, m));
      && d < |S| && |S[d].fields| == |m.slots| && r.Some? && |r.value.slots| == |m.slots| && r.value.unknown == m.unknown
      && forall i | 0 <= i < |m.slots| :: SlotBack(S, S[d].fields[i], m.slots[i], r.value.slots[i])
  {
    UnpackEncode(S, d, m);
    MessageFields(S, d, m);
    hide SchemaOk, MessageOk, Unpack, Encode, Normalize, ValueOk, ValueBack, NotSent, Skipped, NormalValue;
    NormalizeShape(S, d, m);
    forall i | 0 <= i < |m.slots| ensures SlotBack(S, S[d].fields[i], m.slots[i], Normalize(S, d, m).slots[i]) {
      var f := S[d].fields[i];
      NormalizeAt(S, d, m, i);
      match m.slots[i]
      case Unset =>
      case One(v) =>
        OneKind(S, f.typ, v);
        NotSentIff(f, v);
        NormalBack(S, f.typ, v);
      case Many(vs) =>
        forall k | 0 <= k < |vs| ensures ValueBack(S, f.typ, vs[k], NormalValues(S, f.typ, vs)[k]) {
          NormalBack(S, f.typ, vs[k]);
        }
    }
  }
}
