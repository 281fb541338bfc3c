/**
 `protobuf_c_message_unpack` as the source runs it: a scanning pass that finds the members, counts the elements of
 repeated fields and marks required fields; then the allocations; then a parsing pass that fills them in.  Any
 allocation may be refused.  It is proved to compute `Decoding.Unpack` when none is, to leave no block behind when it
 fails, and to stray from its input or its arrays exactly where `Strays` says.  Schemas with oneofs are excluded here.
 */
module Unpacker {
  import opened Seqs
  import opened Wire
  import opened Schema
  import opened Encoding
  import opened Decoding
  import opened SlotFold
  import opened Reading
  import opened Merging
  import opened Memory
  import opened HeapMerge
  import opened Slabs
  import opened Lookup
  import opened Scanner
  import opened Concatenation
  import opened Strays

  // ---------------------------------------------------------------------------------------------
  // Values
  // ---------------------------------------------------------------------------------------------

  /** A number in memory. */
  function Number(v: Value): HValue
    requires v.V32? || v.V64?
  {
    if v.V32? then H32(v.n32) else H64(v.n64)
  }

  lemma NumberOwnsNothing(v: Value)
    requires v.V32? || v.V64?
    ensures ValueOf(Number(v)) == v && ValueBlocks(Number(v)) == multiset{}
  {
  }

  lemma {:induction false} ValuesSnoc(vs: seq<HValue>, v: HValue)
    ensures ValuesOf(vs + [v]) == ValuesOf(vs) + [ValueOf(v)]
  {
    hide ValueOf;
    assert forall k | 0 <= k < |vs| :: (vs + [v])[k] == vs[k];
  }

  /** `vs` is what has been read of `body` before `at`. */
  ghost predicate ReadSoFar(t: FieldType, body: seq<byte>, at: nat, vs: seq<HValue>)
    requires Packable(t)
  {
    && at <= |body|
    && Reserved(t, body).Some? && Reserved(t, body[at..]).Some?
    && |vs| + Reserved(t, body[at..]).value == Reserved(t, body).value
    && |vs| + StoredCount(t, body[at..]) == StoredCount(t, body)
    && ParsePacked(t, body) == match ParsePacked(t, body[at..])
         case None => None
         case Some(ws) => Some(ValuesOf(vs) + ws)
  }

  lemma ReadingStart(t: FieldType, body: seq<byte>)
    requires Packable(t) && Reserved(t, body).Some?
    ensures ReadSoFar(t, body, 0, [])
  {
    hide ParsePacked, Reserved, StoredCount;
    assert body[0..] == body;
    if ParsePacked(t, body).Some? { Empty(ParsePacked(t, body).value); }
  }

  lemma ReadingStep(t: FieldType, body: seq<byte>, at: nat, vs: seq<HValue>)
    requires Packable(t) && ReadSoFar(t, body, at, vs) && at < |body|
    ensures var rem := body[at..]; var k := ElementLen(t, rem);
      if k == 0 || (t.BOOL? && rem[0] > 1) then ParsePacked(t, body).None? && StoredCount(t, body) == |vs|
      else
        && ElementLen(t, rem[..k]) == k && at + k <= |body| && StoredCount(t, body) > |vs|
        && var v := ElementValue(t, rem[..k]); (v.V32? || v.V64?) && ReadSoFar(t, body, at + k, vs + [Number(v)])
  {
    hide *;
    var rem := body[at..];
    var k := ElementLen(t, rem);
    ReadSoFarParts(t, body, at, vs);
    if k == 0 || (t.BOOL? && rem[0] > 1) {
      BadElement(t, rem);
    } else {
      ElementLenPrefix(t, rem);
      ReservedStep(t, rem);
      var v := ElementValue(t, rem[..k]);
      SliceSlice(body, at, k);
      ElementIsNumber(t, rem[..k]);
      NumberOwnsNothing(v);
      ValuesSnoc(vs, Number(v));
      ElementsUnfoldOnce(t, rem, k);
      if ParsePacked(t, rem[k..]).Some? { Assoc(ValuesOf(vs), [v], ParsePacked(t, rem[k..]).value); }
      ReadSoFarParts(t, body, at + k, vs + [Number(v)]);
    }
  }

  lemma ReadSoFarParts(t: FieldType, body: seq<byte>, at: nat, vs: seq<HValue>)
    requires Packable(t)
    ensures ReadSoFar(t, body, at, vs) <==>
      && at <= |body|
      && Reserved(t, body).Some? && Reserved(t, body[at..]).Some?
      && |vs| + Reserved(t, body[at..]).value == Reserved(t, body).value
      && |vs| + StoredCount(t, body[at..]) == StoredCount(t, body)
      && ParsePacked(t, body) == match ParsePacked(t, body[at..])
           case None => None
           case Some(ws) => Some(ValuesOf(vs) + ws)
  {
    hide ParsePacked, Reserved, StoredCount, ValuesOf;
  }

  lemma BadElement(t: FieldType, rem: seq<byte>)
    requires Packable(t) && rem != [] && (ElementLen(t, rem) == 0 || (t.BOOL? && rem[0] > 1))
    ensures ParsePacked(t, rem).None? && StoredCount(t, rem) == 0
  {
    hide ElementLen;
  }

  lemma SliceSlice(s: seq<byte>, at: nat, k: nat)
    requires at + k <= |s|
    ensures s[at..][k..] == s[at + k..]
  {
  }

  lemma ElementIsNumber(t: FieldType, s: seq<byte>)
    requires Packable(t) && 0 < |s| && ElementLen(t, s) == |s|
    ensures ElementValue(t, s).V32? || ElementValue(t, s).V64?
  {
    hide ElementLen, ElementValue;
    assert KindOk(t, ElementValue(t, s));
  }

  lemma ElementsUnfoldOnce(t: FieldType, rem: seq<byte>, k: nat)
    requires Packable(t) && rem != [] && k == ElementLen(t, rem) > 0 && !(t.BOOL? && rem[0] > 1)
    requires ElementLen(t, rem[..k]) == k
    ensures ParsePacked(t, rem) == match ParsePacked(t, rem[k..])
      case None => None
      case Some(ws) => Some([ElementValue(t, rem[..k])] + ws)
    ensures StoredCount(t, rem) == 1 + StoredCount(t, rem[k..])
  {
    hide ElementLen, ElementValue;
  }

  lemma ReadingEnd(t: FieldType, body: seq<byte>, vs: seq<HValue>)
    requires Packable(t) && ReadSoFar(t, body, |body|, vs)
    ensures ParsePacked(t, body) == Some(ValuesOf(vs)) && |vs| == Reserved(t, body).value == StoredCount(t, body)
  {
    assert body[|body|..] == [] && ParsePacked(t, []) == Some([]) && Reserved(t, []) == Some(0) && StoredCount(t, []) == 0;
    Empty(ValuesOf(vs));
    hide ParsePacked, Reserved, StoredCount;
  }

  /** The elements are plain numbers. */
  ghost predicate Numbers(vs: seq<HValue>) { forall k | 0 <= k < |vs| :: vs[k].H32? || vs[k].H64? }

  lemma {:induction false} NumbersOwnNothing(vs: seq<HValue>, k: nat)
    requires Numbers(vs) && k <= |vs|
    ensures ElementBlocks(vs, k) == multiset{}
    decreases |vs| - k
  {
    if k < |vs| { NumbersOwnNothing(vs, k + 1); }
  }

  /**
   `parse_packed_repeated_member`: reads elements until the body is used up.  `over` is true if one is stored behind
   the end of the array, in which `room` elements are free.
   */
  method ParsePackedRepeated(t: FieldType, body: seq<byte>, room: nat) returns (ok: bool, over: bool, vs: seq<HValue>)
    requires Packable(t) && Reserved(t, body).Some?
    ensures over <==> StoredCount(t, body) > room
    ensures ok <==> !over && ParsePacked(t, body).Some?
    ensures ok ==> ParsePacked(t, body) == Some(ValuesOf(vs)) && |vs| == Reserved(t, body).value <= room
    ensures Numbers(vs)
  {
    hide ReadSoFar, ElementLen, ElementValue, ParsePacked, Reserved, Packable, Is32, Is64, ValuesOf, StoredCount;
    ReadingStart(t, body);
    var at := 0;
    vs, over := [], false;
    while at < |body|
      invariant at <= |body| && ReadSoFar(t, body, at, vs) && Numbers(vs) && |vs| <= room
      decreases |body| - at
    {
      ReadingStep(t, body, at, vs);
      var rem := body[at..];
      var k := ElementSize(t, rem);
      if k == 0 || (t.BOOL? && rem[0] > 1) { return false, over, vs; }
      if |vs| == room { return false, true, vs; }
      vs := vs + [Number(ElementValue(t, rem[..k]))];
      at := at + k;
    }
    ReadingEnd(t, body, vs);
    ok := true;
  }

  /** Four or eight bytes, one for a boolean, or a varint. */
  method ElementSize(t: FieldType, rem: seq<byte>) returns (k: nat)
    requires Packable(t)
    ensures k == ElementLen(t, rem)
  {
    if Is32(t) { k := if |rem| < 4 then 0 else 4; }
    else if Is64(t) { k := if |rem| < 8 then 0 else 8; }
    else if t.BOOL? { k := if rem == [] then 0 else 1; }
    else { k := ScanVarint(rem, 10); }
  }

  // ---------------------------------------------------------------------------------------------
  // Scanned members
  // ---------------------------------------------------------------------------------------------

  function Mems(xs: seq<Scanned>): (r: seq<Member>)
    ensures |r| == |xs|
    ensures forall k | 0 <= k < |xs| :: r[k] == xs[k].mem
  {
    seq(|xs|, k requires 0 <= k < |xs| => xs[k].mem)
  }

  predicate Faithful(fs: seq<Field>, x: Scanned) {
    && MemberOk(x.mem)
    && x.field == FieldIndex(fs, x.mem.tag)
    && (x.mem.wire == WIRE_PREFIXED ==> x.prefix == TermLen(x.mem.data, 5))
  }

  predicate Countable(fs: seq<Field>, x: Scanned) {
    match x.field
    case None => true
    case Some(i) => i < |fs| && (fs[i].rule.REPEATED? ==> Elements(fs[i], x.mem).Some?)
  }

  /** The elements the first `n` members hold for field `i`. */
  function CountOf(fs: seq<Field>, i: nat, xs: seq<Scanned>, n: nat): nat
    requires i < |fs| && n <= |xs|
  {
    if n == 0 then 0
    else CountOf(fs, i, xs, n - 1)
         + if xs[n - 1].field == Some(i) && Elements(fs[i], xs[n - 1].mem).Some? then Elements(fs[i], xs[n - 1].mem).value else 0
  }

  /** For how many elements field `i`'s array is allocated. */
  function Room(fs: seq<Field>, i: nat, xs: seq<Scanned>): u32
    requires i < |fs|
  {
    Wrap32(CountOf(fs, i, xs, |xs|))
  }

  function Rooms(fs: seq<Field>, xs: seq<Scanned>): (r: seq<nat>)
    ensures |r| == |fs|
  {
    seq(|fs|, i requires 0 <= i < |fs| => Room(fs, i, xs))
  }

  function UnknownCount(xs: seq<Scanned>, n: nat): nat
    requires n <= |xs|
  {
    if n == 0 then 0 else UnknownCount(xs, n - 1) + if xs[n - 1].field.None? then 1 else 0
  }

  lemma {:induction false} CountGrows(fs: seq<Field>, i: nat, xs: seq<Scanned>, k: nat, n: nat)
    requires i < |fs| && k <= n <= |xs|
    ensures CountOf(fs, i, xs, k) <= CountOf(fs, i, xs, n) && UnknownCount(xs, k) <= UnknownCount(xs, n)
    decreases n
  {
    hide Elements;
    if k < n { CountGrows(fs, i, xs, k, n - 1); }
  }

  lemma {:induction false} UnknownGrows(xs: seq<Scanned>, k: nat, n: nat)
    requires k <= n <= |xs|
    ensures UnknownCount(xs, k) <= UnknownCount(xs, n)
    decreases n
  {
    if k < n { UnknownGrows(xs, k, n - 1); }
  }

  // ---------------------------------------------------------------------------------------------
  // One value
  // ---------------------------------------------------------------------------------------------

  /** What may be in the place a value is parsed into: nothing, or a value of the same type. */
  ghost predicate PrevOk(S: Schema, t: FieldType, prev: HSlot) {
    match prev
    case HUnset => true
    case HOne(v) => KindOk(t, ValueOf(v)) && (v.HMsg? ==> t.MESSAGE? && Ready(S, t.sub, v.m))
    case HMany(_, _, _) => false
  }

  /** The value that ends up there: a sub-message is merged with the one already present. */
  function Merged(S: Schema, t: FieldType, prev: HSlot, v: Value): Value {
    if t.MESSAGE? && prev.HOne? && prev.v.HMsg? && v.Msg? then Msg(MergeMessages(S, t.sub, MessageOf(prev.v.m), v.m)) else v
  }

  lemma PrevValue(S: Schema, t: FieldType, prev: HSlot)
    requires PrevOk(S, t, prev)
    ensures !prev.HMany?
    ensures prev.HOne? && t.MESSAGE? ==> prev.v.HMsg? && Ready(S, t.sub, prev.v.m) && SlotBlocks(prev) == BlocksOf(prev.v.m)
    ensures prev.HOne? && t.STRING? ==> prev.v.HStr? && SlotBlocks(prev) == Opt(prev.v.block)
    ensures prev.HOne? && t.BYTES? ==> prev.v.HBin? && SlotBlocks(prev) == Opt(prev.v.block)
    ensures prev.HOne? && !t.MESSAGE? && !t.STRING? && !t.BYTES? ==> SlotBlocks(prev) == multiset{}
    ensures prev.HUnset? ==> SlotBlocks(prev) == multiset{}
  {
    hide Ready, MessageOf, BlocksOf;
  }

  /** A number, read from its bytes. */
  method ParseNumber(t: FieldType, mem: Member) returns (v: Option<HValue>)
    requires MemberOk(mem) && Packable(t)
    ensures v.None? <==> ParseLeaf(t, mem).None?
    ensures v.Some? ==> (v.value.H32? || v.value.H64?) && ParseLeaf(t, mem) == Some(ValueOf(v.value))
  {
    hide ParseUInt32, ParseUInt64, ParseBoolean, TermLen, UnZigZag32, UnZigZag64;
    if !t.BOOL? && mem.wire != WireOf(t) { return None; }
    if Is32(t) { return Some(H32(FromLittleEndian32(mem.data))); }
    if Is64(t) { return Some(H64(FromLittleEndian64(mem.data))); }
    if t.BOOL? {
      var b := ParseBooleanBytes(mem.data);
      return Some(H32(if b then 1 else 0));
    }
    VarintData(mem);
    if t.SINT64? {
      var n := ParseUInt64Bytes(mem.data);
      return Some(H64(Wrap64(UnZigZag64(n))));
    }
    if t.INT64? || t.UINT64? {
      var n := ParseUInt64Bytes(mem.data);
      return Some(H64(n));
    }
    return Some(H32(if t.SINT32? then Wrap32(UnZigZag32(ParseUInt32(mem.data))) else ParseUInt32(mem.data)));
  }

  lemma VarintData(mem: Member)
    requires MemberOk(mem) && mem.wire == WIRE_VARINT
    ensures 0 < |mem.data| <= 10
  {
  }

  /** The body of a length-prefixed member. */
  lemma BodyOf(fs: seq<Field>, x: Scanned)
    requires Faithful(fs, x) && x.mem.wire == WIRE_PREFIXED
    ensures x.prefix <= |x.mem.data| && x.mem.data[x.prefix..] == Body(x.mem) && |Body(x.mem)| < |x.mem.data|
  {
    hide MemberOk, TermLen;
  }

  lemma LeafOf(S: Schema, t: FieldType, mem: Member)
    requires MemberOk(mem)
    ensures !t.MESSAGE? ==> ParseValue(S, t, mem) == ParseLeaf(t, mem)
    ensures t.STRING? ==> ParseLeaf(t, mem) == if mem.wire == WIRE_PREFIXED then Some(Str(CString(Body(mem)))) else None
    ensures t.BYTES? ==> ParseLeaf(t, mem) == if mem.wire == WIRE_PREFIXED then Some(Bin(Body(mem))) else None
    ensures t.MESSAGE? && mem.wire != WIRE_PREFIXED ==> ParseValue(S, t, mem).None?
    ensures t.MESSAGE? && mem.wire == WIRE_PREFIXED ==>
      match Decoding.Unpack(S, t.sub, Body(mem))
      case None => ParseValue(S, t, mem).None?
      case Some(m) => ParseValue(S, t, mem) == Some(Msg(m))
  {
    hide MemberLen, Body, CString, FromVarint, Decoding.Unpack;
  }

  lemma OneBlocks(v: HValue)
    ensures SlotBlocks(HOne(v)) == ValueBlocks(v)
    ensures v.H32? || v.H64? ==> ValueBlocks(v) == multiset{}
    ensures v.HStr? || v.HBin? ==> ValueBlocks(v) == Opt(v.block)
    ensures v.HMsg? ==> ValueBlocks(v) == BlocksOf(v.m)
    ensures v.HStr? ==> ValueOf(v) == Str(v.chars)
    ensures v.HBin? ==> ValueOf(v) == Bin(v.bytes)
    ensures v.HMsg? ==> ValueOf(v) == Msg(MessageOf(v.m))
    ensures Opt(None) == multiset{}
    ensures SlotBlocks(HUnset) == multiset{}
  {
    hide BlocksOf, MessageOf;
  }

  lemma ValueTight(S: Schema, t: FieldType, v: HValue)
    ensures v.H32? || v.H64? ==> TightValue(S, t, v)
    ensures v.HStr? && v.block.Some? ==> TightValue(S, t, v)
    ensures v.HBin? && (v.block.Some? <==> v.bytes != []) ==> TightValue(S, t, v)
    ensures v.HMsg? && t.MESSAGE? && Tight(S, t.sub, v.m) ==> TightValue(S, t, v)
  {
    hide Tight;
  }

  /** `parse_required_member`, the string case: the old string goes, then the new one is allocated. */
  method ParseString(heap: Heap, prev: HSlot, body: seq<byte>, ghost rest: multiset<nat>) returns (ok: bool, r: HSlot)
    requires prev.HUnset? || (prev.HOne? && prev.v.HStr?)
    requires heap.Valid() && heap.live == rest + SlotBlocks(prev)
    modifies heap
    ensures heap.Valid() && heap.live == rest + SlotBlocks(r)
    ensures heap.refusals >= old(heap.refusals) && (ok <==> heap.refusals == old(heap.refusals))
    ensures ok ==> r.HOne? && r.v.HStr? && r.v.block.Some? && r.v.chars == CString(body)
    ensures !ok ==> r == HUnset
  {
    hide CString, SlotBlocks, ValueBlocks, ValueOf;
    if prev.HOne? {
      OneBlocks(prev.v);
      FreeBlock(heap, prev.v.block, rest);
    } else {
      UnsetOwnsNothing();
    }
    var block := heap.Alloc();
    if block.None? {
      UnsetOwnsNothing();
      return false, HUnset;
    }
    OneBlocks(HStr(block, CString(body)));
    return true, HOne(HStr(block, CString(body)));
  }

  /** The byte string case: an empty one gets no block. */
  method ParseBytes(heap: Heap, prev: HSlot, body: seq<byte>, ghost rest: multiset<nat>) returns (ok: bool, r: HSlot)
    requires prev.HUnset? || (prev.HOne? && prev.v.HBin?)
    requires heap.Valid() && heap.live == rest + SlotBlocks(prev)
    modifies heap
    ensures heap.Valid() && heap.live == rest + SlotBlocks(r)
    ensures heap.refusals >= old(heap.refusals) && (ok <==> heap.refusals == old(heap.refusals))
    ensures ok ==> r.HOne? && r.v.HBin? && r.v.bytes == body && (r.v.block.Some? <==> body != [])
    ensures !ok ==> r == HUnset
  {
    hide SlotBlocks, ValueBlocks, ValueOf;
    if prev.HOne? {
      OneBlocks(prev.v);
      FreeBlock(heap, prev.v.block, rest);
    } else {
      UnsetOwnsNothing();
    }
    var block: Option<nat> := None;
    if |body| > 0 {
      block := heap.Alloc();
      if block.None? {
        UnsetOwnsNothing();
        return false, HUnset;
      }
    }
    OneBlocks(HBin(block, body));
    return true, HOne(HBin(block, body));
  }

  lemma TypedUnpack(S: Schema, d: nat, data: seq<byte>, m: HMessage)
    requires SchemaOk(S) && NoOneofs(S) && Decoding.Unpack(S, d, data) == Some(MessageOf(m)) && Tight(S, d, m)
    ensures Ready(S, d, m)
  {
    hide Decoding.Unpack, MessageOf, Tight;
    UnpackTyped(S, d, data);
  }

  /**
   The sub-message case: the new occurrence is unpacked first, the earlier one merged into it and then freed.
   Freeing the earlier message happens even when unpacking or merging failed.
   */
  method ParseMessage(S: Schema, heap: Heap, t: FieldType, prev: HSlot, body: seq<byte>, ghost rest: multiset<nat>)
    returns (ok: bool, stray: bool, r: HSlot)
    requires SchemaOk(S) && NoOneofs(S) && t.MESSAGE? && t.sub < |S| && PrevOk(S, t, prev)
    requires heap.Valid() && heap.live == rest + SlotBlocks(prev)
    modifies heap
    ensures !stray ==> heap.Valid() && heap.live == rest + SlotBlocks(r)
    ensures heap.refusals >= old(heap.refusals) && (ok || stray ==> heap.refusals == old(heap.refusals))
    ensures !ok && heap.refusals == old(heap.refusals) ==> Decoding.Unpack(S, t.sub, body).None?
    ensures stray ==> !ok
    ensures heap.refusals == old(heap.refusals) ==> (stray <==> UnpackStrays(S, t.sub, body))
    ensures ok ==>
      && r.HOne? && r.v.HMsg? && Tight(S, t.sub, r.v.m) && Decoding.Unpack(S, t.sub, body).Some?
      && ValueOf(r.v) == Merged(S, t, prev, Msg(Decoding.Unpack(S, t.sub, body).value))
    ensures !ok && prev.HUnset? ==> r == HUnset
    decreases |body|, 6
  {
    hide Decoding.Unpack, UnpackStrays, SchemaOk, NoOneofs, SlotBlocks, ValueBlocks, ValueOf, Tight, PrevOk, BlocksOf, MessageOf, MergeMessages, Ready;
    PrevValue(S, t, prev);
    UnsetOwnsNothing();
    UnpackStraysFails(S, t.sub, body);
    var subm;
    subm, stray := Unpack(S, heap, t.sub, body, rest + SlotBlocks(prev));
    if stray { return false, stray, HUnset; }
    if prev.HOne? {
      var merged := true;
      var earlier := prev.v.m;
      if subm.Some? {
        TypedUnpack(S, t.sub, body, subm.value);
        var later;
        merged, earlier, later := MergeInto(S, heap, t.sub, earlier, subm.value, rest);
        OneBlocks(HMsg(later));
        Swap(rest, BlocksOf(earlier), BlocksOf(later));
        FreeUnpacked(heap, earlier, rest + BlocksOf(later));
        return merged, stray, HOne(HMsg(later));
      }
      FreeUnpacked(heap, earlier, rest);
      return false, stray, HUnset;
    }
    if subm.None? { return false, stray, HUnset; }
    OneBlocks(HMsg(subm.value));
    return true, stray, HOne(HMsg(subm.value));
  }

  lemma Swap(rest: multiset<nat>, a: multiset<nat>, b: multiset<nat>)
    ensures rest + a + b == rest + b + a
  {
  }

  /** `parse_required_member` */
  method ParseRequired(S: Schema, heap: Heap, ghost fs: seq<Field>, t: FieldType, prev: HSlot, x: Scanned, ghost rest: multiset<nat>)
    returns (ok: bool, stray: bool, r: HSlot)
    requires SchemaOk(S) && NoOneofs(S) && (t.MESSAGE? ==> t.sub < |S|) && PrevOk(S, t, prev) && Faithful(fs, x)
    requires heap.Valid() && heap.live == rest + SlotBlocks(prev)
    modifies heap
    ensures MemberOk(x.mem)
    ensures !stray ==> heap.Valid() && heap.live == rest + SlotBlocks(r)
    ensures heap.refusals >= old(heap.refusals) && (ok || stray ==> heap.refusals == old(heap.refusals))
    ensures !ok && heap.refusals == old(heap.refusals) ==> ParseValue(S, t, x.mem).None?
    ensures stray ==> !ok
    ensures heap.refusals == old(heap.refusals) ==> (stray <==> ValueStrays(S, t, x.mem))
    ensures ok ==>
      && r.HOne? && TightValue(S, t, r.v) && ParseValue(S, t, x.mem).Some?
      && ValueOf(r.v) == Merged(S, t, prev, ParseValue(S, t, x.mem).value)
    ensures !ok && prev.HUnset? ==> r == HUnset
    decreases |x.mem.data|, 1
  {
    FaithfulOk(fs, x);
    hide *;
    stray := false;
    ValueStraysIs(S, t, x.mem);
    PrevValue(S, t, prev);
    LeafOf(S, t, x.mem);
    if t.MESSAGE? || t.STRING? || t.BYTES? {
      NotMerged(S, t, prev);
      if x.mem.wire != 2 {
        LeafWire(S, t, x.mem);
        return false, stray, prev;
      }
      PrefixedWire();
      BodyOf(fs, x);
      var body := x.mem.data[x.prefix..];
      if t.MESSAGE? {
        ok, stray, r := ParseMessage(S, heap, t, prev, body, rest);
      } else if t.STRING? {
        ok, r := ParseString(heap, prev, body, rest);
      } else {
        ok, r := ParseBytes(heap, prev, body, rest);
      }
      if ok {
        OneBlocks(r.v);
        ValueTight(S, t, r.v);
      }
      return;
    }
    NumberType(t);
    NotMerged(S, t, prev);
    var v := ParseNumber(t, x.mem);
    if v.None? { return false, stray, prev; }
    OneBlocks(v.value);
    ValueTight(S, t, v.value);
    return true, stray, HOne(v.value);
  }

  lemma ValueStraysIs(S: Schema, t: FieldType, mem: Member)
    requires MemberOk(mem)
    ensures ValueStrays(S, t, mem) <==> t.MESSAGE? && mem.wire == 2 && UnpackStrays(S, t.sub, Body(mem))
    ensures Packable(t) ==> !ValueStrays(S, t, mem)
  {
    hide UnpackStrays;
  }

  lemma FaithfulOk(fs: seq<Field>, x: Scanned)
    requires Faithful(fs, x)
    ensures MemberOk(x.mem)
  {
  }

  lemma PrefixedWire()
    ensures WIRE_PREFIXED == 2
  {
  }

  lemma LeafWire(S: Schema, t: FieldType, mem: Member)
    requires MemberOk(mem) && mem.wire != 2 && (t.MESSAGE? || t.STRING? || t.BYTES?)
    ensures ParseValue(S, t, mem).None?
  {
    hide MemberLen, Decoding.Unpack;
  }

  lemma NumberType(t: FieldType)
    requires !t.MESSAGE? && !t.STRING? && !t.BYTES?
    ensures Packable(t)
  {
  }

  lemma NotMerged(S: Schema, t: FieldType, prev: HSlot)
    ensures forall v :: !t.MESSAGE? ==> Merged(S, t, prev, v) == v
  {
  }

  // ---------------------------------------------------------------------------------------------
  // One member
  // ---------------------------------------------------------------------------------------------

  /** Field `i`'s slot when the first `k` members have been parsed. */
  ghost predicate FilledSlot(S: Schema, fs: seq<Field>, i: nat, xs: seq<Scanned>, k: nat, s: HSlot)
    requires i < |fs| && k <= |xs|
  {
    && SlotTyped(S, fs[i], SlotOf(s))
    && if fs[i].rule.REPEATED? then
         && s.HMany? && |s.vs| == CountOf(fs, i, xs, k) <= s.capacity
         && s.capacity == Room(fs, i, xs) && (s.block.Some? <==> CountOf(fs, i, xs, |xs|) > 0)
         && (forall n | 0 <= n < |s.vs| :: TightValue(S, fs[i].typ, s.vs[n]))
       else TightSlot(S, fs[i], s)
  }

  /** The message when the first `k` members have been parsed. */
  ghost predicate Filled(S: Schema, fs: seq<Field>, m: HMessage, xs: seq<Scanned>, k: nat)
    requires k <= |xs|
  {
    && |m.slots| == |fs|
    && |m.unknown| == UnknownCount(xs, k)
    && forall i | 0 <= i < |fs| :: FilledSlot(S, fs, i, xs, k, m.slots[i])
  }

  lemma FilledAt(S: Schema, fs: seq<Field>, m: HMessage, xs: seq<Scanned>, k: nat, i: nat)
    requires k <= |xs| && Filled(S, fs, m, xs, k) && i < |fs|
    ensures |m.slots| == |fs| && |m.unknown| == UnknownCount(xs, k) && FilledSlot(S, fs, i, xs, k, m.slots[i])
    ensures MessageOf(m).slots[i] == SlotOf(m.slots[i])
  {
    hide FilledSlot, SlotOf;
  }

  lemma FilledShape(S: Schema, fs: seq<Field>, m: HMessage, xs: seq<Scanned>, k: nat)
    requires k <= |xs| && Filled(S, fs, m, xs, k)
    ensures |m.slots| == |fs| == |MessageOf(m).slots| && |m.unknown| == UnknownCount(xs, k)
  {
    hide FilledSlot;
  }

  lemma OtherCount(fs: seq<Field>, i: nat, xs: seq<Scanned>, k: nat)
    requires i < |fs| && k < |xs| && xs[k].field != Some(i)
    ensures CountOf(fs, i, xs, k + 1) == CountOf(fs, i, xs, k)
  {
    hide Elements;
  }

  lemma OwnCount(fs: seq<Field>, i: nat, xs: seq<Scanned>, k: nat)
    requires i < |fs| && k < |xs| && xs[k].field == Some(i) && Elements(fs[i], xs[k].mem).Some?
    ensures CountOf(fs, i, xs, k + 1) == CountOf(fs, i, xs, k) + Elements(fs[i], xs[k].mem).value
  {
    hide Elements;
  }

  lemma UnknownNow(xs: seq<Scanned>, k: nat)
    requires k < |xs|
    ensures UnknownCount(xs, k + 1) == UnknownCount(xs, k) + if xs[k].field.None? then 1 else 0
  {
  }

  lemma OtherFilled(S: Schema, fs: seq<Field>, i: nat, xs: seq<Scanned>, k: nat, s: HSlot)
    requires i < |fs| && k < |xs| && xs[k].field != Some(i) && FilledSlot(S, fs, i, xs, k, s)
    ensures FilledSlot(S, fs, i, xs, k + 1, s)
  {
    OtherCount(fs, i, xs, k);
    hide TightSlot, TightValue, SlotTyped, CountOf;
  }

  lemma SetSlot(m: HMessage, i: nat, s: HSlot)
    requires i < |m.slots|
    ensures var m' := m.(slots := m.slots[i := s]);
      MessageOf(m') == MessageOf(m).(slots := MessageOf(m).slots[i := SlotOf(s)])
  {
    hide SlotOf;
    assert MessageOf(m.(slots := m.slots[i := s])).slots == MessageOf(m).slots[i := SlotOf(s)];
  }

  lemma FilledNext(S: Schema, fs: seq<Field>, m: HMessage, xs: seq<Scanned>, k: nat, i: nat, s: HSlot)
    requires k < |xs| && Filled(S, fs, m, xs, k) && i < |fs| == |m.slots| && xs[k].field == Some(i)
    requires FilledSlot(S, fs, i, xs, k + 1, s)
    ensures Filled(S, fs, m.(slots := m.slots[i := s]), xs, k + 1)
  {
    UnknownNow(xs, k);
    hide FilledSlot, UnknownCount;
    forall j | 0 <= j < |fs| && j != i ensures FilledSlot(S, fs, j, xs, k + 1, m.slots[j]) {
      OtherFilled(S, fs, j, xs, k, m.slots[j]);
    }
  }

  /** With no oneofs, a member with a field changes that field's slot only. */
  lemma ApplyKnown(S: Schema, d: nat, acc: Message, mem: Member, i: nat)
    requires NoOneofs(S) && d < |S| && |acc.slots| == |S[d].fields| && MemberOk(mem) && FieldIndex(S[d].fields, mem.tag) == Some(i)
    ensures Apply(S, S[d].fields, acc, mem) ==
      match StepField(S, S[d].fields[i], acc.slots[i], mem)
      case None => None
      case Some(s) => Some(acc.(slots := acc.slots[i := s]))
  {
    var fs := S[d].fields;
    hide StepField, MemberOk;
    match StepField(S, fs[i], acc.slots[i], mem)
    case None =>
    case Some(s) =>
      assert forall j | 0 <= j < |fs| :: !SameGroup(fs[j], fs[i]);
      assert Apply(S, fs, acc, mem).value.slots == acc.slots[i := s];
  }

  lemma ApplyNew(S: Schema, fs: seq<Field>, acc: Message, mem: Member)
    requires |acc.slots| == |fs| && MemberOk(mem) && FieldIndex(fs, mem.tag).None?
    ensures Apply(S, fs, acc, mem) == Some(acc.(unknown := acc.unknown + [mem]))
  {
    hide MemberOk;
  }

  lemma FaithfulParts(fs: seq<Field>, x: Scanned)
    requires Faithful(fs, x)
    ensures MemberOk(x.mem) && x.field == FieldIndex(fs, x.mem.tag) && (x.field.Some? ==> x.field.value < |fs|)
    ensures x.mem.wire == 2 ==> x.prefix <= |x.mem.data| && x.mem.data[x.prefix..] == Body(x.mem)
  {
    hide MemberOk, TermLen;
  }

  lemma AddUnknown(m: HMessage, u: HUnknown)
    ensures var m' := m.(unknown := m.unknown + [u]);
      && BlocksOf(m') == BlocksOf(m) + Opt(u.block)
      && MessageOf(m') == MessageOf(m).(unknown := MessageOf(m).unknown + [u.mem])
  {
    var m' := m.(unknown := m.unknown + [u]);
    UnknownAppend(m.unknown, u, 0);
    Whole(m);
    Whole(m');
    assert MessageOf(m').unknown == MessageOf(m).unknown + [u.mem] && MessageOf(m').slots == MessageOf(m).slots;
    hide *;
    assert multiset{m.block} + SlotsBlocks(m.slots, 0) + Opt(m.table) + (UnknownBlocks(m.unknown, 0) + Opt(u.block))
      == multiset{m.block} + SlotsBlocks(m.slots, 0) + Opt(m.table) + UnknownBlocks(m.unknown, 0) + Opt(u.block);
  }

  /** The unknown case of `parse_member`; `capacity` is the size of the table. */
  method KeepUnknown(heap: Heap, m: HMessage, mem: Member, capacity: nat, ghost rest: multiset<nat>)
    returns (ok: bool, m': HMessage)
    requires heap.Valid() && heap.live == rest + BlocksOf(m) && |m.unknown| < capacity
    modifies heap
    ensures heap.Valid() && heap.live == rest + BlocksOf(m')
    ensures heap.refusals >= old(heap.refusals) && (ok <==> heap.refusals == old(heap.refusals))
    ensures ok ==> m'.slots == m.slots && m'.table == m.table && |m'.unknown| == |m.unknown| + 1
    ensures ok ==> MessageOf(m') == MessageOf(m).(unknown := MessageOf(m).unknown + [mem])
  {
    hide *;
    var data := heap.Alloc();
    AddUnknown(m, HUnknown(mem, data));
    if data.Some? { OptSome(data.value); } else { OptNone(); }
    m' := m.(unknown := m.unknown + [HUnknown(mem, data)]);
    ok := data.Some?;
    assert rest + BlocksOf(m) + Opt(data) == rest + (BlocksOf(m) + Opt(data));
  }

  lemma OptNone()
    ensures Opt(None) == multiset{}
  {
  }

  /** A singular slot is a place to parse into. */
  lemma FilledPrev(S: Schema, fs: seq<Field>, i: nat, xs: seq<Scanned>, k: nat, s: HSlot)
    requires NoOneofs(S) && i < |fs| && k <= |xs| && FilledSlot(S, fs, i, xs, k, s) && !fs[i].rule.REPEATED? && fs[i].oneof.None?
    ensures PrevOk(S, fs[i].typ, s) && !s.HMany?
  {
    hide Tight, Typed, MessageOf, CountOf;
    if s.HOne? {
      assert SlotReady(S, fs[i], s);
      OneTyped(S, fs[i], s.v);
      if s.v.HMsg? { ReadySub(S, fs[i], s.v); }
    }
  }

  lemma SingularStep(S: Schema, f: Field, s: HSlot, mem: Member)
    requires NoOneofs(S) && MemberOk(mem) && !f.rule.REPEATED? && f.oneof.None? && !s.HMany?
    ensures StepField(S, f, SlotOf(s), mem) ==
      match ParseValue(S, f.typ, mem)
      case None => None
      case Some(v) => Some(One(Merged(S, f.typ, s, v)))
  {
    hide InBounds, NoOneofs, ParseValue, MemberLen, MessageOf, MergeMessages;
    if f.typ.MESSAGE? && s.HOne? && s.v.HMsg? && ParseValue(S, f.typ, mem).Some? {
      NoOneofsInBounds(S, f.typ.sub, MessageOf(s.v.m), ParseValue(S, f.typ, mem).value.m);
    }
  }

  lemma SingularFilled(S: Schema, fs: seq<Field>, i: nat, xs: seq<Scanned>, k: nat, s: HSlot, r: HSlot)
    requires SchemaOk(S) && i < |fs| && k < |xs| && FilledSlot(S, fs, i, xs, k, s) && !fs[i].rule.REPEATED?
    requires MemberOk(xs[k].mem) && r.HOne? && TightValue(S, fs[i].typ, r.v)
    requires StepField(S, fs[i], SlotOf(s), xs[k].mem) == Some(SlotOf(r))
    ensures FilledSlot(S, fs, i, xs, k + 1, r)
  {
    hide TightValue, CountOf, SchemaOk, StepField, MemberOk, SlotTyped;
    StepFieldTyped(S, fs[i], SlotOf(s), xs[k].mem);
  }

  lemma OneSlot(v: HValue)
    ensures SlotOf(HOne(v)) == One(ValueOf(v))
  {
    hide ValueOf;
  }

  lemma RepeatedStep(S: Schema, f: Field, s: HSlot, mem: Member)
    requires MemberOk(mem) && f.rule.REPEATED? && s.HMany? && !ReadsPacked(f, mem.wire)
    ensures StepField(S, f, SlotOf(s), mem) ==
      match ParseValue(S, f.typ, mem)
      case None => None
      case Some(v) => Some(Many(ValuesOf(s.vs) + [v]))
  {
    hide ParseValue, MemberLen, ValuesOf;
  }

  lemma PackedStep(S: Schema, f: Field, s: HSlot, mem: Member)
    requires MemberOk(mem) && s.HMany? && ReadsPacked(f, mem.wire)
    ensures StepField(S, f, SlotOf(s), mem) ==
      match ParsePacked(f.typ, Body(mem))
      case None => None
      case Some(ws) => Some(Many(ValuesOf(s.vs) + ws))
  {
    hide ParsePacked, MemberLen, ValuesOf, Body;
  }

  lemma RepeatedFilled(S: Schema, fs: seq<Field>, i: nat, xs: seq<Scanned>, k: nat, s: HSlot, vs: seq<HValue>)
    requires SchemaOk(S) && i < |fs| && k < |xs| && FilledSlot(S, fs, i, xs, k, s) && fs[i].rule.REPEATED?
    requires MemberOk(xs[k].mem) && xs[k].field == Some(i) && Elements(fs[i], xs[k].mem) == Some(|vs|)
    requires forall n | 0 <= n < |vs| :: TightValue(S, fs[i].typ, vs[n])
    requires s.HMany? && |s.vs + vs| <= s.capacity && StepField(S, fs[i], SlotOf(s), xs[k].mem) == Some(Many(ValuesOf(s.vs + vs)))
    ensures FilledSlot(S, fs, i, xs, k + 1, HMany(s.block, s.capacity, s.vs + vs))
  {
    hide *;
    var r := HMany(s.block, s.capacity, s.vs + vs);
    OwnCount(fs, i, xs, k);
    ManySlot(s.block, s.capacity, s.vs + vs);
    FilledManyParts(S, fs, i, xs, k, s);
    StepFieldTyped(S, fs[i], SlotOf(s), xs[k].mem);
    AllTight(S, fs[i].typ, s.vs, vs);
    FilledManyParts(S, fs, i, xs, k + 1, r);
  }

  lemma AllTight(S: Schema, t: FieldType, a: seq<HValue>, b: seq<HValue>)
    requires forall n | 0 <= n < |a| :: TightValue(S, t, a[n])
    requires forall n | 0 <= n < |b| :: TightValue(S, t, b[n])
    ensures forall n | 0 <= n < |a + b| :: TightValue(S, t, (a + b)[n])
  {
    hide TightValue;
    assert forall n | 0 <= n < |a + b| :: (a + b)[n] == if n < |a| then a[n] else b[n - |a|];
  }

  lemma FilledManyParts(S: Schema, fs: seq<Field>, i: nat, xs: seq<Scanned>, k: nat, s: HSlot)
    requires i < |fs| && k <= |xs| && fs[i].rule.REPEATED?
    ensures FilledSlot(S, fs, i, xs, k, s) <==>
      && SlotTyped(S, fs[i], SlotOf(s))
      && s.HMany? && |s.vs| == CountOf(fs, i, xs, k) <= s.capacity
      && s.capacity == Room(fs, i, xs) && (s.block.Some? <==> CountOf(fs, i, xs, |xs|) > 0)
      && (forall n | 0 <= n < |s.vs| :: TightValue(S, fs[i].typ, s.vs[n]))
  {
    hide TightValue, CountOf, SlotTyped, SlotOf;
  }

  lemma ManySlot(block: Option<nat>, capacity: nat, vs: seq<HValue>)
    ensures SlotOf(HMany(block, capacity, vs)) == Many(ValuesOf(vs))
    ensures SlotBlocks(HMany(block, capacity, vs)) == Opt(block) + ElementBlocks(vs, 0)
  {
    hide ValuesOf, ElementBlocks;
  }

  lemma FilledRoom(S: Schema, fs: seq<Field>, i: nat, xs: seq<Scanned>, k: nat, s: HSlot)
    requires i < |fs| && k <= |xs| && FilledSlot(S, fs, i, xs, k, s) && fs[i].rule.REPEATED?
    ensures s.HMany? && |s.vs| <= s.capacity == Room(fs, i, xs) && Held(SlotOf(s)) == |s.vs|
  {
    hide CountOf, TightValue, SlotTyped;
  }

  lemma SingleElement(f: Field, mem: Member)
    ensures !ReadsPacked(f, mem.wire) ==> Elements(f, mem) == Some(1)
    ensures ReadsPacked(f, mem.wire) ==> Packable(f.typ) && mem.wire == 2 && Elements(f, mem) == Reserved(f.typ, Body(mem))
  {
    hide Reserved, Body;
  }

  lemma TightNumbers(S: Schema, t: FieldType, vs: seq<HValue>)
    requires Numbers(vs)
    ensures forall n | 0 <= n < |vs| :: TightValue(S, t, vs[n])
  {
  }

  /** When something is stored behind the end of the array. */
  lemma OverrunsIs(f: Field, s: HSlot, mem: Member)
    requires f.rule.REPEATED? && s.HMany? && |s.vs| <= s.capacity
    ensures ReadsPacked(f, mem.wire) ==> (Overruns(f, |s.vs|, s.capacity, mem) <==> StoredCount(f.typ, Body(mem)) > s.capacity - |s.vs|)
    ensures !ReadsPacked(f, mem.wire) ==> (Overruns(f, |s.vs|, s.capacity, mem) <==> Stores(f.typ, mem.wire) && |s.vs| == s.capacity)
  {
    hide StoredCount, Body, Stores;
  }

  /**
   The slot of a repeated field after one more member.  A value is stored also if parsing it fails, unless its wire
   type is wrong, so whether there is room for it is looked at first.
   */
  method ParseRepeated(S: Schema, heap: Heap, ghost fs: seq<Field>, ghost i: nat, f: Field, s: HSlot, x: Scanned,
                       ghost xs: seq<Scanned>, ghost k: nat, ghost rest: multiset<nat>) returns (ok: bool, stray: bool, r: HSlot)
    requires SchemaOk(S) && NoOneofs(S) && i < |fs| && f == fs[i] && f.rule.REPEATED? && FieldOk(S, f)
    requires k < |xs| && x == xs[k] && Faithful(fs, x) && x.field == Some(i) && Elements(f, x.mem).Some?
    requires FilledSlot(S, fs, i, xs, k, s) && s.HMany?
    requires heap.Valid() && heap.live == rest + SlotBlocks(s)
    modifies heap
    ensures MemberOk(x.mem)
    ensures !stray ==> heap.Valid() && heap.live == rest + SlotBlocks(r)
    ensures heap.refusals >= old(heap.refusals) && (ok || stray ==> heap.refusals == old(heap.refusals))
    ensures !ok && !stray && heap.refusals == old(heap.refusals) ==> StepField(S, f, SlotOf(s), x.mem).None?
    ensures stray ==> !ok
    ensures heap.refusals == old(heap.refusals) ==> 
      (stray <==> Overruns(f, |s.vs|, s.capacity, x.mem) || ValueStrays(S, f.typ, x.mem))
    ensures ok ==> StepField(S, f, SlotOf(s), x.mem) == Some(SlotOf(r)) && FilledSlot(S, fs, i, xs, k + 1, r)
    decreases |x.mem.data|, 2, 0
  {
    FaithfulOk(fs, x);
    hide *;
    FaithfulParts(fs, x);
    FilledRoom(S, fs, i, xs, k, s);
    SingleElement(f, x.mem);
    OverrunsIs(f, s, x.mem);
    ManySlot(s.block, s.capacity, s.vs);
    stray := false;
    ValueStraysIs(S, f.typ, x.mem);
    if ReadsPacked(f, x.mem.wire) {
      PackedStep(S, f, s, x.mem);
      var vs;
      ok, stray, vs := ParsePackedRepeated(f.typ, x.mem.data[x.prefix..], s.capacity - |s.vs|);
      if !ok { return false, stray, s; }
      r := HMany(s.block, s.capacity, s.vs + vs);
      NumbersOwnNothing(vs, 0);
      ElementsConcat(s.vs, vs, 0);
      ValuesConcat(s.vs, vs);
      TightNumbers(S, f.typ, vs);
      ManySlot(s.block, s.capacity, s.vs + vs);
      RepeatedFilled(S, fs, i, xs, k, s, vs);
      NothingMore(rest, Opt(s.block), ElementBlocks(s.vs, 0));
    } else {
      RepeatedStep(S, f, s, x.mem);
      SubOk(S, f);
      UnsetOwnsNothing();
      UnsetPrev(S, f.typ);
      if Stores(f.typ, x.mem.wire) && |s.vs| == s.capacity { return false, true, s; }
      var one;
      ok, stray, one := ParseRequired(S, heap, fs, f.typ, HUnset, x, rest + SlotBlocks(s));
      if !ok { return false, stray, s; }
      ParsedStores(S, f.typ, x.mem);
      r := HMany(s.block, s.capacity, s.vs + [one.v]);
      OneBlocks(one.v);
      ElementsAppend(s.vs, one.v, 0);
      ValuesSnoc(s.vs, one.v);
      UnsetMerges(S, f.typ, ParseValue(S, f.typ, x.mem).value);
      ManySlot(s.block, s.capacity, s.vs + [one.v]);
      RepeatedFilled(S, fs, i, xs, k, s, [one.v]);
      OneMore(rest, Opt(s.block), ElementBlocks(s.vs, 0), ValueBlocks(one.v));
    }
  }

  lemma NothingMore(rest: multiset<nat>, a: multiset<nat>, b: multiset<nat>)
    ensures rest + (a + b) == rest + (a + (b + multiset{}))
  {
  }

  lemma OneMore(rest: multiset<nat>, a: multiset<nat>, b: multiset<nat>, c: multiset<nat>)
    ensures rest + (a + b) + c == rest + (a + (b + c))
  {
  }

  lemma SubOk(S: Schema, f: Field)
    requires FieldOk(S, f)
    ensures f.typ.MESSAGE? ==> f.typ.sub < |S|
  {
  }

  lemma UnsetPrev(S: Schema, t: FieldType)
    ensures PrevOk(S, t, HUnset)
  {
  }

  lemma UnsetMerges(S: Schema, t: FieldType, v: Value)
    ensures Merged(S, t, HUnset, v) == v
  {
  }

  lemma CountableAt(fs: seq<Field>, x: Scanned)
    requires Countable(fs, x) && x.field.Some?
    ensures x.field.value < |fs| && (fs[x.field.value].rule.REPEATED? ==> Elements(fs[x.field.value], x.mem).Some?)
  {
    hide Elements;
  }

  lemma MemberStraysIs(S: Schema, fs: seq<Field>, xs: seq<Scanned>, acc: Message, mem: Member)
    requires |acc.slots| == |fs|
    ensures MemberStrays(S, fs, Rooms(fs, xs), acc, mem) <==>
      && FieldIndex(fs, mem.tag).Some?
      && var i := FieldIndex(fs, mem.tag).value;
        Overruns(fs[i], Held(acc.slots[i]), Room(fs, i, xs), mem) || ValueStrays(S, fs[i].typ, mem)
  {
    hide ValueStrays, Overruns, Held, Room;
  }

  /** `parse_member`, for a member with a field: the label decides. */
  method ParseKnown(S: Schema, heap: Heap, d: nat, m: HMessage, x: Scanned, ghost xs: seq<Scanned>, ghost k: nat, ghost rest: multiset<nat>)
    returns (ok: bool, stray: bool, m': HMessage)
    requires SchemaOk(S) && NoOneofs(S) && d < |S| && k < |xs| && x == xs[k] && x.field.Some?
    requires Filled(S, S[d].fields, m, xs, k) && Faithful(S[d].fields, x) && Countable(S[d].fields, x)
    requires heap.Valid() && heap.live == rest + BlocksOf(m)
    modifies heap
    ensures MemberOk(x.mem) && |MessageOf(m).slots| == |S[d].fields|
    ensures !stray ==> heap.Valid() && heap.live == rest + BlocksOf(m')
    ensures heap.refusals >= old(heap.refusals) && (ok || stray ==> heap.refusals == old(heap.refusals))
    ensures !ok && !stray && heap.refusals == old(heap.refusals) ==> Apply(S, S[d].fields, MessageOf(m), x.mem).None?
    ensures stray ==> !ok
    ensures heap.refusals == old(heap.refusals) ==> 
      (stray <==> MemberStrays(S, S[d].fields, Rooms(S[d].fields, xs), MessageOf(m), x.mem))
    ensures ok ==> Apply(S, S[d].fields, MessageOf(m), x.mem) == Some(MessageOf(m')) && Filled(S, S[d].fields, m', xs, k + 1)
    decreases |x.mem.data|, 3
  {
    FaithfulOk(S[d].fields, x);
    FilledShape(S, S[d].fields, m, xs, k);
    hide *;
    ghost var fs := S[d].fields;
    FaithfulParts(fs, x);
    var i := x.field.value;
    FilledAt(S, fs, m, xs, k, i);
    CountableAt(fs, x);
    ApplyKnown(S, d, MessageOf(m), x.mem, i);
    MemberStraysIs(S, fs, xs, MessageOf(m), x.mem);
    ghost var others := Except(m, i);
    Regrouped(rest, m, i, m.slots[i]);
    var r;
    ok, stray, r := ParseSlot(S, heap, d, i, m.slots[i], x, xs, k, rest + others);
    m' := m.(slots := m.slots[i := r]);
    Regrouped(rest, m, i, r);
    SetSlot(m, i, r);
    if ok { FilledNext(S, fs, m, xs, k, i, r); }
  }

  lemma Regrouped(rest: multiset<nat>, m: HMessage, i: nat, s: HSlot)
    requires i < |m.slots|
    ensures rest + BlocksOf(m.(slots := m.slots[i := s])) == rest + Except(m, i) + SlotBlocks(s)
    ensures rest + BlocksOf(m) == rest + Except(m, i) + SlotBlocks(m.slots[i])
  {
    ExceptSlot(m, i, s);
    hide *;
    assert rest + (Except(m, i) + SlotBlocks(s)) == rest + Except(m, i) + SlotBlocks(s);
    assert rest + (Except(m, i) + SlotBlocks(m.slots[i])) == rest + Except(m, i) + SlotBlocks(m.slots[i]);
  }

  method ParseSlot(S: Schema, heap: Heap, d: nat, i: nat, s: HSlot, x: Scanned, ghost xs: seq<Scanned>, ghost k: nat, ghost rest: multiset<nat>)
    returns (ok: bool, stray: bool, r: HSlot)
    requires SchemaOk(S) && NoOneofs(S) && d < |S| && k < |xs| && x == xs[k] && x.field == Some(i) && i < |S[d].fields|
    requires FilledSlot(S, S[d].fields, i, xs, k, s) && Faithful(S[d].fields, x)
    requires S[d].fields[i].rule.REPEATED? ==> Elements(S[d].fields[i], x.mem).Some?
    requires heap.Valid() && heap.live == rest + SlotBlocks(s)
    modifies heap
    ensures MemberOk(x.mem)
    ensures !stray ==> heap.Valid() && heap.live == rest + SlotBlocks(r)
    ensures heap.refusals >= old(heap.refusals) && (ok || stray ==> heap.refusals == old(heap.refusals))
    ensures !ok && !stray && heap.refusals == old(heap.refusals) ==> StepField(S, S[d].fields[i], SlotOf(s), x.mem).None?
    ensures stray ==> !ok
    ensures heap.refusals == old(heap.refusals) ==> 
      (stray <==>
        || Overruns(S[d].fields[i], Held(SlotOf(s)), Room(S[d].fields, i, xs), x.mem)
        || ValueStrays(S, S[d].fields[i].typ, x.mem))
    ensures ok ==> StepField(S, S[d].fields[i], SlotOf(s), x.mem) == Some(SlotOf(r)) && FilledSlot(S, S[d].fields, i, xs, k + 1, r)
    decreases |x.mem.data|, 2, 1
  {
    FaithfulOk(S[d].fields, x);
    hide *;
    ghost var fs := S[d].fields;
    var f := S[d].fields[i];
    DescAt(S, d, i);
    NoOneofAt(S, d, i);
    if f.rule.REPEATED? {
      FilledRoom(S, fs, i, xs, k, s);
      ok, stray, r := ParseRepeated(S, heap, fs, i, f, s, x, xs, k, rest);
    } else {
      NotRepeated(f, Held(SlotOf(s)), Room(fs, i, xs), x.mem);
      FilledPrev(S, fs, i, xs, k, s);
      SubOk(S, f);
      SingularStep(S, f, s, x.mem);
      ok, stray, r := ParseRequired(S, heap, fs, f.typ, s, x, rest);
      if ok {
        OneSlot(r.v);
        SingularFilled(S, fs, i, xs, k, s, r);
      }
    }
  }

  /** `parse_member` */
  method ParseMember(S: Schema, heap: Heap, d: nat, m: HMessage, x: Scanned, nUnknown: nat,
                     ghost xs: seq<Scanned>, ghost k: nat, ghost rest: multiset<nat>) returns (ok: bool, stray: bool, m': HMessage)
    requires SchemaOk(S) && NoOneofs(S) && d < |S| && k < |xs| && x == xs[k]
    requires Filled(S, S[d].fields, m, xs, k) && Faithful(S[d].fields, x) && Countable(S[d].fields, x)
    requires nUnknown == UnknownCount(xs, |xs|)
    requires heap.Valid() && heap.live == rest + BlocksOf(m)
    modifies heap
    ensures MemberOk(x.mem) && |MessageOf(m).slots| == |S[d].fields|
    ensures !stray ==> heap.Valid() && heap.live == rest + BlocksOf(m')
    ensures heap.refusals >= old(heap.refusals) && (ok || stray ==> heap.refusals == old(heap.refusals))
    ensures !ok && !stray && heap.refusals == old(heap.refusals) ==> Apply(S, S[d].fields, MessageOf(m), x.mem).None?
    ensures stray ==> !ok
    ensures heap.refusals == old(heap.refusals) ==> 
      (stray <==> MemberStrays(S, S[d].fields, Rooms(S[d].fields, xs), MessageOf(m), x.mem))
    ensures ok ==> Apply(S, S[d].fields, MessageOf(m), x.mem) == Some(MessageOf(m')) && Filled(S, S[d].fields, m', xs, k + 1)
    decreases |x.mem.data|, 4
  {
    FaithfulOk(S[d].fields, x);
    FilledShape(S, S[d].fields, m, xs, k);
    hide *;
    ghost var fs := S[d].fields;
    FaithfulParts(fs, x);
    MemberStraysIs(S, fs, xs, MessageOf(m), x.mem);
    if x.field.None? {
      UnknownNow(xs, k);
      UnknownGrows(xs, k + 1, |xs|);
      ApplyNew(S, fs, MessageOf(m), x.mem);
      stray := false;
      ok, m' := KeepUnknown(heap, m, x.mem, nUnknown, rest);
      if ok { FilledUnknown(S, fs, m, m', xs, k); }
      return;
    }
    ok, stray, m' := ParseKnown(S, heap, d, m, x, xs, k, rest);
  }

  lemma FilledUnknown(S: Schema, fs: seq<Field>, m: HMessage, m': HMessage, xs: seq<Scanned>, k: nat)
    requires k < |xs| && Filled(S, fs, m, xs, k) && xs[k].field.None? && m'.slots == m.slots && |m'.unknown| == |m.unknown| + 1
    ensures Filled(S, fs, m', xs, k + 1)
  {
    UnknownNow(xs, k);
    hide FilledSlot, UnknownCount;
    forall j | 0 <= j < |fs| ensures FilledSlot(S, fs, j, xs, k + 1, m'.slots[j]) {
      OtherFilled(S, fs, j, xs, k, m.slots[j]);
    }
  }

  // ---------------------------------------------------------------------------------------------
  // The scanning pass
  // ---------------------------------------------------------------------------------------------

  ghost predicate AllScanned(fs: seq<Field>, xs: seq<Scanned>) {
    forall k | 0 <= k < |xs| :: Faithful(fs, xs[k]) && Countable(fs, xs[k])
  }

  /** `xs` is what has been scanned of `data` before `at`. */
  ghost predicate ScannedTo(data: seq<byte>, at: nat, xs: seq<Scanned>) {
    && at <= |data|
    && Scan(data) == match Scan(data[at..])
         case None => None
         case Some(ms) => Some(Mems(xs) + ms)
  }

  ghost predicate CountsOk(fs: seq<Field>, xs: seq<Scanned>, counts: seq<nat>, nUnknown: nat) {
    && |counts| == |fs|
    && nUnknown == UnknownCount(xs, |xs|)
    && forall i | 0 <= i < |fs| && fs[i].rule.REPEATED? :: counts[i] == CountOf(fs, i, xs, |xs|)
  }

  /** The required-field bitmap marks exactly the required fields seen. */
  ghost predicate MarksOk(fs: seq<Field>, xs: seq<Scanned>, bits: seq<byte>) {
    forall i | 0 <= i < |fs| && fs[i].rule.REQUIRED? ::
      Marked(bits, i) <==> exists k | 0 <= k < |xs| :: xs[k].field == Some(i)
  }

  lemma ScanStart(data: seq<byte>)
    ensures ScannedTo(data, 0, [])
  {
    hide Scan;
    assert data[0..] == data;
    if Scan(data).Some? { Empty(Scan(data).value); }
  }

  lemma ScanUnfoldOnce(data: seq<byte>)
    requires data != []
    ensures ScanMember(data).None? ==> Scan(data).None?
    ensures ScanMember(data).Some? ==>
      Scan(data) == match Scan(data[ScanMember(data).value.1..])
        case None => None
        case Some(ms) => Some([ScanMember(data).value.0] + ms)
  {
    hide ScanMember;
  }

  lemma MemsSnoc(xs: seq<Scanned>, x: Scanned)
    ensures Mems(xs + [x]) == Mems(xs) + [x.mem]
  {
  }

  lemma ScannedNext(data: seq<byte>, at: nat, xs: seq<Scanned>, x: Scanned, used: nat)
    requires ScannedTo(data, at, xs) && at < |data| && ScanMember(data[at..]) == Some((x.mem, used)) && at + used <= |data|
    ensures ScannedTo(data, at + used, xs + [x])
  {
    hide Scan, ScanMember, Mems;
    ScanUnfoldOnce(data[at..]);
    SliceSlice(data, at, used);
    MemsSnoc(xs, x);
    if Scan(data[at + used..]).Some? { Assoc(Mems(xs), [x.mem], Scan(data[at + used..]).value); }
  }

  lemma ScanFails(data: seq<byte>, at: nat, xs: seq<Scanned>)
    requires ScannedTo(data, at, xs) && at < |data| && ScanMember(data[at..]).None?
    ensures Scan(data).None?
  {
    hide Scan, ScanMember;
    ScanUnfoldOnce(data[at..]);
  }

  lemma ScanEnds(data: seq<byte>, xs: seq<Scanned>)
    requires ScannedTo(data, |data|, xs)
    ensures Scan(data) == Some(Mems(xs))
  {
    assert data[|data|..] == [] && Scan([]) == Some([]);
    Empty(Mems(xs));
    hide Scan;
  }

  lemma {:induction false} CountPrefix(fs: seq<Field>, i: nat, xs: seq<Scanned>, x: Scanned, n: nat)
    requires i < |fs| && n <= |xs|
    ensures CountOf(fs, i, xs + [x], n) == CountOf(fs, i, xs, n) && UnknownCount(xs + [x], n) == UnknownCount(xs, n)
    decreases n
  {
    hide Elements;
    if n > 0 {
      CountPrefix(fs, i, xs, x, n - 1);
      assert (xs + [x])[n - 1] == xs[n - 1];
    }
  }

  lemma {:induction false} UnknownPrefix(xs: seq<Scanned>, x: Scanned, n: nat)
    requires n <= |xs|
    ensures UnknownCount(xs + [x], n) == UnknownCount(xs, n)
    decreases n
  {
    if n > 0 {
      UnknownPrefix(xs, x, n - 1);
      assert (xs + [x])[n - 1] == xs[n - 1];
    }
  }

  lemma CountsNext(fs: seq<Field>, xs: seq<Scanned>, x: Scanned, counts: seq<nat>, nUnknown: nat, counts': seq<nat>, nUnknown': nat)
    requires CountsOk(fs, xs, counts, nUnknown) && Countable(fs, x) && (x.field.Some? ==> x.field.value < |fs|)
    requires nUnknown' == nUnknown + if x.field.None? then 1 else 0
    requires counts' == match x.field
                        case None => counts
                        case Some(i) => if fs[i].rule.REPEATED? then counts[i := counts[i] + Elements(fs[i], x.mem).value] else counts
    ensures CountsOk(fs, xs + [x], counts', nUnknown')
  {
    hide Elements;
    UnknownPrefix(xs, x, |xs|);
    forall i | 0 <= i < |fs| && fs[i].rule.REPEATED? ensures counts'[i] == CountOf(fs, i, xs + [x], |xs| + 1) {
      CountPrefix(fs, i, xs, x, |xs|);
    }
  }

  lemma MarksNext(fs: seq<Field>, xs: seq<Scanned>, x: Scanned, bits: seq<byte>, bits': seq<byte>)
    requires MarksOk(fs, xs, bits)
    requires forall j: nat :: Marked(bits', j) <==>
      Marked(bits, j) || (x.field == Some(j) && j < |fs| && fs[j].rule.REQUIRED?)
    ensures MarksOk(fs, xs + [x], bits')
  {
    hide Marked;
    var ys := xs + [x];
    assert ys[|xs|] == x && forall k | 0 <= k < |xs| :: ys[k] == xs[k];
    forall i | 0 <= i < |fs| && fs[i].rule.REQUIRED?
      ensures Marked(bits', i) <==> exists k | 0 <= k < |ys| :: ys[k].field == Some(i)
    {
      if k :| 0 <= k < |xs| && xs[k].field == Some(i) { assert ys[k].field == Some(i); }
      if k :| 0 <= k < |ys| && ys[k].field == Some(i) { assert k == |xs| || xs[k].field == Some(i); }
    }
  }

  lemma ScannedSnoc(fs: seq<Field>, xs: seq<Scanned>, x: Scanned)
    requires AllScanned(fs, xs) && Faithful(fs, x) && Countable(fs, x)
    ensures AllScanned(fs, xs + [x])
  {
    hide Faithful, Countable;
  }

  /** The switch over the wire type: the length of what follows the tag, 0 if it is incomplete. */
  method ScanData(wire: WireType, s: seq<byte>) returns (len: nat, prefix: nat)
    ensures len == if wire == WIRE_PREFIXED then ScannedLen(s) else MemberLen(wire, s)
    ensures len > 0 && wire == WIRE_PREFIXED ==> prefix == TermLen(s, 5) > 0
  {
    hide TermLen, ScannedLen;
    prefix := 0;
    if wire == WIRE_VARINT { len := ScanVarint(s, 10); }
    else if wire == WIRE_64BIT { len := if |s| < 8 then 0 else 8; }
    else if wire == WIRE_PREFIXED { len, prefix := ScanLengthPrefixed(s); }
    else if wire == WIRE_32BIT { len := if |s| < 4 then 0 else 4; }
    else { len := 0; }
  }

  /** What the length that was scanned says about the member. */
  lemma ScannedMember(rem: seq<byte>, hdr: nat, tag: u32, wire: WireType, len: nat)
    requires ParseTag(rem) == Some(Header(tag, wire, hdr)) && hdr <= |rem|
    requires len == if wire == WIRE_PREFIXED then ScannedLen(rem[hdr..]) else MemberLen(wire, rem[hdr..])
    ensures len <= |rem| - hdr
    ensures WrapsAt(rem) <==> wire == WIRE_PREFIXED && len > 0 && Wraps(rem[hdr..])
    ensures WrapsAt(rem) ==> ScanMember(rem).None?
    ensures !WrapsAt(rem) && len == 0 ==> ScanMember(rem).None?
    ensures !WrapsAt(rem) && len > 0 ==>
      len == MemberLen(wire, rem[hdr..]) && ScanMember(rem) == Some((Member(tag, wire, rem[hdr..][..len]), hdr + len))
  {
    hide *;
    ScanMemberParts2(rem, hdr, tag, wire);
    WrapsAtIs(rem, hdr, tag, wire);
    ScannedLenIs(rem[hdr..]);
    if WrapsAt(rem) { WrapsAtNone(rem); }
  }

  lemma WrapsAtIs(rem: seq<byte>, hdr: nat, tag: u32, wire: WireType)
    requires ParseTag(rem) == Some(Header(tag, wire, hdr)) && hdr <= |rem|
    ensures WrapsAt(rem) <==> wire == WIRE_PREFIXED && ScannedLen(rem[hdr..]) > 0 && Wraps(rem[hdr..])
  {
    hide ParseTag, ScannedLen, Wraps;
  }

  /** Behind a prefix that wraps the next round finds nothing. */
  lemma WrappedNext(rem: seq<byte>, hdr: nat, tag: u32, len: nat)
    requires ParseTag(rem) == Some(Header(tag, WIRE_PREFIXED, hdr)) && hdr <= |rem| && Wraps(rem[hdr..])
    requires len == ScannedLen(rem[hdr..]) > 0
    ensures hdr + len < |rem| && ScanMember(rem[hdr + len..]).None? && !WrapsAt(rem[hdr + len..])
  {
    WrapsFails(rem[hdr..]);
    hide ParseTag, ScanMember, ScannedLen, Wraps, WrapsAt;
    assert rem[hdr..][len..] == rem[hdr + len..];
    WrapsShape(rem[hdr..]);
    NotWrapped(rem[hdr..]);
  }

  lemma NotWrapped(data: seq<byte>)
    requires Wraps(data) && ScannedLen(data) > 0
    ensures !WrapsAt(data[ScannedLen(data)..])
  {
    WrapsFails(data);
    hide ScanMember, ScannedLen, Wraps, ParseTag;
  }

  lemma ScanMemberParts2(data: seq<byte>, used: nat, tag: u32, wire: WireType)
    requires ParseTag(data) == Some(Header(tag, wire, used)) && used <= |data|
    ensures var len := MemberLen(wire, data[used..]);
      if len == 0 then ScanMember(data).None? else ScanMember(data) == Some((Member(tag, wire, data[used..][..len]), used + len))
  {
    hide ParseTag, MemberLen;
  }

  lemma NoTag(data: seq<byte>)
    requires ParseTag(data).None?
    ensures ScanMember(data).None?
  {
  }

  lemma FaithfulScanned(fs: seq<Field>, tag: u32, wire: WireType, s: seq<byte>, prefix: nat, field: Option<nat>)
    requires MemberLen(wire, s) > 0 && field == FieldIndex(fs, tag)
    requires wire == WIRE_PREFIXED ==> prefix == TermLen(s, 5) > 0
    ensures Faithful(fs, Scanned(Member(tag, wire, s[..MemberLen(wire, s)]), prefix, field))
  {
    var len := MemberLen(wire, s);
    MemberLenPrefix(wire, s, len);
    if wire == WIRE_PREFIXED {
      assert s[..len][..prefix] == s[..prefix];
      TerminatedUnique(s[..len], prefix, 5);
    }
  }

  lemma HeaderInside(data: seq<byte>)
    ensures ParseTag(data).Some? ==> 0 < ParseTag(data).value.used <= |data|
  {
  }

  /** Which field a tag belongs to: the one found last, if the tag is the same, and otherwise by searching. */
  method LookUp(S: Schema, d: nat, tag: u32, last: Option<nat>) returns (field: Option<nat>, last': Option<nat>)
    requires SchemaOk(S) && d < |S| && (last.Some? ==> last.value < |S[d].fields|)
    ensures field == FieldIndex(S[d].fields, tag)
    ensures last' == if field.Some? then field else last
  {
    ghost var fs := S[d].fields;
    TagAsInt(S, d, tag);
    assert DescOk(S, S[d]);
    if last.None? || S[d].fields[last.value].id != tag {
      var index := IntRangeLookup(fs, S[d].ranges, AsInt32(tag));
      if index < 0 { return None, last; }
      return Some(index), Some(index);
    }
    FieldIndexOf(fs, last.value);
    return last, last;
  }

  /** A packed body whose size does not fit cannot be parsed, whatever the rest of the message is. */
  lemma {:induction false} BadMember(S: Schema, fs: seq<Field>, acc: Message, ms: seq<Member>, k: nat, i: nat)
    requires |acc.slots| == |fs| && AllOk(ms) && k < |ms| && FieldIndex(fs, ms[k].tag) == Some(i)
    requires ReadsPacked(fs[i], ms[k].wire) && Reserved(fs[i].typ, Body(ms[k])).None?
    ensures ApplyAll(S, fs, acc, ms).None?
    decreases k
  {
    if ParsePacked(fs[i].typ, Body(ms[k])).Some? { ReservedExactly(fs[i].typ, Body(ms[k])); }
    if k == 0 {
      BadStep(S, fs[i], acc.slots[i], ms[0]);
      hide MemberOk, StepField, ParsePacked;
    } else {
      hide MemberOk, Reserved, Body, ParsePacked, Apply;
      match Apply(S, fs, acc, ms[0])
      case None =>
      case Some(next) =>
        assert ms[1..][k - 1] == ms[k];
        BadMember(S, fs, next, ms[1..], k - 1, i);
    }
  }

  lemma BadStep(S: Schema, f: Field, s: Slot, mem: Member)
    requires MemberOk(mem) && ReadsPacked(f, mem.wire) && ParsePacked(f.typ, Body(mem)).None?
    ensures StepField(S, f, s, mem).None?
  {
    hide ParsePacked, Body, MemberLen;
  }

  lemma UnpackIs(S: Schema, d: nat, data: seq<byte>)
    requires d < |S|
    ensures Scan(data).None? ==> Decoding.Unpack(S, d, data).None?
    ensures Scan(data).Some? ==> AllOk(Scan(data).value)
    ensures Scan(data).Some? ==>
      Decoding.Unpack(S, d, data) ==
      if |Scan(data).value| > SLAB_CAPACITY || !RequiredPresent(S[d].fields, Scan(data).value) then None
      else match ApplyAll(S, S[d].fields, InitMessage(S[d].fields), Scan(data).value)
        case None => None
        case Some(m) => if ArraysFit(m.slots) then Some(m) else None
  {
    hide Scan, ApplyAll, RequiredPresent, ArraysFit;
  }

  lemma CannotCount(S: Schema, d: nat, data: seq<byte>, at: nat, xs: seq<Scanned>, x: Scanned)
    requires d < |S| && ScannedTo(data, at, xs + [x]) && Faithful(S[d].fields, x) && !Countable(S[d].fields, x)
    ensures Decoding.Unpack(S, d, data).None?
  {
    var fs, ys := S[d].fields, xs + [x];
    UnpackIs(S, d, data);
    MemsSnoc(xs, x);
    if Scan(data).Some? {
      var ms := Scan(data).value;
      assert ms[|xs|] == x.mem;
      BadMember(S, fs, InitMessage(fs), ms, |xs|, x.field.value);
    }
  }

  lemma TooMany(S: Schema, d: nat, data: seq<byte>, at: nat, xs: seq<Scanned>)
    requires d < |S| && ScannedTo(data, at, xs) && |xs| > SLAB_CAPACITY
    ensures Decoding.Unpack(S, d, data).None?
  {
    UnpackIs(S, d, data);
    hide Decoding.Unpack, Scan, ApplyAll, RequiredPresent;
  }

  lemma EmptyScan(fs: seq<Field>, bits: seq<byte>)
    requires forall j: nat :: !Marked(bits, j)
    ensures AllScanned(fs, []) && CountsOk(fs, [], seq(|fs|, _ => 0), 0) && MarksOk(fs, [], bits)
  {
    hide Marked;
  }

  lemma ScanNone(S: Schema, d: nat, data: seq<byte>)
    requires d < |S| && Scan(data).None?
    ensures Decoding.Unpack(S, d, data).None?
  {
  }

  /** Counting the elements of a member reads beyond the `available` bytes that there are behind its tag. */
  predicate CountedOutside(fs: seq<Field>, x: Scanned, available: nat) {
    && x.field.Some? && x.field.value < |fs|
    && ReadsPacked(fs[x.field.value], x.mem.wire) && x.prefix <= available
    && CountsOutside(fs[x.field.value].typ, Wrap64(|x.mem.data| - x.prefix), available - x.prefix)
  }

  lemma FaithfulBody(fs: seq<Field>, x: Scanned, at: seq<byte>)
    requires Faithful(fs, x) && x.mem.wire == WIRE_PREFIXED && |x.mem.data| <= |at| && x.mem.data == at[..|x.mem.data|] && x.prefix <= |at|
    ensures var len := Wrap64(|x.mem.data| - x.prefix); len <= |at| - x.prefix && at[x.prefix..][..len] == Body(x.mem)
  {
    assert MemberLen(WIRE_PREFIXED, x.mem.data) < TWO32 < TWO64;
    hide TermLen, VarintValue;
    BodyOf(fs, x);
    hide MemberLen;
    assert at[x.prefix..][..|x.mem.data| - x.prefix] == x.mem.data[x.prefix..];
  }

  lemma FaithfulCounted(fs: seq<Field>, x: Scanned, at: seq<byte>)
    requires Faithful(fs, x) && |x.mem.data| <= |at| && x.mem.data == at[..|x.mem.data|] && (x.mem.wire == WIRE_PREFIXED ==> x.prefix <= |at|)
    ensures !CountedOutside(fs, x, |at|)
    ensures x.mem.wire == WIRE_PREFIXED ==>
      var len := Wrap64(|x.mem.data| - x.prefix); len <= |at| - x.prefix && at[x.prefix..][..len] == Body(x.mem)
  {
    if x.mem.wire == WIRE_PREFIXED { FaithfulBody(fs, x, at); }
    hide Faithful, Body;
  }

  /** The member's part in its field's count.  `at` is everything behind the member's tag, also what is not the member's. */
  method CountMember(fs: seq<Field>, x: Scanned, at: seq<byte>, counts: seq<nat>) returns (ok: bool, outside: bool, counts': seq<nat>)
    requires |counts| == |fs| && x.field == FieldIndex(fs, x.mem.tag)
    requires |x.mem.data| <= |at| && x.mem.data == at[..|x.mem.data|] && (x.mem.wire == WIRE_PREFIXED ==> x.prefix <= |at|)
    requires forall i | 0 <= i < |fs| :: fs[i].packed ==> Packable(fs[i].typ)
    ensures outside <==> CountedOutside(fs, x, |at|)
    ensures outside ==> !ok
    ensures Faithful(fs, x) ==> !outside && (ok <==> Countable(fs, x))
    ensures Faithful(fs, x) && ok ==>
      counts' == match x.field
                 case None => counts
                 case Some(i) => if fs[i].rule.REPEATED? then counts[i := counts[i] + Elements(fs[i], x.mem).value] else counts
  {
    hide MemberOk, Body, Reserved, Faithful, Wrap64, CountsOutside;
    if Faithful(fs, x) { FaithfulCounted(fs, x, at); }
    outside := false;
    match x.field
    case None => ok, counts' := true, counts;
    case Some(i) =>
      var f := fs[i];
      if !f.rule.REPEATED? { return true, outside, counts; }
      if x.mem.wire == WIRE_PREFIXED && (f.packed || Packable(f.typ)) {
        var count;
        count, outside := CountPackedElements(f.typ, Wrap64(|x.mem.data| - x.prefix), at[x.prefix..]);
        if outside || count.None? { return false, outside, counts; }
        return true, outside, counts[i := counts[i] + count.value];
      }
      return true, outside, counts[i := counts[i] + 1];
  }

  lemma FieldIds(S: Schema, d: nat)
    requires SchemaOk(S) && d < |S|
    ensures forall i | 0 <= i < |S[d].fields| :: S[d].fields[i].packed ==> Packable(S[d].fields[i].typ)
  {
    assert DescOk(S, S[d]);
    forall i | 0 <= i < |S[d].fields| ensures S[d].fields[i].packed ==> Packable(S[d].fields[i].typ) {
      assert FieldOk(S, S[d].fields[i]);
    }
  }

  lemma BitmapFits(i: nat, n: nat, len: nat)
    requires i < n && (n + 7) / 8 <= len
    ensures i / 8 < len
  {
  }

  /** What scanning leaves behind when it succeeds. */
  ghost predicate ScanDone(fs: seq<Field>, data: seq<byte>, xs: seq<Scanned>, counts: seq<nat>, nUnknown: nat, bits: seq<byte>) {
    && Scan(data) == Some(Mems(xs)) && |xs| <= SLAB_CAPACITY
    && AllScanned(fs, xs) && CountsOk(fs, xs, counts, nUnknown) && MarksOk(fs, xs, bits)
  }

  lemma ScanDoneIntro(fs: seq<Field>, data: seq<byte>, xs: seq<Scanned>, counts: seq<nat>, nUnknown: nat, bits: seq<byte>)
    requires ScannedTo(data, |data|, xs) && |xs| <= SLAB_CAPACITY
    requires AllScanned(fs, xs) && CountsOk(fs, xs, counts, nUnknown) && MarksOk(fs, xs, bits)
    ensures ScanDone(fs, data, xs, counts, nUnknown, bits)
  {
    ScanEnds(data, xs);
    hide Scan, AllScanned, CountsOk, MarksOk;
  }

  /** `x` is the member behind the tag at the start of `rem`, with the length that was scanned, and `at` all that is behind the tag. */
  ghost predicate FoundAt(rem: seq<byte>, x: Scanned, at: seq<byte>) {
    && ParseTag(rem).Some? && at == rem[ParseTag(rem).value.used..]
    && x.mem.tag == ParseTag(rem).value.tag && x.mem.wire == ParseTag(rem).value.wire
    && |x.mem.data| <= |at| && x.mem.data == at[..|x.mem.data|]
    && (x.mem.wire == WIRE_PREFIXED ==> |x.mem.data| == ScannedLen(at) && x.prefix == TermLen(at, 5) <= |at|)
  }

  /**
   The first half of an iteration: the member at the start of `rem`, with its field.  `ok` is false if it is
   malformed, or if its length prefix wraps; then `x` is what the source takes for a member.
   */
  method ScanNext(S: Schema, d: nat, rem: seq<byte>, last: Option<nat>)
    returns (ok: bool, wraps: bool, x: Scanned, at: seq<byte>, used: nat, last': Option<nat>)
    requires SchemaOk(S) && d < |S| && rem != [] && (last.Some? ==> last.value < |S[d].fields|)
    ensures !ok ==> ScanMember(rem).None? && (wraps <==> WrapsAt(rem))
    ensures wraps ==> !ok && used < |rem| && ScanMember(rem[used..]).None? && !WrapsAt(rem[used..])
    ensures ok || wraps ==> FoundAt(rem, x, at) && x.field == FieldIndex(S[d].fields, x.mem.tag)
    ensures ok ==> ScanMember(rem) == Some((x.mem, used)) && 0 < used <= |rem| && Faithful(S[d].fields, x)
    ensures last'.Some? ==> last'.value < |S[d].fields|
  {
    hide *;
    HeaderInside(rem);
    NoWrap(rem);
    var hdr, tag, wire := ParseTagAndWiretype(rem);
    if hdr == 0 {
      NoTag(rem);
      return false, false, Scanned(Member(0, 0, []), 0, None), [], 0, last;
    }
    var field;
    field, last' := LookUp(S, d, tag, last);
    at := rem[hdr..];
    var len, prefix := ScanData(wire, at);
    ScannedMember(rem, hdr, tag, wire, len);
    if len == 0 { return false, false, Scanned(Member(0, 0, []), 0, None), [], 0, last'; }
    x := Scanned(Member(tag, wire, at[..len]), prefix, field);
    FoundIntro(rem, hdr, x, at);
    if WrapsAt(rem) {
      WrappedNext(rem, hdr, tag, len);
      return false, true, x, at, hdr + len, last';
    }
    FaithfulScanned(S[d].fields, tag, wire, at, prefix, field);
    FaithfulParts(S[d].fields, x);
    return true, false, x, at, hdr + len, last';
  }

  lemma FoundIntro(rem: seq<byte>, hdr: nat, x: Scanned, at: seq<byte>)
    requires hdr <= |rem| && at == rem[hdr..] && |x.mem.data| <= |at| && x.mem.data == at[..|x.mem.data|]
    requires ParseTag(rem) == Some(Header(x.mem.tag, x.mem.wire, hdr))
    requires x.mem.wire == WIRE_PREFIXED ==> |x.mem.data| == ScannedLen(at) && x.prefix == TermLen(at, 5)
    ensures FoundAt(rem, x, at)
  {
    hide ParseTag, ScannedLen, TermLen;
  }

  lemma FoundParts(rem: seq<byte>, x: Scanned, at: seq<byte>)
    requires FoundAt(rem, x, at)
    ensures |x.mem.data| <= |at| && x.mem.data == at[..|x.mem.data|] && (x.mem.wire == WIRE_PREFIXED ==> x.prefix <= |at|)
  {
    hide ParseTag, ScannedLen, TermLen;
  }

  lemma NoWrap(data: seq<byte>)
    ensures ParseTag(data).None? ==> !WrapsAt(data)
  {
  }

  lemma FirstField(fs: seq<Field>)
    ensures var last: Option<nat> := if |fs| == 0 then None else Some(0); last.Some? ==> last.value < |fs|
  {
  }

  /** `REQUIRED_FIELD_BITMAP_SET`, if the member's field is required. */
  method MarkRequired(fs: seq<Field>, x: Scanned, bitmap: array<byte>)
    requires x.field == FieldIndex(fs, x.mem.tag) && (|fs| + 7) / 8 <= bitmap.Length
    modifies bitmap
    ensures forall j: nat :: Marked(bitmap[..], j) <==>
      Marked(old(bitmap[..]), j) || (x.field == Some(j) && j < |fs| && fs[j].rule.REQUIRED?)
  {
    hide Marked;
    if x.field.Some? && fs[x.field.value].rule.REQUIRED? {
      BitmapFits(x.field.value, |fs|, bitmap.Length);
      BitmapSet(bitmap, x.field.value);
    }
  }

  lemma CountableIs(fs: seq<Field>, x: Scanned)
    requires Faithful(fs, x)
    ensures Countable(fs, x) <==> MemberCountable(fs, x.mem)
  {
    hide MemberOk, Elements;
  }

  lemma NoRoom(fs: seq<Field>, data: seq<byte>)
    ensures !ScanStrays(fs, data, 0) && forall room :: !ScanStrays(fs, [], room)
  {
  }

  lemma WrappedFound(fs: seq<Field>, rem: seq<byte>, x: Scanned, at: seq<byte>)
    requires WrapsAt(rem) && FoundAt(rem, x, at) && x.field == FieldIndex(fs, x.mem.tag)
    ensures ParseTag(rem).Some? && (WrappedOutside(fs, rem) <==> CountedOutside(fs, x, |at|))
  {
    hide ParseTag, ScannedLen, TermLen, Wraps, CountsOutside;
  }

  /**
   What the source does with a member whose length prefix wraps: it is stored like any other, its elements, of which
   there seem to be very many, are counted, and if that ends, the next tag turns out to be none.
   */
  method ScanWrapped(S: Schema, heap: Heap, d: nat, rem: seq<byte>, x: Scanned, at: seq<byte>, used: nat, last: Option<nat>,
                     counts: seq<nat>, slabs: SlabList, bitmap: array<byte>, ghost rest: multiset<nat>) returns (stray: bool)
    requires SchemaOk(S) && d < |S| && (last.Some? ==> last.value < |S[d].fields|) && slabs.Valid() && |slabs.contents| <= SLAB_CAPACITY
    requires WrapsAt(rem) && FoundAt(rem, x, at) && x.field == FieldIndex(S[d].fields, x.mem.tag) && |counts| == |S[d].fields|
    requires used < |rem| && ScanMember(rem[used..]).None?
    requires (|S[d].fields| + 7) / 8 <= bitmap.Length
    requires heap.Valid() && heap.live == rest + slabs.Blocks() && bitmap !in slabs.repr
    modifies heap, slabs, slabs.repr, bitmap
    ensures !stray ==> heap.Valid() && heap.live == rest + slabs.Blocks() && slabs.Valid()
    ensures heap.refusals >= old(heap.refusals) && (stray ==> heap.refusals == old(heap.refusals))
    ensures heap.refusals == old(heap.refusals) ==>
      (stray <==> ScanStrays(S[d].fields, rem, SLAB_CAPACITY - |old(slabs.contents)|))
    ensures fresh(slabs.repr - old(slabs.repr))
  {
    hide *;
    ghost var room := SLAB_CAPACITY - |slabs.contents|;
    WrappedFound(S[d].fields, rem, x, at);
    ScanStraysWraps(S[d].fields, rem, room);
    FoundParts(rem, x, at);
    FieldIds(S, d);
    MarkRequired(S[d].fields, x, bitmap);
    var pushed := slabs.Push(heap, x, rest);
    if !pushed { return false; }
    var counted, next;
    counted, stray, next := CountMember(S[d].fields, x, at, counts);
    if !counted { return; }
    var ok, wraps, y, more, behind, last' := ScanNext(S, d, rem[used..], last);
    assert !ok;
  }

  /**
   The scanning pass: the loop of `protobuf_c_message_unpack` up to `rem == 0`.  `stray` is true if it reads outside
   `data`, and then nothing is said about the heap.
   */
  method ScanAll(S: Schema, heap: Heap, d: nat, data: seq<byte>, slabs: SlabList, bitmap: array<byte>, ghost rest: multiset<nat>)
    returns (ok: bool, stray: bool, counts: seq<nat>, nUnknown: nat)
    requires SchemaOk(S) && d < |S| && slabs.Valid() && slabs.contents == []
    requires (|S[d].fields| + 7) / 8 <= bitmap.Length && forall j: nat :: !Marked(bitmap[..], j)
    requires heap.Valid() && heap.live == rest + slabs.Blocks() && bitmap !in slabs.repr
    modifies heap, slabs, slabs.repr, bitmap
    ensures !stray ==> heap.Valid() && heap.live == rest + slabs.Blocks() && slabs.Valid()
    ensures heap.refusals >= old(heap.refusals) && (ok || stray ==> heap.refusals == old(heap.refusals))
    ensures heap.refusals == old(heap.refusals) ==> (stray <==> ScanStrays(S[d].fields, data, SLAB_CAPACITY))
    ensures stray ==> !ok
    ensures !ok && heap.refusals == old(heap.refusals) ==> Decoding.Unpack(S, d, data).None?
    ensures !ok && !stray && heap.refusals == old(heap.refusals) ==> ScanRefuses(S[d].fields, data)
    ensures ok ==> ScanDone(S[d].fields, data, slabs.contents, counts, nUnknown, bitmap[..])
    ensures fresh(slabs.repr - old(slabs.repr))
  {
    hide *;
    ghost var fs := S[d].fields;
    EmptyScan(fs, bitmap[..]);
    ScanStart(data);
    FieldIds(S, d);
    FirstField(fs);
    NothingTooMany();
    var at := 0;
    assert data[0..] == data;
    stray := false;
    var last: Option<nat> := if |S[d].fields| == 0 then None else Some(0);
    counts, nUnknown := seq(|S[d].fields|, _ => 0), 0;
    while at < |data|
      invariant at <= |data| && (last.Some? ==> last.value < |S[d].fields|)
      invariant heap.Valid() && heap.live == rest + slabs.Blocks() && slabs.Valid()
      invariant heap.refusals == old(heap.refusals)
      invariant ScannedTo(data, at, slabs.contents) && |slabs.contents| <= SLAB_CAPACITY
      invariant ScanStrays(fs, data, SLAB_CAPACITY) == ScanStrays(fs, data[at..], SLAB_CAPACITY - |slabs.contents|)
      invariant AllScanned(fs, slabs.contents) && CountsOk(fs, slabs.contents, counts, nUnknown)
      invariant MarksOk(fs, slabs.contents, bitmap[..])
      invariant fresh(slabs.repr - old(slabs.repr)) && bitmap !in slabs.repr
      decreases |data| - at
    {
      ghost var xs, bits := slabs.contents, bitmap[..];
      NoRoom(fs, data[at..]);
      var good, wraps, x, behind, used;
      good, wraps, x, behind, used, last := ScanNext(S, d, data[at..], last);
      if !good {
        ScanFails(data, at, xs);
        ScanNone(S, d, data);
        RefusesIncomplete(fs, data);
        if wraps {
          CountsShape(fs, xs, counts, nUnknown);
          stray := ScanWrapped(S, heap, d, data[at..], x, behind, used, last, counts, slabs, bitmap, rest);
        } else {
          ScanStraysBad(fs, data[at..], SLAB_CAPACITY - |xs|);
        }
        return false, stray, counts, nUnknown;
      }
      ScanStraysGood(fs, data[at..], SLAB_CAPACITY - |xs|, x.mem, used);
      CountableIs(fs, x);
      ScannedNext(data, at, xs, x, used);
      FaithfulParts(fs, x);
      MarkRequired(S[d].fields, x, bitmap);
      MarksNext(fs, xs, x, bits, bitmap[..]);
      var pushed := slabs.Push(heap, x, rest);
      if !pushed {
        if |xs| == SLAB_CAPACITY {
          TooMany(S, d, data, at + used, xs + [x]);
          RefusesMany(fs, data, at + used, xs + [x]);
        }
        return false, false, counts, nUnknown;
      }
      CountsShape(fs, xs, counts, nUnknown);
      FoundParts(data[at..], x, behind);
      var counted, outside, next := CountMember(S[d].fields, x, behind, counts);
      if !counted {
        CannotCount(S, d, data, at + used, xs, x);
        RefusesUncountable(fs, data, at + used, xs, x);
        return false, false, counts, nUnknown;
      }
      CountsNext(fs, xs, x, counts, nUnknown, next, if x.field.None? then nUnknown + 1 else nUnknown);
      ScannedSnoc(fs, xs, x);
      counts := next;
      if x.field.None? { nUnknown := nUnknown + 1; }
      assert data[at..][used..] == data[at + used..];
      at := at + used;
    }
    assert data[at..] == [];
    NoRoom(fs, data);
    ScanDoneIntro(fs, data, slabs.contents, counts, nUnknown, bitmap[..]);
    ok := true;
  }

  /** Scanning refuses the bytes: they are incomplete, too many members, or have elements that cannot be counted. */
  ghost predicate ScanRefuses(fs: seq<Field>, data: seq<byte>) {
    match Scan(data)
    case None => true
    case Some(ms) => |ms| > SLAB_CAPACITY || !AllCountable(fs, ms)
  }

  lemma RefusesIncomplete(fs: seq<Field>, data: seq<byte>)
    ensures Scan(data).None? ==> ScanRefuses(fs, data)
  {
    hide Scan;
  }

  lemma RefusesMany(fs: seq<Field>, data: seq<byte>, at: nat, xs: seq<Scanned>)
    requires ScannedTo(data, at, xs) && |xs| > SLAB_CAPACITY
    ensures ScanRefuses(fs, data)
  {
    hide Scan, AllCountable;
  }

  lemma RefusesUncountable(fs: seq<Field>, data: seq<byte>, at: nat, xs: seq<Scanned>, x: Scanned)
    requires ScannedTo(data, at, xs + [x]) && Faithful(fs, x) && !Countable(fs, x)
    ensures ScanRefuses(fs, data)
  {
    CountableIs(fs, x);
    MemsSnoc(xs, x);
    hide Scan, MemberCountable;
    if Scan(data).Some? { assert Scan(data).value[|xs|] == x.mem; }
  }

  lemma NothingTooMany()
    ensures 0 <= SLAB_CAPACITY
  {
  }

  lemma CountsShape(fs: seq<Field>, xs: seq<Scanned>, counts: seq<nat>, nUnknown: nat)
    requires CountsOk(fs, xs, counts, nUnknown)
    ensures |counts| == |fs| && nUnknown == UnknownCount(xs, |xs|)
  {
    hide UnknownCount, CountOf;
  }

  // ---------------------------------------------------------------------------------------------
  // The allocations between the passes
  // ---------------------------------------------------------------------------------------------

  /** A default value is not owned by the message. */
  function DefaultValue(v: Value): HValue {
    match v
    case V32(n) => H32(n)
    case V64(n) => H64(n)
    case Str(s) => HStr(None, s)
    case Bin(b) => HBin(None, b)
    case Msg(_) => H32(0)
  }

  /** `protobuf_c_message_init` for one field. */
  function BlankSlot(f: Field): HSlot {
    if f.rule.REPEATED? then HMany(None, 0, [])
    else if f.rule.REQUIRED? && f.default.Some? then HOne(DefaultValue(f.default.value))
    else HUnset
  }

  lemma BlankSlotIs(S: Schema, f: Field)
    requires FieldOk(S, f)
    ensures SlotOf(BlankSlot(f)) == InitSlot(f) && SlotBlocks(BlankSlot(f)) == multiset{} && SlotTyped(S, f, SlotOf(BlankSlot(f)))
    ensures !f.rule.REPEATED? ==> TightSlot(S, f, BlankSlot(f))
  {
    if f.rule.REPEATED? { assert ValuesOf([]) == []; }
  }

  /** A repeated field's slot with its array in place. */
  function RoomySlot(block: Option<nat>, n: nat): HSlot { HMany(block, n, []) }

  lemma RoomySlotIs(S: Schema, f: Field, block: Option<nat>, n: nat)
    requires f.rule.REPEATED?
    ensures SlotOf(RoomySlot(block, n)) == InitSlot(f) && SlotBlocks(RoomySlot(block, n)) == Opt(block)
    ensures SlotTyped(S, f, SlotOf(RoomySlot(block, n)))
  {
    assert ValuesOf([]) == [];
  }

  /** Field `i`'s slot after the allocations. */
  ghost predicate ReadySlot0(fs: seq<Field>, i: nat, counts: seq<nat>, s: HSlot)
    requires i < |fs| == |counts|
  {
    if fs[i].rule.REPEATED? then s.HMany? && s.vs == [] && s.capacity == Wrap32(counts[i]) && (s.block.Some? <==> counts[i] > 0)
    else s == BlankSlot(fs[i])
  }

  lemma ReadyIsFilled(S: Schema, fs: seq<Field>, i: nat, xs: seq<Scanned>, counts: seq<nat>, nUnknown: nat, s: HSlot)
    requires CountsOk(fs, xs, counts, nUnknown) && i < |fs| && FieldOk(S, fs[i]) && ReadySlot0(fs, i, counts, s)
    ensures FilledSlot(S, fs, i, xs, 0, s) && SlotOf(s) == InitSlot(fs[i])
  {
    hide TightSlot, SlotTyped, FieldOk, InitSlot, BlankSlot;
    if fs[i].rule.REPEATED? {
      RoomySlotIs(S, fs[i], s.block, s.capacity);
    } else {
      BlankSlotIs(S, fs[i]);
    }
  }

  lemma {:induction false} BlankSlots(S: Schema, fs: seq<Field>, k: nat)
    requires k <= |fs| && forall i | 0 <= i < |fs| :: FieldOk(S, fs[i])
    ensures SlotsBlocks(Blanks(fs), k) == multiset{}
    decreases |fs| - k
  {
    hide FieldOk, BlankSlot, SlotBlocks;
    if k < |fs| {
      BlankSlots(S, fs, k + 1);
      BlankSlotIs(S, fs[k]);
    }
  }

  function Blanks(fs: seq<Field>): (r: seq<HSlot>)
    ensures |r| == |fs| && forall i | 0 <= i < |fs| :: r[i] == BlankSlot(fs[i])
  {
    seq(|fs|, i requires 0 <= i < |fs| => BlankSlot(fs[i]))
  }

  lemma BlankMessage(S: Schema, d: nat, block: nat)
    requires SchemaOk(S) && d < |S|
    ensures BlocksOf(HMessage(block, Blanks(S[d].fields), None, [])) == multiset{block}
  {
    forall i | 0 <= i < |S[d].fields| ensures FieldOk(S, S[d].fields[i]) { DescAt(S, d, i); }
    BlankSlots(S, S[d].fields, 0);
    Whole(HMessage(block, Blanks(S[d].fields), None, []));
    hide SlotsBlocks, SchemaOk, BlocksOf;
  }

  predicate Missing(f: Field, marked: bool) { f.rule.REQUIRED? && f.default.None? && !marked }

  lemma MarkedIsPresent(S: Schema, d: nat, xs: seq<Scanned>, bits: seq<byte>, i: nat)
    requires SchemaOk(S) && d < |S| && i < |S[d].fields| && S[d].fields[i].rule.REQUIRED?
    requires AllScanned(S[d].fields, xs) && MarksOk(S[d].fields, xs, bits)
    ensures Marked(bits, i) <==> exists k | 0 <= k < |xs| :: Mems(xs)[k].tag == S[d].fields[i].id
  {
    var fs := S[d].fields;
    DescAt(S, d, i);
    FieldIndexOf(fs, i);
    hide Marked, SchemaOk, MemberOk, Countable;
    assert forall k | 0 <= k < |xs| :: Faithful(fs, xs[k]);
    if Marked(bits, i) {
      var k :| 0 <= k < |xs| && xs[k].field == Some(i);
      assert Mems(xs)[k].tag == fs[i].id;
    }
    if k :| 0 <= k < |xs| && Mems(xs)[k].tag == fs[i].id {
      assert xs[k].field == Some(i);
    }
  }

  lemma AllPresent(S: Schema, d: nat, xs: seq<Scanned>, bits: seq<byte>)
    requires SchemaOk(S) && d < |S| && AllScanned(S[d].fields, xs) && MarksOk(S[d].fields, xs, bits)
    ensures RequiredPresent(S[d].fields, Mems(xs)) <==>
      forall i | 0 <= i < |S[d].fields| :: !Missing(S[d].fields[i], Marked(bits, i))
  {
    var fs := S[d].fields;
    hide Marked, SchemaOk, AllScanned, MarksOk, Mems;
    forall i | 0 <= i < |fs| && fs[i].rule.REQUIRED?
      ensures Marked(bits, i) <==> exists k | 0 <= k < |Mems(xs)| :: Mems(xs)[k].tag == fs[i].id
    {
      MarkedIsPresent(S, d, xs, bits, i);
    }
    if RequiredPresent(fs, Mems(xs)) {
      forall i | 0 <= i < |fs| ensures !Missing(fs[i], Marked(bits, i)) { }
    }
    if forall i | 0 <= i < |fs| :: !Missing(fs[i], Marked(bits, i)) {
      forall i | 0 <= i < |fs| && fs[i].rule.REQUIRED? && fs[i].default.None?
        ensures exists k :: 0 <= k < |Mems(xs)| && Mems(xs)[k].tag == fs[i].id
      {
        assert !Missing(fs[i], Marked(bits, i));
      }
    }
  }

  lemma PutArray(rest: multiset<nat>, m: HMessage, i: nat, s: HSlot, block: Option<nat>)
    requires i < |m.slots| && SlotBlocks(m.slots[i]) == multiset{} && SlotBlocks(s) == Opt(block)
    ensures rest + BlocksOf(m.(slots := m.slots[i := s])) == rest + BlocksOf(m) + Opt(block)
  {
    Regrouped(rest, m, i, s);
    hide *;
    assert rest + Except(m, i) + multiset{} == rest + Except(m, i);
  }

  lemma NoneMissing(fs: seq<Field>, bits: seq<byte>, f: nat)
    requires f < |fs| && Missing(fs[f], Marked(bits, f))
    ensures !(forall i | 0 <= i < |fs| :: !Missing(fs[i], Marked(bits, i)))
  {
  }

  /** Allocates the arrays of the repeated fields, each for the low 32 bits of its count, and checks that every required field was seen. */
  method ReserveArrays(S: Schema, heap: Heap, d: nat, block: nat, bitmap: array<byte>, counts: seq<nat>, ghost rest: multiset<nat>)
    returns (ok: bool, m: HMessage)
    requires SchemaOk(S) && d < |S| && |counts| == |S[d].fields|
    requires heap.Valid() && heap.live == rest + multiset{block}
    modifies heap
    ensures heap.Valid() && heap.live == rest + BlocksOf(m)
    ensures heap.refusals >= old(heap.refusals) && (ok ==> heap.refusals == old(heap.refusals))
    ensures !ok && heap.refusals == old(heap.refusals) ==>
      !(forall i | 0 <= i < |S[d].fields| :: !Missing(S[d].fields[i], Marked(bitmap[..], i)))
    ensures ok ==>
      && |m.slots| == |S[d].fields| && m.table == None && m.unknown == []
      && (forall i | 0 <= i < |m.slots| :: ReadySlot0(S[d].fields, i, counts, m.slots[i]))
      && (forall i | 0 <= i < |m.slots| :: !Missing(S[d].fields[i], Marked(bitmap[..], i)))
  {
    hide *;
    var fs := S[d].fields;
    m := HMessage(block, Blanks(fs), None, []);
    BlankMessage(S, d, block);
    for f := 0 to |fs|
      invariant heap.Valid() && heap.live == rest + BlocksOf(m) && heap.refusals == old(heap.refusals)
      invariant |m.slots| == |fs| && m.table == None && m.unknown == []
      invariant forall i | 0 <= i < f :: ReadySlot0(fs, i, counts, m.slots[i]) && !Missing(fs[i], Marked(bitmap[..], i))
      invariant forall i | f <= i < |fs| :: m.slots[i] == BlankSlot(fs[i])
    {
      DescAt(S, d, f);
      BlankSlotIs(S, fs[f]);
      BlankReady(fs, f, counts);
      if fs[f].rule.REPEATED? {
        NeverMissing(fs[f], Marked(bitmap[..], f));
        if counts[f] != 0 {
          var n := Wrap32(counts[f]);
          var a := heap.Alloc();
          if a.None? { return false, m; }
          OptSome(a.value);
          RoomySlotIs(S, fs[f], a, n);
          RoomyReady(fs, f, counts, a);
          PutArray(rest, m, f, RoomySlot(a, n), a);
          m := m.(slots := m.slots[f := RoomySlot(a, n)]);
        }
      } else if fs[f].rule.REQUIRED? {
        var marked := Marked(bitmap[..], f);
        if Missing(fs[f], marked) {
          NoneMissing(fs, bitmap[..], f);
          return false, m;
        }
      } else {
        NeverMissing(fs[f], Marked(bitmap[..], f));
      }
    }
    ok := true;
  }

  lemma NeverMissing(f: Field, marked: bool)
    requires !f.rule.REQUIRED?
    ensures !Missing(f, marked)
  {
  }

  lemma BlankReady(fs: seq<Field>, f: nat, counts: seq<nat>)
    requires f < |fs| == |counts|
    ensures fs[f].rule.REPEATED? && counts[f] == 0 ==> ReadySlot0(fs, f, counts, BlankSlot(fs[f]))
    ensures !fs[f].rule.REPEATED? ==> ReadySlot0(fs, f, counts, BlankSlot(fs[f]))
  {
  }

  lemma RoomyReady(fs: seq<Field>, f: nat, counts: seq<nat>, a: Option<nat>)
    requires f < |fs| == |counts| && fs[f].rule.REPEATED? && a.Some? && counts[f] > 0
    ensures ReadySlot0(fs, f, counts, RoomySlot(a, Wrap32(counts[f])))
  {
  }

  // ---------------------------------------------------------------------------------------------
  // The parsing pass
  // ---------------------------------------------------------------------------------------------

  lemma {:induction false} ApplyAllAppend(S: Schema, fs: seq<Field>, acc: Message, a: seq<Member>, b: seq<Member>)
    requires |acc.slots| == |fs| && AllOk(a + b) && AllOk(a) && AllOk(b)
    ensures ApplyAll(S, fs, acc, a + b) == match ApplyAll(S, fs, acc, a) case None => None case Some(x) => ApplyAll(S, fs, x, b)
    decreases |a|
  {
    if a == [] {
      Empty(b);
    } else {
      SliceAppend(a, b, 1);
      AllOkUncons(a);
      AllOkUncons(a + b);
      hide Apply, AllOk, MemberOk;
      match Apply(S, fs, acc, a[0])
      case None =>
      case Some(next) => ApplyAllAppend(S, fs, next, a[1..], b);
    }
  }

  lemma AllOkSlices(ms: seq<Member>, k: nat)
    requires AllOk(ms) && k < |ms|
    ensures AllOk(ms[..k]) && AllOk(ms[..k + 1]) && AllOk([ms[k]]) && AllOk(ms[k + 1..]) && MemberOk(ms[k])
  {
    hide MemberOk;
  }

  /** The members before the `k`-th give `acc`. */
  ghost predicate AppliedTo(S: Schema, fs: seq<Field>, ms: seq<Member>, k: nat, acc: Message) {
    k <= |ms| && AllOk(ms) && |InitMessage(fs).slots| == |fs| && AllOk(ms[..k]) && ApplyAll(S, fs, InitMessage(fs), ms[..k]) == Some(acc)
  }

  lemma AppliedStart(S: Schema, fs: seq<Field>, ms: seq<Member>)
    requires AllOk(ms)
    ensures AppliedTo(S, fs, ms, 0, InitMessage(fs))
  {
    hide MemberOk;
    assert ms[..0] == [];
  }

  lemma AppliedNext(S: Schema, fs: seq<Field>, ms: seq<Member>, k: nat, acc: Message)
    requires AppliedTo(S, fs, ms, k, acc) && k < |ms| && |acc.slots| == |fs| && MemberOk(ms[k])
    ensures match Apply(S, fs, acc, ms[k])
      case None => ApplyAll(S, fs, InitMessage(fs), ms).None?
      case Some(next) => AppliedTo(S, fs, ms, k + 1, next)
  {
    AllOkSlices(ms, k);
    ApplySingle(S, fs, acc, ms[k]);
    hide Apply, MemberOk, ApplyAll, AllOk;
    TakeSnoc(ms, k + 1);
    ApplyAllAppend(S, fs, InitMessage(fs), ms[..k], [ms[k]]);
    SplitAt(ms, k + 1);
    ApplyAllAppend(S, fs, InitMessage(fs), ms[..k + 1], ms[k + 1..]);
  }

  lemma ApplySingle(S: Schema, fs: seq<Field>, acc: Message, mem: Member)
    requires |acc.slots| == |fs| && MemberOk(mem)
    ensures AllOk([mem]) && ApplyAll(S, fs, acc, [mem]) == Apply(S, fs, acc, mem)
  {
    hide Apply, MemberOk;
    assert [mem][1..] == [];
  }

  lemma AppliedEnd(S: Schema, fs: seq<Field>, ms: seq<Member>, acc: Message)
    requires AppliedTo(S, fs, ms, |ms|, acc)
    ensures AllOk(ms) && ApplyAll(S, fs, InitMessage(fs), ms) == Some(acc)
  {
    TakeAll(ms);
    hide ApplyAll, AllOk;
  }

  lemma ScannedAt(fs: seq<Field>, xs: seq<Scanned>, k: nat)
    requires AllScanned(fs, xs) && k < |xs|
    ensures Faithful(fs, xs[k]) && Countable(fs, xs[k]) && MemberOk(xs[k].mem) && Mems(xs)[k] == xs[k].mem
  {
  }

  lemma ScannedAllOk(fs: seq<Field>, xs: seq<Scanned>)
    requires AllScanned(fs, xs)
    ensures AllOk(Mems(xs))
  {
    hide MemberOk;
    forall k | 0 <= k < |xs| ensures MemberOk(Mems(xs)[k]) { ScannedAt(fs, xs, k); }
  }

  lemma {:induction false} WeightAt(ms: seq<Member>, k: nat)
    requires k < |ms|
    ensures |ms[k].data| < Weight(ms)
    decreases k
  {
    if k > 0 {
      assert ms[1..][k - 1] == ms[k];
      WeightAt(ms[1..], k - 1);
    }
  }

  /** Every reservation is used up: the arrays are as long as they were allocated. */
  lemma FilledIsTight(S: Schema, d: nat, m: HMessage, xs: seq<Scanned>)
    requires d < |S| && Filled(S, S[d].fields, m, xs, |xs|)
    ensures Tight(S, d, m) && ArraysFit(MessageOf(m).slots)
  {
    hide FilledSlot, TightSlot, SlotOf, Held;
    forall i | 0 <= i < |m.slots| ensures TightSlot(S, S[d].fields[i], m.slots[i]) && Held(SlotOf(m.slots[i])) < TWO32 {
      FullSlot(S, S[d].fields, i, xs, m.slots[i]);
    }
  }

  lemma TypedHeld(S: Schema, f: Field, slot: Slot)
    requires SlotTyped(S, f, slot)
    ensures !f.rule.REPEATED? ==> Held(slot) == 0
  {
  }

  lemma FullSlot(S: Schema, fs: seq<Field>, i: nat, xs: seq<Scanned>, s: HSlot)
    requires i < |fs| && FilledSlot(S, fs, i, xs, |xs|, s)
    ensures TightSlot(S, fs[i], s)
    ensures Held(SlotOf(s)) < TWO32
  {
    TypedHeld(S, fs[i], SlotOf(s));
    hide CountOf, TightValue, SlotTyped;
  }

  /** The state of the parsing pass when the first `k` members have been parsed. */
  ghost predicate PassOk(S: Schema, d: nat, xs: seq<Scanned>, nUnknown: nat, k: nat, m: HMessage) {
    && d < |S| && k <= |xs|
    && AllScanned(S[d].fields, xs) && nUnknown == UnknownCount(xs, |xs|)
    && Filled(S, S[d].fields, m, xs, k)
    && AppliedTo(S, S[d].fields, Mems(xs), k, MessageOf(m))
    && InsideTo(S, S[d].fields, xs, k)
  }

  /** None of the first `k` members has strayed. */
  ghost predicate InsideTo(S: Schema, fs: seq<Field>, xs: seq<Scanned>, k: nat) {
    && k <= |xs| && AllOk(Mems(xs)[..k]) && |InitMessage(fs).slots| == |fs|
    && !ApplyStrays(S, fs, Rooms(fs, xs), InitMessage(fs), Mems(xs)[..k])
  }

  lemma InsideStart(S: Schema, fs: seq<Field>, xs: seq<Scanned>)
    ensures InsideTo(S, fs, xs, 0)
  {
    assert Mems(xs)[..0] == [];
  }

  /** Applying the members fails, whatever the allocator does. */
  ghost predicate PassFails(S: Schema, d: nat, xs: seq<Scanned>) {
    d < |S| && AllOk(Mems(xs)) && ApplyAll(S, S[d].fields, InitMessage(S[d].fields), Mems(xs)).None?
  }

  /** Some member that is reached strays. */
  ghost predicate PassStrays(S: Schema, d: nat, xs: seq<Scanned>) {
    d < |S| && AllOk(Mems(xs)) && ApplyStrays(S, S[d].fields, Rooms(S[d].fields, xs), InitMessage(S[d].fields), Mems(xs))
  }

  /** The next member strays, or it cannot be applied, or it keeps the pass inside. */
  lemma PassStraysAt(S: Schema, d: nat, xs: seq<Scanned>, nUnknown: nat, k: nat, m: HMessage)
    requires PassOk(S, d, xs, nUnknown, k, m) && k < |xs| && d < |S|
    requires |MessageOf(m).slots| == |S[d].fields| && MemberOk(xs[k].mem) && AllOk(Mems(xs))
    ensures var fs, acc, mem := S[d].fields, MessageOf(m), xs[k].mem;
      && (MemberStrays(S, fs, Rooms(fs, xs), acc, mem) ==> PassStrays(S, d, xs))
      && (!MemberStrays(S, fs, Rooms(fs, xs), acc, mem) && Apply(S, fs, acc, mem).None? ==> !PassStrays(S, d, xs))
      && (!MemberStrays(S, fs, Rooms(fs, xs), acc, mem) && Apply(S, fs, acc, mem).Some? ==> InsideTo(S, fs, xs, k + 1))
  {
    var fs, ms := S[d].fields, Mems(xs);
    AllOkSlices(ms, k);
    SplitAt(ms, k);
    AllOkTail(ms, k);
    TakeSnoc(ms, k + 1);
    hide MemberOk, MemberStrays, Apply, ApplyStrays, ApplyAll, Filled, AllScanned, UnknownCount, MessageOf, Rooms;
    ApplyStraysAppend(S, fs, Rooms(fs, xs), InitMessage(fs), ms[..k], ms[k..]);
    ApplyStraysFirst(S, fs, Rooms(fs, xs), MessageOf(m), ms[k..]);
    ApplyStraysAppend(S, fs, Rooms(fs, xs), InitMessage(fs), ms[..k], [ms[k]]);
    ApplyStraysOne(S, fs, Rooms(fs, xs), MessageOf(m), ms[k]);
  }

  lemma ApplyStraysOne(S: Schema, fs: seq<Field>, capacities: seq<nat>, acc: Message, mem: Member)
    requires |acc.slots| == |capacities| == |fs| && MemberOk(mem)
    ensures AllOk([mem])
    ensures !MemberStrays(S, fs, capacities, acc, mem) ==> !ApplyStrays(S, fs, capacities, acc, [mem])
  {
    hide MemberStrays, Apply, MemberOk;
    assert [mem][1..] == [];
  }

  lemma AllOkTail(ms: seq<Member>, k: nat)
    requires AllOk(ms) && k <= |ms|
    ensures AllOk(ms[k..])
  {
    hide MemberOk;
  }

  /** When all members have been applied none has strayed. */
  lemma PassEndsInside(S: Schema, d: nat, xs: seq<Scanned>, nUnknown: nat, m: HMessage)
    requires PassOk(S, d, xs, nUnknown, |xs|, m)
    ensures !PassStrays(S, d, xs)
  {
    TakeAll(Mems(xs));
    hide ApplyStrays, Filled, AppliedTo, AllScanned, Rooms, Mems, UnknownCount;
  }

  lemma PassStraysOpen(S: Schema, d: nat, xs: seq<Scanned>)
    ensures PassStrays(S, d, xs) <==>
      d < |S| && AllOk(Mems(xs)) && ApplyStrays(S, S[d].fields, Rooms(S[d].fields, xs), InitMessage(S[d].fields), Mems(xs))
  {
    hide ApplyStrays, AllOk, Rooms;
  }

  /** The arrays are as large as the members say. */
  lemma {:induction false} CountOfMembers(fs: seq<Field>, i: nat, xs: seq<Scanned>, n: nat)
    requires i < |fs| && n <= |xs| && AllScanned(fs, xs)
    ensures CountOf(fs, i, xs, n) + Counted(fs, i, Mems(xs)[n..]) == Counted(fs, i, Mems(xs))
    decreases n
  {
    hide Elements, MemberOk;
    if n == 0 {
      assert Mems(xs)[0..] == Mems(xs);
    } else {
      CountOfMembers(fs, i, xs, n - 1);
      ScannedAt(fs, xs, n - 1);
      assert Mems(xs)[n - 1..][1..] == Mems(xs)[n..];
    }
  }

  lemma RoomsAre(fs: seq<Field>, xs: seq<Scanned>)
    requires AllScanned(fs, xs)
    ensures Rooms(fs, xs) == Capacities(fs, Mems(xs))
  {
    hide CountOf, Counted, AllScanned;
    forall i | 0 <= i < |fs| ensures Rooms(fs, xs)[i] == Capacities(fs, Mems(xs))[i] {
      CountOfMembers(fs, i, xs, |xs|);
      assert Mems(xs)[|xs|..] == [];
      NothingCounted(fs, i);
    }
  }

  lemma NothingCounted(fs: seq<Field>, i: nat)
    requires i < |fs|
    ensures Counted(fs, i, []) == 0
  {
  }

  lemma PassParts(S: Schema, d: nat, xs: seq<Scanned>, nUnknown: nat, k: nat, m: HMessage)
    requires PassOk(S, d, xs, nUnknown, k, m)
    ensures d < |S| && k <= |xs| && nUnknown == UnknownCount(xs, |xs|) && Filled(S, S[d].fields, m, xs, k)
    ensures |MessageOf(m).slots| == |S[d].fields| && AllOk(Mems(xs))
    ensures k < |xs| ==>
      && Faithful(S[d].fields, xs[k]) && Countable(S[d].fields, xs[k]) && MemberOk(xs[k].mem)
      && |xs[k].mem.data| < Weight(Mems(xs))
  {
    hide *;
    PassOpen(S, d, xs, nUnknown, k, m);
    FilledShape(S, S[d].fields, m, xs, k);
    ScannedAllOk(S[d].fields, xs);
    if k < |xs| {
      ScannedAt(S[d].fields, xs, k);
      WeightAt(Mems(xs), k);
    }
  }

  lemma PassOpen(S: Schema, d: nat, xs: seq<Scanned>, nUnknown: nat, k: nat, m: HMessage)
    ensures PassOk(S, d, xs, nUnknown, k, m) <==>
      && d < |S| && k <= |xs|
      && AllScanned(S[d].fields, xs) && nUnknown == UnknownCount(xs, |xs|)
      && Filled(S, S[d].fields, m, xs, k)
      && AppliedTo(S, S[d].fields, Mems(xs), k, MessageOf(m))
      && InsideTo(S, S[d].fields, xs, k)
  {
    hide AllScanned, UnknownCount, Filled, AppliedTo, InsideTo, Mems, MessageOf;
  }

  lemma PassNext(S: Schema, d: nat, xs: seq<Scanned>, nUnknown: nat, k: nat, m: HMessage, next: Option<HMessage>)
    requires PassOk(S, d, xs, nUnknown, k, m) && k < |xs| && MemberOk(xs[k].mem) && d < |S|
    requires |MessageOf(m).slots| == |S[d].fields|
    requires match next
             case None => Apply(S, S[d].fields, MessageOf(m), xs[k].mem).None?
             case Some(m') => Apply(S, S[d].fields, MessageOf(m), xs[k].mem) == Some(MessageOf(m')) && Filled(S, S[d].fields, m', xs, k + 1) && InsideTo(S, S[d].fields, xs, k + 1)
    ensures match next
            case None => PassFails(S, d, xs)
            case Some(m') => PassOk(S, d, xs, nUnknown, k + 1, m')
  {
    hide *;
    PassParts(S, d, xs, nUnknown, k, m);
    PassOpen(S, d, xs, nUnknown, k, m);
    ScannedAt(S[d].fields, xs, k);
    AppliedNext(S, S[d].fields, Mems(xs), k, MessageOf(m));
    match next
    case None => FailsIntro(S, d, xs);
    case Some(m') => PassOpen(S, d, xs, nUnknown, k + 1, m');
  }

  lemma FailsIntro(S: Schema, d: nat, xs: seq<Scanned>)
    requires d < |S| && AllOk(Mems(xs))
    ensures PassFails(S, d, xs) <==> ApplyAll(S, S[d].fields, InitMessage(S[d].fields), Mems(xs)).None?
  {
    hide ApplyAll, AllOk, Mems;
  }

  /** One slab of the double loop. */
  method ParseSlab(S: Schema, heap: Heap, d: nat, slabs: SlabList, i: nat, m0: HMessage, nUnknown: nat, ghost rest: multiset<nat>)
    returns (ok: bool, stray: bool, m: HMessage)
    requires SchemaOk(S) && NoOneofs(S) && slabs.Valid() && i < |slabs.slabs|
    requires PassOk(S, d, slabs.contents, nUnknown, SizeBefore(i), m0)
    requires heap.Valid() && heap.live == rest + BlocksOf(m0)
    modifies heap
    ensures !stray ==> heap.Valid() && heap.live == rest + BlocksOf(m)
    ensures heap.refusals >= old(heap.refusals) && (ok || stray ==> heap.refusals == old(heap.refusals))
    ensures !ok && !stray && heap.refusals == old(heap.refusals) ==> PassFails(S, d, slabs.contents)
    ensures stray ==> !ok
    ensures !ok && heap.refusals == old(heap.refusals) ==> (stray <==> PassStrays(S, d, slabs.contents))
    ensures ok ==> PassOk(S, d, slabs.contents, nUnknown, SizeBefore(i) + slabs.InUse(i), m)
    decreases Weight(Mems(slabs.contents)), 0
  {
    hide *;
    ghost var xs, base := slabs.contents, SizeBefore(i);
    VisitBounds(slabs, i);
    slabs.Visit(i);
    var max := slabs.InUse(i);
    m, stray := m0, false;
    for j := 0 to max
      invariant heap.Valid() && heap.live == rest + BlocksOf(m) && heap.refusals == old(heap.refusals)
      invariant PassOk(S, d, xs, nUnknown, base + j, m)
    {
      IndexIs(i, j);
      var x := slabs.slabs[i][j];
      PassParts(S, d, xs, nUnknown, base + j, m);
      PassStraysAt(S, d, xs, nUnknown, base + j, m);
      var good, strayed, next := ParseMember(S, heap, d, m, x, nUnknown, xs, base + j, rest);
      if !good {
        if heap.refusals == old(heap.refusals) && !strayed { PassNext(S, d, xs, nUnknown, base + j, m, None); }
        return false, strayed, next;
      }
      PassNext(S, d, xs, nUnknown, base + j, m, Some(next));
      m := next;
    }
    ok := true;
  }

  lemma IndexIs(i: nat, j: nat)
    ensures Index(i, j) == SizeBefore(i) + j
  {
  }

  lemma VisitBounds(slabs: SlabList, i: nat)
    requires slabs.Valid() && i < |slabs.slabs|
    ensures SizeBefore(i) + slabs.InUse(i) == (if i == |slabs.slabs| - 1 then |slabs.contents| else SizeBefore(i + 1))
    ensures SizeBefore(i) + slabs.InUse(i) <= |slabs.contents|
  {
    hide *;
    slabs.Visit(i);
    if i < |slabs.slabs| - 1 {
      slabs.Visit(|slabs.slabs| - 1);
      SizeGrows(i + 1, |slabs.slabs| - 1);
    }
  }

  /** The parsing pass. */
  method ParseAll(S: Schema, heap: Heap, d: nat, slabs: SlabList, m0: HMessage, nUnknown: nat, ghost rest: multiset<nat>)
    returns (ok: bool, stray: bool, m: HMessage)
    requires SchemaOk(S) && NoOneofs(S) && slabs.Valid() && PassOk(S, d, slabs.contents, nUnknown, 0, m0)
    requires heap.Valid() && heap.live == rest + BlocksOf(m0)
    modifies heap
    ensures !stray ==> heap.Valid() && heap.live == rest + BlocksOf(m)
    ensures heap.refusals >= old(heap.refusals) && (ok || stray ==> heap.refusals == old(heap.refusals))
    ensures !ok && !stray && heap.refusals == old(heap.refusals) ==> PassFails(S, d, slabs.contents)
    ensures stray ==> !ok
    ensures heap.refusals == old(heap.refusals) ==> (stray <==> PassStrays(S, d, slabs.contents))
    ensures ok ==> PassOk(S, d, slabs.contents, nUnknown, |slabs.contents|, m)
    decreases Weight(Mems(slabs.contents)), 1
  {
    hide *;
    SlabsShape(slabs);
    ghost var xs := slabs.contents;
    m, stray := m0, false;
    ghost var k := 0;
    for iSlab := 0 to |slabs.slabs|
      invariant heap.Valid() && heap.live == rest + BlocksOf(m) && heap.refusals == old(heap.refusals)
      invariant k == if iSlab == |slabs.slabs| then |xs| else SizeBefore(iSlab)
      invariant PassOk(S, d, xs, nUnknown, k, m)
    {
      VisitBounds(slabs, iSlab);
      var good, strayed, next := ParseSlab(S, heap, d, slabs, iSlab, m, nUnknown, rest);
      if !good { return false, strayed, next; }
      m := next;
      k := SizeBefore(iSlab) + slabs.InUse(iSlab);
    }
    PassEndsInside(S, d, xs, nUnknown, m);
    ok := true;
  }

  lemma SlabsShape(slabs: SlabList)
    requires slabs.Valid()
    ensures |slabs.slabs| > 0 && SizeBefore(0) == 0
  {
  }

  // ---------------------------------------------------------------------------------------------
  // Unpacking
  // ---------------------------------------------------------------------------------------------

  lemma ReservedMessage(S: Schema, d: nat, xs: seq<Scanned>, counts: seq<nat>, nUnknown: nat, m: HMessage)
    requires SchemaOk(S) && d < |S| && CountsOk(S[d].fields, xs, counts, nUnknown) && |counts| == |S[d].fields|
    requires |m.slots| == |S[d].fields| && m.unknown == []
    requires forall i | 0 <= i < |m.slots| :: ReadySlot0(S[d].fields, i, counts, m.slots[i])
    ensures Filled(S, S[d].fields, m, xs, 0) && MessageOf(m) == InitMessage(S[d].fields)
  {
    var fs := S[d].fields;
    hide SchemaOk, CountsOk, ReadySlot0, FilledSlot, SlotOf, InitSlot;
    forall i | 0 <= i < |fs| ensures FilledSlot(S, fs, i, xs, 0, m.slots[i]) && SlotOf(m.slots[i]) == InitSlot(fs[i]) {
      DescAt(S, d, i);
      ReadyIsFilled(S, fs, i, xs, counts, nUnknown, m.slots[i]);
    }
    assert MessageOf(m).slots == InitMessage(fs).slots;
  }

  lemma TableBlocks(rest: multiset<nat>, m: HMessage, table: Option<nat>)
    requires m.table == None
    ensures rest + BlocksOf(m.(table := table)) == rest + BlocksOf(m) + Opt(table)
    ensures MessageOf(m.(table := table)) == MessageOf(m)
  {
    var m' := m.(table := table);
    Whole(m);
    Whole(m');
    OptNone();
    assert MessageOf(m') == MessageOf(m) by {
      assert MessageOf(m').slots == MessageOf(m).slots && MessageOf(m').unknown == MessageOf(m).unknown;
    }
    hide *;
    var a, b, c := multiset{m.block}, SlotsBlocks(m.slots, 0), UnknownBlocks(m.unknown, 0);
    assert rest + (a + b + Opt(table) + c) == rest + (a + b + multiset{} + c) + Opt(table);
  }

  lemma TableFilled(S: Schema, fs: seq<Field>, m: HMessage, xs: seq<Scanned>, table: Option<nat>)
    requires Filled(S, fs, m, xs, 0)
    ensures Filled(S, fs, m.(table := table), xs, 0)
  {
    hide FilledSlot;
  }

  /** The allocations and the parsing pass, for members that have been scanned. */
  method BuildMessage(S: Schema, heap: Heap, d: nat, ghost data: seq<byte>, block: nat, slabs: SlabList, bitmap: array<byte>,
                      counts: seq<nat>, nUnknown: nat, ghost rest: multiset<nat>) returns (ok: bool, stray: bool, m: HMessage)
    requires SchemaOk(S) && NoOneofs(S) && d < |S| && slabs.Valid()
    requires ScanDone(S[d].fields, data, slabs.contents, counts, nUnknown, bitmap[..])
    requires heap.Valid() && heap.live == rest + multiset{block}
    modifies heap
    ensures !stray ==> heap.Valid() && heap.live == rest + BlocksOf(m)
    ensures heap.refusals >= old(heap.refusals) && (ok || stray ==> heap.refusals == old(heap.refusals))
    ensures !ok && heap.refusals == old(heap.refusals) ==> Decoding.Unpack(S, d, data).None?
    ensures stray ==> !ok
    ensures heap.refusals == old(heap.refusals) ==> (stray <==> UnpackStrays(S, d, data))
    ensures ok ==> Tight(S, d, m) && Decoding.Unpack(S, d, data) == Some(MessageOf(m))
    decreases Weight(Mems(slabs.contents)), 2
  {
    hide *;
    ghost var fs, xs := S[d].fields, slabs.contents;
    ScanDoneParts(fs, data, xs, counts, nUnknown, bitmap[..]);
    CountsShape(fs, xs, counts, nUnknown);
    AllPresent(S, d, xs, bitmap[..]);
    UnpackIs(S, d, data);
    stray := false;
    CountableAll(fs, xs);
    UnpackStraysIs(S, d, data);
    DoneInside(fs, data);
    ok, m := ReserveArrays(S, heap, d, block, bitmap, counts, rest);
    if !ok { return; }
    ReservedMessage(S, d, xs, counts, nUnknown, m);
    if nUnknown > 0 {
      var table := heap.Alloc();
      if table.None? { return false, stray, m; }
      TableBlocks(rest, m, table);
      OptSome(table.value);
      TableFilled(S, fs, m, xs, table);
      m := m.(table := table);
    }
    ScannedAllOk(fs, xs);
    AppliedStart(S, fs, Mems(xs));
    InsideStart(S, fs, xs);
    RoomsAre(fs, xs);
    UnpackStraysFails(S, d, data);
    PassOpen(S, d, xs, nUnknown, 0, m);
    ok, stray, m := ParseAll(S, heap, d, slabs, m, nUnknown, rest);
    PassStraysOpen(S, d, xs);
    if ok {
      PassOpen(S, d, xs, nUnknown, |xs|, m);
      AppliedEnd(S, fs, Mems(xs), MessageOf(m));
      FilledIsTight(S, d, m, xs);
    } else if heap.refusals == old(heap.refusals) {
      FailsIntro(S, d, xs);
    }
  }

  lemma CountableAll(fs: seq<Field>, xs: seq<Scanned>)
    requires AllScanned(fs, xs)
    ensures AllCountable(fs, Mems(xs))
  {
    hide MemberCountable, Countable, Faithful;
    forall k | 0 <= k < |xs| ensures MemberCountable(fs, Mems(xs)[k]) {
      ScannedAt(fs, xs, k);
      CountableIs(fs, xs[k]);
    }
  }

  lemma DoneInside(fs: seq<Field>, data: seq<byte>)
    ensures Scan(data).Some? ==> !ScanStrays(fs, data, SLAB_CAPACITY)
  {
    if ScanStrays(fs, data, SLAB_CAPACITY) { ScanStraysFails(fs, data, SLAB_CAPACITY); }
  }

  lemma ScanDoneParts(fs: seq<Field>, data: seq<byte>, xs: seq<Scanned>, counts: seq<nat>, nUnknown: nat, bits: seq<byte>)
    requires ScanDone(fs, data, xs, counts, nUnknown, bits)
    ensures Scan(data) == Some(Mems(xs)) && |xs| <= SLAB_CAPACITY && AllScanned(fs, xs)
    ensures CountsOk(fs, xs, counts, nUnknown) && MarksOk(fs, xs, bits) && Weight(Mems(xs)) <= |data|
  {
    hide AllScanned, CountsOk, MarksOk, Mems;
  }

  lemma Three(rest: multiset<nat>, a: multiset<nat>, b: multiset<nat>, c: multiset<nat>)
    ensures rest + a + b + c == rest + b + c + a && rest + a + b + c == rest + b + a + c && rest + a + b + c == rest + a + c + b
  {
  }

  lemma RefusedInside(S: Schema, d: nat, data: seq<byte>)
    requires d < |S| && ScanRefuses(S[d].fields, data)
    ensures UnpackStrays(S, d, data) <==> ScanStrays(S[d].fields, data, SLAB_CAPACITY)
  {
    UnpackStraysIs(S, d, data);
    hide Scan, ScanStrays, UnpackStrays, ApplyStrays, AllCountable, RequiredPresent;
  }

  lemma ScanStraysUnpack(S: Schema, d: nat, data: seq<byte>)
    requires d < |S|
    ensures ScanStrays(S[d].fields, data, SLAB_CAPACITY) ==> UnpackStrays(S, d, data)
  {
    UnpackStraysIs(S, d, data);
  }

  /**
   Unpacks a message.  Whatever is refused and whatever the bytes are, unless the source reads outside them or writes
   outside an array, the heap afterwards holds what it held before and, if a message is returned, exactly that message's
   blocks.  When nothing is refused the result is `Decoding.Unpack`'s, and `UnpackStrays` says exactly when the source
   strays.
   */
  method Unpack(S: Schema, heap: Heap, d: nat, data: seq<byte>, ghost rest: multiset<nat>) returns (r: Option<HMessage>, stray: bool)
    requires SchemaOk(S) && NoOneofs(S) && d < |S| && heap.Valid() && heap.live == rest
    modifies heap
    ensures heap.refusals >= old(heap.refusals) && (stray ==> heap.refusals == old(heap.refusals))
    ensures !stray ==> heap.Valid()
    ensures r.Some? ==>
      && !stray && heap.refusals == old(heap.refusals) && heap.live == rest + BlocksOf(r.value)
      && Tight(S, d, r.value) && Decoding.Unpack(S, d, data) == Some(MessageOf(r.value))
    ensures r.None? && !stray ==> heap.live == rest
    ensures r.None? && heap.refusals == old(heap.refusals) ==> Decoding.Unpack(S, d, data).None?
    ensures heap.refusals == old(heap.refusals) ==> (stray <==> UnpackStrays(S, d, data))
    decreases |data|, 5
  {
    hide *;
    stray := false;
    var rv := heap.Alloc();
    if rv.None? { return None, stray; }
    ghost var own := multiset{rv.value};
    var len := (|S[d].fields| + 7) / 8;
    var bitmapBlock: Option<nat> := None;
    OptNone();
    if len > 16 {
      bitmapBlock := heap.Alloc();
      OptSome(rv.value);
      if bitmapBlock.None? {
        FreeBlock(heap, rv, rest);
        return None, stray;
      }
      OptSome(bitmapBlock.value);
    }
    var bitmap := new byte[if len > 16 then len else 16];
    BitmapClear(bitmap);
    FirstSlab();
    var first := new Scanned[16](_ => Scanned(Member(0, 0, []), 0, None));
    var slabs := new SlabList(first);
    NoSlabBlocks(slabs);
    ghost var map0 := Opt(bitmapBlock);
    ScanStraysUnpack(S, d, data);
    var ok, counts, nUnknown;
    ok, stray, counts, nUnknown := ScanAll(S, heap, d, data, slabs, bitmap, rest + own + map0);
    if stray { return None, stray; }
    if !ok {
      if heap.refusals == old(heap.refusals) { RefusedInside(S, d, data); }
      Three(rest, own, map0, slabs.Blocks());
      OptSome(rv.value);
      FreeBlock(heap, rv, rest + map0 + slabs.Blocks());
      slabs.FreeAll(heap, rest + map0);
      FreeBlock(heap, bitmapBlock, rest);
      return None, stray;
    }
    ghost var tmp := slabs.Blocks();
    Three(rest, own, map0, tmp);
    ScanDoneParts(S[d].fields, data, slabs.contents, counts, nUnknown, bitmap[..]);
    var m;
    ok, stray, m := BuildMessage(S, heap, d, data, rv.value, slabs, bitmap, counts, nUnknown, rest + map0 + tmp);
    if stray { return None, stray; }
    Three(rest, map0, tmp, BlocksOf(m));
    if !ok {
      FreeUnpacked(heap, m, rest + map0 + tmp);
      slabs.FreeAll(heap, rest + map0);
      FreeBlock(heap, bitmapBlock, rest);
      return None, stray;
    }
    Three(rest, BlocksOf(m), map0, tmp);
    slabs.FreeAll(heap, rest + BlocksOf(m) + map0);
    FreeBlock(heap, bitmapBlock, rest + BlocksOf(m));
    r := Some(m);
  }

  lemma NoSlabBlocks(slabs: SlabList)
    requires slabs.blocks == []
    ensures slabs.Blocks() == multiset{}
  {
  }

  /** Unpacking and then freeing leaves the heap as it was, unless the source reads outside the bytes or writes outside an array. */
  method UnpackAndFree(S: Schema, heap: Heap, d: nat, data: seq<byte>) returns (stray: bool)
    requires SchemaOk(S) && NoOneofs(S) && d < |S| && heap.Valid()
    modifies heap
    ensures !stray ==> heap.Valid() && heap.live == old(heap.live)
    ensures stray ==> heap.refusals == old(heap.refusals)
    ensures heap.refusals == old(heap.refusals) ==> (stray <==> UnpackStrays(S, d, data))
  {
    ghost var rest := heap.live;
    var r;
    r, stray := Unpack(S, heap, d, data, rest);
    if r.Some? { FreeUnpacked(heap, r.value, rest); }
  }
}
