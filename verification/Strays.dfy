/**
 Where unpacking leaves its input or its arrays.

 `scan_length_prefixed_data` adds a length prefix and its own size in 32 bits.  If the sum wraps, what is left for the
 body is a huge unsigned number.  Most fields do not mind: the next tag found has no valid wire type.  But a repeated
 field of varints has its elements counted right away, over all those bytes.

 The elements of a repeated field are counted in 64 bits, and its array is allocated for the low 32 bits of the count.
 */
module Strays {
  import opened Seqs
  import opened Wire
  import opened Schema
  import opened Encoding
  import opened Decoding
  import opened Scanner
  import opened SlotFold
  import opened Reading

  /** The elements a member adds to field `f`, as the scanning pass counts them. */
  function Elements(f: Field, mem: Member): Option<nat> {
    if ReadsPacked(f, mem.wire) then Reserved(f.typ, Body(mem)) else Some(1)
  }

  predicate MemberCountable(fs: seq<Field>, mem: Member) {
    match FieldIndex(fs, mem.tag)
    case None => true
    case Some(i) => fs[i].rule.REPEATED? ==> Elements(fs[i], mem).Some?
  }

  predicate AllCountable(fs: seq<Field>, ms: seq<Member>) {
    forall k | 0 <= k < |ms| :: MemberCountable(fs, ms[k])
  }

  /** A repeated field whose packed elements are counted by walking over their bytes. */
  predicate Walked(fs: seq<Field>, tag: int) {
    match FieldIndex(fs, tag)
    case None => false
    case Some(i) => fs[i].rule.REPEATED? && IsVarint(fs[i].typ) && !fs[i].typ.BOOL?
  }

  /** The member at the start of `data` has a length prefix that wraps, and to more than 0, which would end the scan. */
  predicate WrapsAt(data: seq<byte>) {
    match ParseTag(data)
    case None => false
    case Some(h) => h.wire == WIRE_PREFIXED && Wraps(data[h.used..]) && ScannedLen(data[h.used..]) > 0
  }

  /** Such a member's packed elements are counted beyond the end of `data`. */
  predicate WrappedOutside(fs: seq<Field>, data: seq<byte>)
    requires ParseTag(data).Some?
  {
    var h := ParseTag(data).value;
    var rest := data[h.used..];
    match FieldIndex(fs, h.tag)
    case None => false
    case Some(i) =>
      && ReadsPacked(fs[i], WIRE_PREFIXED)
      && CountsOutside(fs[i].typ, Wrap64(ScannedLen(rest) - TermLen(rest, 5)), |rest| - TermLen(rest, 5))
  }

  /** Scanning finds complete members that can be counted and stored, and then such a prefix for such a field. */
  predicate ScanStrays(fs: seq<Field>, data: seq<byte>, room: nat)
    decreases |data|
  {
    data != [] && room > 0 &&
    if WrapsAt(data) then WrappedOutside(fs, data)
    else match ScanMember(data)
      case None => false
      case Some((mem, used)) => MemberCountable(fs, mem) && ScanStrays(fs, data[used..], room - 1)
  }

  /** What a member adds to the count of field `i`. */
  function Adds(fs: seq<Field>, i: nat, mem: Member): nat
    requires i < |fs|
  {
    if FieldIndex(fs, mem.tag) == Some(i) && Elements(fs[i], mem).Some? then Elements(fs[i], mem).value else 0
  }

  function Counted(fs: seq<Field>, i: nat, ms: seq<Member>): nat
    requires i < |fs|
  {
    if ms == [] then 0 else Adds(fs, i, ms[0]) + Counted(fs, i, ms[1..])
  }

  /** For how many elements the arrays are allocated. */
  function Capacities(fs: seq<Field>, ms: seq<Member>): (r: seq<nat>)
    ensures |r| == |fs|
  {
    seq(|fs|, i requires 0 <= i < |fs| => Wrap32(Counted(fs, i, ms)))
  }

  /** The elements of a packed body that are stored before it ends or turns out to be malformed. */
  function StoredCount(t: FieldType, body: seq<byte>): nat
    requires Packable(t)
    decreases |body|
  {
    if body == [] then 0 else
    var k := ElementLen(t, body);
    if k == 0 || (t.BOOL? && body[0] > 1) then 0 else 1 + StoredCount(t, body[k..])
  }

  /** A value of a repeated field is stored if the wire type is right, even if it turns out to be malformed. */
  predicate Stores(t: FieldType, wire: WireType) { t.BOOL? || wire == WireOf(t) }

  /** With `held` elements in an array of size `capacity`, a member is stored behind its end. */
  predicate Overruns(f: Field, held: nat, capacity: nat, mem: Member) {
    f.rule.REPEATED? &&
    if ReadsPacked(f, mem.wire) then held + StoredCount(f.typ, Body(mem)) > capacity
    else Stores(f.typ, mem.wire) && held >= capacity
  }

  /** A sub-message is unpacked, and that strays. */
  predicate ValueStrays(S: Schema, t: FieldType, mem: Member)
    decreases |mem.data|, 0
  {
    t.MESSAGE? && mem.wire == WIRE_PREFIXED && MemberOk(mem) && UnpackStrays(S, t.sub, Body(mem))
  }

  predicate MemberStrays(S: Schema, fs: seq<Field>, capacities: seq<nat>, acc: Message, mem: Member)
    requires |acc.slots| == |capacities| == |fs|
    decreases |mem.data|, 1
  {
    match FieldIndex(fs, mem.tag)
    case None => false
    case Some(i) => Overruns(fs[i], Held(acc.slots[i]), capacities[i], mem) || ValueStrays(S, fs[i].typ, mem)
  }

  /** The members are applied up to one that strays. */
  predicate ApplyStrays(S: Schema, fs: seq<Field>, capacities: seq<nat>, acc: Message, ms: seq<Member>)
    requires |acc.slots| == |capacities| == |fs| && AllOk(ms)
    decreases Weight(ms), 3
  {
    ms != [] &&
    (MemberStrays(S, fs, capacities, acc, ms[0])
     || match Apply(S, fs, acc, ms[0])
        case None => false
        case Some(next) => ApplyStrays(S, fs, capacities, next, ms[1..]))
  }

  /** Unpacking `data` reads outside it or writes outside an array, in its own passes or in those of a sub-message that is reached. */
  predicate UnpackStrays(S: Schema, d: nat, data: seq<byte>)
    decreases |data|, 4
  {
    d < |S| &&
    var fs := S[d].fields;
    || ScanStrays(fs, data, SLAB_CAPACITY)
    || match Scan(data)
       case None => false
       case Some(ms) =>
         && |ms| <= SLAB_CAPACITY && AllCountable(fs, ms) && RequiredPresent(fs, ms)
         && ApplyStrays(S, fs, Capacities(fs, ms), InitMessage(fs), ms)
  }

  // ---------------------------------------------------------------------------------------------
  // Along the scan
  // ---------------------------------------------------------------------------------------------

  lemma WrapsAtNone(data: seq<byte>)
    requires WrapsAt(data)
    ensures ScanMember(data).None? && ParseTag(data).Some? && data != []
  {
    var h := ParseTag(data).value;
    ScannedLenIs(data[h.used..]);
    hide TermLen, VarintValue, Wraps, ScannedLen;
  }

  /** One more complete member. */
  lemma ScanStraysGood(fs: seq<Field>, data: seq<byte>, room: nat, mem: Member, used: nat)
    requires data != [] && ScanMember(data) == Some((mem, used)) && used <= |data|
    ensures ScanStrays(fs, data, room) <==> room > 0 && MemberCountable(fs, mem) && ScanStrays(fs, data[used..], room - 1)
  {
    hide ScanMember, MemberCountable;
    if WrapsAt(data) { WrapsAtNone(data); }
  }

  /** No complete member, and no prefix that wraps. */
  lemma ScanStraysBad(fs: seq<Field>, data: seq<byte>, room: nat)
    requires ScanMember(data).None? && !WrapsAt(data)
    ensures !ScanStrays(fs, data, room)
  {
    hide ScanMember, WrapsAt;
  }

  lemma ScanStraysWraps(fs: seq<Field>, data: seq<byte>, room: nat)
    requires WrapsAt(data) && ParseTag(data).Some?
    ensures ScanStrays(fs, data, room) <==> room > 0 && WrappedOutside(fs, data)
  {
    WrapsAtNone(data);
    hide WrapsAt, ParseTag, WrappedOutside;
  }

  /** The input of a 64-bit program has less than 2^64 bytes, and so such a count ends inside only if there is none. */
  lemma WrappedOutsideIff(fs: seq<Field>, data: seq<byte>)
    requires WrapsAt(data) && ParseTag(data).Some? && |data| < TWO64
    ensures WrappedOutside(fs, data) <==> Walked(fs, ParseTag(data).value.tag)
  {
    var rest := data[ParseTag(data).value.used..];
    WrapsShape(rest);
    assert Wrap64(ScannedLen(rest) - 5) == TWO64 + ScannedLen(rest) - 5;
    hide ParseTag, ScannedLen, TermLen, WrapsAt, Wraps;
  }

  /** Bytes on which the scan strays are no sequence of complete members. */
  lemma {:induction false} ScanStraysFails(fs: seq<Field>, data: seq<byte>, room: nat)
    requires ScanStrays(fs, data, room)
    ensures Scan(data).None?
    decreases |data|
  {
    hide ScanMember, WrapsAt, MemberCountable, WrappedOutside;
    if WrapsAt(data) {
      WrapsAtNone(data);
    } else {
      ScanStraysFails(fs, data[ScanMember(data).value.1..], room - 1);
    }
  }

  // ---------------------------------------------------------------------------------------------
  // Elements, counted and stored
  // ---------------------------------------------------------------------------------------------

  lemma {:induction false} StoredAll(t: FieldType, body: seq<byte>)
    requires Packable(t) && ParsePacked(t, body).Some?
    ensures StoredCount(t, body) == |ParsePacked(t, body).value|
    decreases |body|
  {
    hide ElementLen, ElementValue;
    if body != [] { StoredAll(t, body[ElementLen(t, body)..]); }
  }

  lemma {:induction false} StoredReserved(t: FieldType, body: seq<byte>)
    requires Packable(t) && Reserved(t, body).Some?
    ensures StoredCount(t, body) <= Reserved(t, body).value <= |body|
    decreases |body|
  {
    ReservedShort(t, body);
    hide ElementLen, Reserved;
    if body != [] && ElementLen(t, body) > 0 {
      ReservedStep(t, body);
      StoredReserved(t, body[ElementLen(t, body)..]);
    }
  }

  lemma ReservedShort(t: FieldType, body: seq<byte>)
    ensures Reserved(t, body).Some? ==> Reserved(t, body).value <= |body|
  {
    TerminatorsShort(body);
  }

  lemma {:induction false} TerminatorsShort(s: seq<byte>)
    ensures Terminators(s) <= |s|
  {
    if s != [] { TerminatorsShort(s[1..]); }
  }

  /** The slot of a repeated field grows by what the scanning pass counted, and is in its array if nothing was stored behind it. */
  lemma StepHeld(S: Schema, f: Field, slot: Slot, mem: Member, capacity: nat)
    requires MemberOk(mem) && f.rule.REPEATED? && StepField(S, f, slot, mem).Some?
    ensures Elements(f, mem).Some?
    ensures Held(StepField(S, f, slot, mem).value) == Held(slot) + Elements(f, mem).value
    ensures Overruns(f, Held(slot), capacity, mem) <==> Held(StepField(S, f, slot, mem).value) > capacity
  {
    if ReadsPacked(f, mem.wire) {
      ReservedExactly(f.typ, Body(mem));
      StoredAll(f.typ, Body(mem));
      hide ParsePacked, MemberLen, Body, Reserved, StoredCount;
    } else {
      ParsedStores(S, f.typ, mem);
      hide ParseValue, MemberLen, Body, Stores;
    }
  }

  lemma ParsedStores(S: Schema, t: FieldType, mem: Member)
    requires MemberOk(mem) && ParseValue(S, t, mem).Some?
    ensures Stores(t, mem.wire)
  {
    hide MemberLen, Body, Unpack, FromVarint;
  }

  /** Repeated fields are in no oneof. */
  ghost predicate RepeatedPlain(fs: seq<Field>) { forall i | 0 <= i < |fs| && fs[i].rule.REPEATED? :: fs[i].oneof.None? }

  lemma RepeatedArePlain(S: Schema, d: nat)
    requires SchemaOk(S) && d < |S|
    ensures RepeatedPlain(S[d].fields)
  {
    assert DescOk(S, S[d]);
    assert forall i | 0 <= i < |S[d].fields| :: FieldOk(S, S[d].fields[i]);
  }

  lemma ApplyHeld(S: Schema, fs: seq<Field>, acc: Message, mem: Member, i: nat)
    requires |acc.slots| == |fs| && MemberOk(mem) && i < |fs| && fs[i].rule.REPEATED? && RepeatedPlain(fs)
    requires Apply(S, fs, acc, mem).Some?
    ensures Held(Apply(S, fs, acc, mem).value.slots[i]) == Held(acc.slots[i]) + Adds(fs, i, mem)
  {
    hide StepField, MemberOk, Elements, Held;
    if FieldIndex(fs, mem.tag) == Some(i) { StepHeld(S, fs[i], acc.slots[i], mem, 0); }
  }

  lemma {:induction false} ApplyAllHeld(S: Schema, fs: seq<Field>, acc: Message, ms: seq<Member>, i: nat)
    requires |acc.slots| == |fs| && AllOk(ms) && i < |fs| && fs[i].rule.REPEATED? && RepeatedPlain(fs)
    requires ApplyAll(S, fs, acc, ms).Some?
    ensures Held(ApplyAll(S, fs, acc, ms).value.slots[i]) == Held(acc.slots[i]) + Counted(fs, i, ms)
    decreases |ms|
  {
    hide Apply, MemberOk, Adds, Held, RepeatedPlain;
    if ms != [] {
      ApplyHeld(S, fs, acc, ms[0], i);
      ApplyAllHeld(S, fs, Apply(S, fs, acc, ms[0]).value, ms[1..], i);
    }
  }

  /** Counting never refuses what can be applied. */
  lemma {:induction false} ApplyAllCountable(S: Schema, fs: seq<Field>, acc: Message, ms: seq<Member>)
    requires |acc.slots| == |fs| && AllOk(ms) && ApplyAll(S, fs, acc, ms).Some?
    ensures AllCountable(fs, ms)
    decreases |ms|
  {
    hide StepField, MemberOk, Elements;
    if ms != [] {
      ApplyAllCountable(S, fs, Apply(S, fs, acc, ms[0]).value, ms[1..]);
      var i := FieldIndex(fs, ms[0].tag);
      if i.Some? && fs[i.value].rule.REPEATED? { StepHeld(S, fs[i.value], acc.slots[i.value], ms[0], 0); }
      assert forall k | 0 < k < |ms| :: ms[k] == ms[1..][k - 1];
    }
  }

  /** What can be applied in full is stored inside the arrays exactly if it ends up inside. */
  lemma MemberOverruns(S: Schema, fs: seq<Field>, capacities: seq<nat>, acc: Message, mem: Member)
    requires |acc.slots| == |capacities| == |fs| && MemberOk(mem) && RepeatedPlain(fs) && SchemaOk(S)
    requires Apply(S, fs, acc, mem).Some?
    ensures MemberStrays(S, fs, capacities, acc, mem) <==>
      exists i | 0 <= i < |fs| && fs[i].rule.REPEATED? ::
        FieldIndex(fs, mem.tag) == Some(i) && Held(Apply(S, fs, acc, mem).value.slots[i]) > capacities[i]
    decreases |mem.data|, 2
  {
    hide StepField, MemberOk, ValueStrays, Overruns, Held, SchemaOk;
    var i := FieldIndex(fs, mem.tag);
    if i.Some? {
      var f := fs[i.value];
      StepNoStray(S, f, acc.slots[i.value], mem);
      if f.rule.REPEATED? { StepHeld(S, f, acc.slots[i.value], mem, capacities[i.value]); }
      NotRepeated(f, Held(acc.slots[i.value]), capacities[i.value], mem);
    }
  }

  lemma NotRepeated(f: Field, held: nat, capacity: nat, mem: Member)
    ensures !f.rule.REPEATED? ==> !Overruns(f, held, capacity, mem)
  {
    hide StoredCount, Body, Stores;
  }

  lemma StepNoStray(S: Schema, f: Field, slot: Slot, mem: Member)
    requires SchemaOk(S) && MemberOk(mem) && StepField(S, f, slot, mem).Some?
    ensures !ValueStrays(S, f.typ, mem)
    decreases |mem.data|, 1
  {
    ValueStraysFails(S, f.typ, mem);
    MessageTyped(S, f.typ, mem);
    hide ParseValue, ParsePacked, MemberLen, Body, ValueStrays, SchemaOk, InBounds;
  }

  lemma MessageTyped(S: Schema, t: FieldType, mem: Member)
    ensures ValueStrays(S, t, mem) ==> t.MESSAGE?
  {
  }

  // ---------------------------------------------------------------------------------------------
  // Straying is failing, in `Decoding`
  // ---------------------------------------------------------------------------------------------

  lemma ValueStraysFails(S: Schema, t: FieldType, mem: Member)
    requires SchemaOk(S) && MemberOk(mem)
    ensures ValueStrays(S, t, mem) ==> ParseValue(S, t, mem).None?
    decreases |mem.data|, 0
  {
    hide Unpack, UnpackStrays, ParseLeaf, MemberOk, Body, SchemaOk;
    if ValueStrays(S, t, mem) {
      BodyShorter(mem);
      UnpackStraysFails(S, t.sub, Body(mem));
    }
  }

  lemma BodyShorter(mem: Member)
    requires MemberOk(mem) && mem.wire == WIRE_PREFIXED
    ensures |Body(mem)| < |mem.data|
  {
  }

  /** Members that can all be applied, to slots that end up inside the arrays, do not stray. */
  lemma {:induction false} ApplyStraysFails(S: Schema, fs: seq<Field>, capacities: seq<nat>, acc: Message, ms: seq<Member>)
    requires SchemaOk(S) && |acc.slots| == |capacities| == |fs| && AllOk(ms) && RepeatedPlain(fs)
    requires ApplyAll(S, fs, acc, ms).Some?
    requires forall i | 0 <= i < |fs| && fs[i].rule.REPEATED? :: Held(ApplyAll(S, fs, acc, ms).value.slots[i]) <= capacities[i]
    ensures !ApplyStrays(S, fs, capacities, acc, ms)
    decreases Weight(ms), 2
  {
    hide MemberStrays, Apply, MemberOk, SchemaOk, RepeatedPlain, Held, Counted;
    if ms != [] {
      AllOkUncons(ms);
      var next := Apply(S, fs, acc, ms[0]).value;
      MemberOverruns(S, fs, capacities, acc, ms[0]);
      forall i | 0 <= i < |fs| && fs[i].rule.REPEATED? ensures Held(next.slots[i]) <= capacities[i] {
        ApplyAllHeld(S, fs, next, ms[1..], i);
      }
      ApplyStraysFails(S, fs, capacities, next, ms[1..]);
    }
  }

  /** Members that can all be applied stray if a slot starts inside its array and ends outside. */
  lemma {:induction false} ApplyOverruns(S: Schema, fs: seq<Field>, capacities: seq<nat>, acc: Message, ms: seq<Member>, i: nat)
    requires SchemaOk(S) && |acc.slots| == |capacities| == |fs| && AllOk(ms) && RepeatedPlain(fs)
    requires ApplyAll(S, fs, acc, ms).Some? && i < |fs| && fs[i].rule.REPEATED?
    requires Held(acc.slots[i]) <= capacities[i] < Held(ApplyAll(S, fs, acc, ms).value.slots[i])
    ensures ApplyStrays(S, fs, capacities, acc, ms)
    decreases Weight(ms), 2
  {
    hide MemberStrays, Apply, MemberOk, SchemaOk, RepeatedPlain, Held, Elements;
    if ms != [] {
      AllOkUncons(ms);
      var next := Apply(S, fs, acc, ms[0]).value;
      if Held(next.slots[i]) > capacities[i] {
        ApplyHeld(S, fs, acc, ms[0], i);
        MemberOverruns(S, fs, capacities, acc, ms[0]);
      } else {
        ApplyOverruns(S, fs, capacities, next, ms[1..], i);
      }
    }
  }

  lemma InitHeld(fs: seq<Field>, i: nat)
    requires i < |fs|
    ensures Held(InitMessage(fs).slots[i]) == 0
  {
  }

  lemma CapacityAt(fs: seq<Field>, ms: seq<Member>, i: nat)
    requires i < |fs|
    ensures Capacities(fs, ms)[i] == Wrap32(Counted(fs, i, ms)) <= Counted(fs, i, ms)
    ensures Counted(fs, i, ms) < TWO32 <==> Capacities(fs, ms)[i] == Counted(fs, i, ms)
  {
    hide Counted;
  }

  lemma SingularApplied(S: Schema, fs: seq<Field>, acc: Message, mem: Member, i: nat)
    requires |acc.slots| == |fs| && MemberOk(mem) && i < |fs| && !fs[i].rule.REPEATED? && Held(acc.slots[i]) == 0
    ensures Apply(S, fs, acc, mem).Some? ==> Held(Apply(S, fs, acc, mem).value.slots[i]) == 0
  {
    hide MemberOk, ParseValue, ParsePacked, Body, InBounds, Replace;
  }

  /** A field that is not repeated holds no elements. */
  lemma {:induction false} SingularHeld(S: Schema, fs: seq<Field>, acc: Message, ms: seq<Member>, i: nat)
    requires |acc.slots| == |fs| && AllOk(ms) && i < |fs| && !fs[i].rule.REPEATED? && Held(acc.slots[i]) == 0
    requires ApplyAll(S, fs, acc, ms).Some?
    ensures Held(ApplyAll(S, fs, acc, ms).value.slots[i]) == 0
    decreases |ms|
  {
    hide MemberOk, Apply, Held;
    if ms != [] {
      SingularApplied(S, fs, acc, ms[0], i);
      SingularHeld(S, fs, Apply(S, fs, acc, ms[0]).value, ms[1..], i);
    }
  }

  /** Bytes whose members can all be applied make unpacking stray exactly if a repeated field gets 2^32 elements or more. */
  lemma AppliedStrays(S: Schema, d: nat, data: seq<byte>, ms: seq<Member>, m: Message)
    requires SchemaOk(S) && d < |S| && Scan(data) == Some(ms) && |ms| <= SLAB_CAPACITY && RequiredPresent(S[d].fields, ms)
    requires AllOk(ms) && ApplyAll(S, S[d].fields, InitMessage(S[d].fields), ms) == Some(m)
    ensures UnpackStrays(S, d, data) <==> !ArraysFit(m.slots)
    decreases |data|, 3
  {
    hide *;
    var fs := S[d].fields;
    var capacities := Capacities(fs, ms);
    RepeatedArePlain(S, d);
    InsideScan(S, d, data);
    ApplyAllCountable(S, fs, InitMessage(fs), ms);
    UnpackStraysIs(S, d, data);
    WeightOf(data);
    forall i | 0 <= i < |fs|
      ensures Held(InitMessage(fs).slots[i]) == 0
      ensures fs[i].rule.REPEATED? ==> Held(m.slots[i]) == Counted(fs, i, ms)
      ensures !fs[i].rule.REPEATED? ==> Held(m.slots[i]) == 0
    {
      InitHeld(fs, i);
      if fs[i].rule.REPEATED? { ApplyAllHeld(S, fs, InitMessage(fs), ms, i); } else { SingularHeld(S, fs, InitMessage(fs), ms, i); }
    }
    ArraysFitIs(m.slots);
    if ArraysFit(m.slots) {
      forall i | 0 <= i < |fs| && fs[i].rule.REPEATED? ensures Held(m.slots[i]) <= capacities[i] { CapacityAt(fs, ms, i); }
      ApplyStraysFails(S, fs, capacities, InitMessage(fs), ms);
    } else {
      var i :| 0 <= i < |m.slots| && Held(m.slots[i]) >= TWO32;
      CapacityAt(fs, ms, i);
      ApplyOverruns(S, fs, capacities, InitMessage(fs), ms, i);
    }
  }

  lemma ArraysFitIs(slots: seq<Slot>)
    ensures ArraysFit(slots) <==> forall i | 0 <= i < |slots| :: Held(slots[i]) < TWO32
    ensures TWO32 == 0x1_0000_0000
  {
    hide Held;
  }

  lemma WeightOf(data: seq<byte>)
    ensures Scan(data).Some? ==> AllOk(Scan(data).value) && Weight(Scan(data).value) <= |data|
  {
    hide Weight, AllOk;
  }

  lemma InsideScan(S: Schema, d: nat, data: seq<byte>)
    requires d < |S| && Scan(data).Some?
    ensures !ScanStrays(S[d].fields, data, SLAB_CAPACITY)
  {
    hide Scan, ScanStrays;
    if ScanStrays(S[d].fields, data, SLAB_CAPACITY) { ScanStraysFails(S[d].fields, data, SLAB_CAPACITY); }
  }

  lemma UnpackStraysFails(S: Schema, d: nat, data: seq<byte>)
    requires SchemaOk(S)
    ensures UnpackStrays(S, d, data) ==> Unpack(S, d, data).None?
    decreases |data|, 4
  {
    hide Scan, ScanStrays, ApplyStrays, ApplyAll, AllCountable, RequiredPresent, SchemaOk, ArraysFit, UnpackStrays, AllOk;
    if Unpack(S, d, data).Some? {
      WeightOf(data);
      AppliedStrays(S, d, data, Scan(data).value, Unpack(S, d, data).value);
    }
  }

  // ---------------------------------------------------------------------------------------------
  // Along the parsing pass
  // ---------------------------------------------------------------------------------------------

  /** Members that have been applied without straying. */
  lemma {:induction false} ApplyStraysAppend(S: Schema, fs: seq<Field>, capacities: seq<nat>, acc: Message, a: seq<Member>, b: seq<Member>)
    requires |acc.slots| == |capacities| == |fs| && AllOk(a) && AllOk(b) && AllOk(a + b) && ApplyAll(S, fs, acc, a).Some?
    ensures ApplyStrays(S, fs, capacities, acc, a + b) <==>
      ApplyStrays(S, fs, capacities, acc, a) || ApplyStrays(S, fs, capacities, ApplyAll(S, fs, acc, a).value, b)
    decreases |a|
  {
    hide MemberStrays, Apply, MemberOk;
    if a == [] {
      Empty(b);
    } else {
      SliceAppend(a, b, 1);
      AllOkUncons(a);
      AllOkUncons(a + b);
      ApplyStraysAppend(S, fs, capacities, Apply(S, fs, acc, a[0]).value, a[1..], b);
    }
  }

  lemma ApplyStraysFirst(S: Schema, fs: seq<Field>, capacities: seq<nat>, acc: Message, ms: seq<Member>)
    requires |acc.slots| == |capacities| == |fs| && AllOk(ms) && ms != [] && MemberOk(ms[0])
    ensures MemberStrays(S, fs, capacities, acc, ms[0]) ==> ApplyStrays(S, fs, capacities, acc, ms)
    ensures !MemberStrays(S, fs, capacities, acc, ms[0]) && Apply(S, fs, acc, ms[0]).None? ==> !ApplyStrays(S, fs, capacities, acc, ms)
  {
    hide MemberStrays, Apply;
  }

  lemma UnpackStraysIs(S: Schema, d: nat, data: seq<byte>)
    requires d < |S|
    ensures ScanStrays(S[d].fields, data, SLAB_CAPACITY) ==> UnpackStrays(S, d, data)
    ensures !ScanStrays(S[d].fields, data, SLAB_CAPACITY) && Scan(data).None? ==> !UnpackStrays(S, d, data)
    ensures Scan(data).Some? ==> AllOk(Scan(data).value)
    ensures Scan(data).Some? && !ScanStrays(S[d].fields, data, SLAB_CAPACITY) ==>
      (UnpackStrays(S, d, data) <==>
        var fs, ms := S[d].fields, Scan(data).value;
        && |ms| <= SLAB_CAPACITY && AllCountable(fs, ms) && RequiredPresent(fs, ms)
        && ApplyStrays(S, fs, Capacities(fs, ms), InitMessage(fs), ms))
  {
    hide Scan, ScanStrays, ApplyStrays, AllCountable, RequiredPresent, Capacities;
  }

  // ---------------------------------------------------------------------------------------------
  // A prefix that wraps
  // ---------------------------------------------------------------------------------------------

  lemma WrappedPrefix()
    ensures var rest: seq<byte> := [0xFF, 0xFF, 0xFF, 0xFF, 0x0F]; Wraps(rest) && ScannedLen(rest) == 4
  {
    var rest: seq<byte> := [0xFF, 0xFF, 0xFF, 0xFF, 0x0F];
    assert rest[..5] == rest && Terminated(rest);
    TerminatedUnique(rest, 5, 5);
    ParseUInt32Value(rest);
    ParseUInt32Groups(rest);
    assert ParseUInt32(rest) == 0xFFFF_FFFF;
    hide TermLen, VarintValue;
  }

  /** A tag with a length of 2^32 - 1 behind it. */
  function Wrapped(id: u32): seq<byte> { Tag(id, WIRE_PREFIXED) + [0xFF, 0xFF, 0xFF, 0xFF, 0x0F] }

  lemma WrappedAt(id: u32)
    ensures WrapsAt(Wrapped(id)) && ParseTag(Wrapped(id)) == Some(Header(id, WIRE_PREFIXED, |Tag(id, WIRE_PREFIXED)|))
  {
    var tag: seq<byte>, rest: seq<byte> := Tag(id, WIRE_PREFIXED), [0xFF, 0xFF, 0xFF, 0xFF, 0x0F];
    ParseTagInverse(id, WIRE_PREFIXED, rest);
    SplitAppend(tag, rest);
    WrappedPrefix();
    hide Wraps, ScannedLen, ParseTag, Tag;
  }

  /** Bytes that a 64-bit program can be given make the scan stray for exactly the descriptors that have a repeated field of integers or enumerators. */
  lemma CanStray(S: Schema, d: nat)
    requires SchemaOk(S) && d < |S|
    ensures (exists data: seq<byte> :: |data| < TWO64 && ScanStrays(S[d].fields, data, SLAB_CAPACITY)) <==>
      exists i | 0 <= i < |S[d].fields| :: Walked(S[d].fields, S[d].fields[i].id)
  {
    hide *;
    var fs := S[d].fields;
    if i :| 0 <= i < |fs| && Walked(fs, fs[i].id) {
      DescAt(S, d, i);
      IdOk(S, fs[i]);
      WrappedScan(fs, fs[i].id);
      assert ScanStrays(fs, Wrapped(fs[i].id), SLAB_CAPACITY);
    }
    if data: seq<byte> :| |data| < TWO64 && ScanStrays(fs, data, SLAB_CAPACITY) {
      var tag := WalkedTag(fs, data, SLAB_CAPACITY);
      WalkedField(fs, tag);
    }
  }

  lemma IdOk(S: Schema, f: Field)
    requires FieldOk(S, f)
    ensures 0 <= f.id < TWO32
  {
  }

  lemma WalkedField(fs: seq<Field>, tag: int)
    requires Walked(fs, tag)
    ensures exists i | 0 <= i < |fs| :: Walked(fs, fs[i].id)
  {
    var i := FieldIndex(fs, tag).value;
    assert Walked(fs, fs[i].id);
  }

  lemma WrappedScan(fs: seq<Field>, id: u32)
    ensures |Wrapped(id)| <= 10 < TWO32 < TWO64
    ensures ScanStrays(fs, Wrapped(id), SLAB_CAPACITY) <==> Walked(fs, id)
  {
    WrappedAt(id);
    WrappedOutsideIff(fs, Wrapped(id));
    hide WrapsAt, ScanStrays, WrappedOutside, Walked, ParseTag, Tag;
    ScanStraysWraps(fs, Wrapped(id), SLAB_CAPACITY);
  }

  lemma {:induction false} WalkedTag(fs: seq<Field>, data: seq<byte>, room: nat) returns (tag: int)
    requires ScanStrays(fs, data, room)
    ensures Walked(fs, tag)
    decreases |data|
  {
    hide ScanMember, MemberCountable, Walked, WrappedOutside;
    if WrapsAt(data) {
      tag := ParseTag(data).value.tag;
      OutsideIsWalked(fs, data);
    } else {
      tag := WalkedTag(fs, data[ScanMember(data).value.1..], room - 1);
    }
  }

  lemma OutsideIsWalked(fs: seq<Field>, data: seq<byte>)
    requires ParseTag(data).Some? && WrappedOutside(fs, data)
    ensures Walked(fs, ParseTag(data).value.tag)
  {
    hide ParseTag, ScannedLen, TermLen;
  }

  // ---------------------------------------------------------------------------------------------
  // Inputs of less than 2^32 bytes
  // ---------------------------------------------------------------------------------------------

  /** No descriptor has a repeated field whose packed elements are counted by walking. */
  ghost predicate NothingWalked(S: Schema) {
    forall d, tag | 0 <= d < |S| :: !Walked(S[d].fields, tag)
  }

  lemma {:induction false} CountedShort(fs: seq<Field>, i: nat, ms: seq<Member>)
    requires i < |fs| && AllOk(ms)
    ensures Counted(fs, i, ms) <= Weight(ms)
  {
    hide MemberOk, Adds;
    if ms != [] {
      AllOkUncons(ms);
      AddsShort(fs, i, ms[0]);
      CountedShort(fs, i, ms[1..]);
    }
  }

  lemma AddsShort(fs: seq<Field>, i: nat, mem: Member)
    requires i < |fs| && MemberOk(mem)
    ensures Adds(fs, i, mem) <= |mem.data|
  {
    BodyShort(mem);
    ReservedShort(fs[i].typ, Body(mem));
    hide Reserved, Body, MemberLen;
  }

  /** What has been counted has room. */
  lemma CountedFits(f: Field, held: nat, capacity: nat, mem: Member)
    requires f.rule.REPEATED? && Elements(f, mem).Some? && held + Elements(f, mem).value <= capacity
    ensures !Overruns(f, held, capacity, mem)
  {
    if ReadsPacked(f, mem.wire) { StoredReserved(f.typ, Body(mem)); }
    hide Reserved, Body, StoredCount, Stores;
  }

  lemma MemberInside(S: Schema, fs: seq<Field>, capacities: seq<nat>, acc: Message, mem: Member)
    requires SchemaOk(S) && NothingWalked(S) && |acc.slots| == |capacities| == |fs| && MemberOk(mem) && |mem.data| < TWO32
    requires MemberCountable(fs, mem)
    requires forall i | 0 <= i < |fs| && fs[i].rule.REPEATED? :: Held(acc.slots[i]) + Adds(fs, i, mem) <= capacities[i]
    ensures !MemberStrays(S, fs, capacities, acc, mem)
    decreases |mem.data|, 1
  {
    hide SchemaOk, NothingWalked, UnpackStrays, Overruns, MemberLen, Elements, Held;
    var i := FieldIndex(fs, mem.tag);
    if i.Some? {
      var f := fs[i.value];
      if f.typ.MESSAGE? && mem.wire == WIRE_PREFIXED {
        BodyShorter(mem);
        ShortInside(S, f.typ.sub, Body(mem));
      }
      NotRepeated(f, Held(acc.slots[i.value]), capacities[i.value], mem);
      if f.rule.REPEATED? { CountedFits(f, Held(acc.slots[i.value]), capacities[i.value], mem); }
    }
  }

  lemma {:induction false} ApplyInside(S: Schema, fs: seq<Field>, capacities: seq<nat>, acc: Message, ms: seq<Member>)
    requires SchemaOk(S) && NothingWalked(S) && RepeatedPlain(fs) && |acc.slots| == |capacities| == |fs|
    requires AllOk(ms) && AllCountable(fs, ms) && Weight(ms) < TWO32
    requires forall i | 0 <= i < |fs| && fs[i].rule.REPEATED? :: Held(acc.slots[i]) + Counted(fs, i, ms) <= capacities[i]
    ensures !ApplyStrays(S, fs, capacities, acc, ms)
    decreases Weight(ms), 2
  {
    hide SchemaOk, NothingWalked, RepeatedPlain, MemberStrays, MemberOk, MemberCountable, Apply, Held, Adds;
    if ms != [] {
      AllOkUncons(ms);
      MemberInside(S, fs, capacities, acc, ms[0]);
      if Apply(S, fs, acc, ms[0]).Some? {
        var next := Apply(S, fs, acc, ms[0]).value;
        forall i | 0 <= i < |fs| && fs[i].rule.REPEATED? ensures Held(next.slots[i]) + Counted(fs, i, ms[1..]) <= capacities[i] {
          ApplyHeld(S, fs, acc, ms[0], i);
        }
        assert forall k | 0 <= k < |ms| - 1 :: ms[1..][k] == ms[k + 1];
        ApplyInside(S, fs, capacities, next, ms[1..]);
      }
    }
  }

  lemma ShortInside(S: Schema, d: nat, data: seq<byte>)
    requires SchemaOk(S) && NothingWalked(S) && |data| < TWO32
    ensures !UnpackStrays(S, d, data)
    decreases |data|, 4
  {
    hide *;
    if d < |S| {
      var fs := S[d].fields;
      if ScanStrays(fs, data, SLAB_CAPACITY) {
        var tag := WalkedTag(fs, data, SLAB_CAPACITY);
        NotWalked(S, d, tag);
        assert false;
      }
      UnpackStraysIs(S, d, data);
      WeightOf(data);
      RepeatedArePlain(S, d);
      if UnpackStrays(S, d, data) {
        var ms := Scan(data).value;
        forall i | 0 <= i < |fs| && fs[i].rule.REPEATED?
          ensures Held(InitMessage(fs).slots[i]) + Counted(fs, i, ms) <= Capacities(fs, ms)[i]
        {
          InitHeld(fs, i);
          CountedShort(fs, i, ms);
          CapacityAt(fs, ms, i);
        }
        ApplyInside(S, fs, Capacities(fs, ms), InitMessage(fs), ms);
      }
    } else {
      NoDescriptor(S, d, data);
    }
  }

  lemma NoDescriptor(S: Schema, d: nat, data: seq<byte>)
    requires d >= |S|
    ensures !UnpackStrays(S, d, data)
  {
  }

  lemma NotWalked(S: Schema, d: nat, tag: int)
    requires NothingWalked(S) && d < |S|
    ensures !Walked(S[d].fields, tag)
  {
  }

  /** Less than 2^32 bytes make unpacking stray for exactly the schemas with a repeated field of integers or enumerators. */
  lemma ShortStrays(S: Schema)
    requires SchemaOk(S)
    ensures (exists d: nat, data: seq<byte> :: |data| < TWO32 && UnpackStrays(S, d, data)) <==> !NothingWalked(S)
  {
    hide UnpackStrays, SchemaOk;
    if NothingWalked(S) {
      forall d: nat, data: seq<byte> | |data| < TWO32 ensures !UnpackStrays(S, d, data) { ShortInside(S, d, data); }
    } else {
      var d: nat, tag :| d < |S| && Walked(S[d].fields, tag);
      var data := WalkedStrays(S, d, tag);
      assert UnpackStrays(S, d, data);
    }
  }

  lemma WalkedStrays(S: Schema, d: nat, tag: int) returns (data: seq<byte>)
    requires SchemaOk(S) && d < |S| && Walked(S[d].fields, tag)
    ensures |data| < TWO32 && UnpackStrays(S, d, data)
  {
    hide *;
    var fs := S[d].fields;
    WalkedField(fs, tag);
    var i :| 0 <= i < |fs| && Walked(fs, fs[i].id);
    DescAt(S, d, i);
    IdOk(S, fs[i]);
    WrappedScan(fs, fs[i].id);
    UnpackStraysIs(S, d, Wrapped(fs[i].id));
    data := Wrapped(fs[i].id);
  }

  // ---------------------------------------------------------------------------------------------
  // Two inputs
  // ---------------------------------------------------------------------------------------------

  /** A message with one repeated field, of type `t`. */
  function Repeats(t: FieldType): Schema {
    [Desc([Field(1, REPEATED, t, false, None, None)], [IntRange(1, 0), IntRange(0, 1)])]
  }

  /**
   The bytes 0A FF FF FF FF 0F: field 1 with a length of 2^32 - 1.  A parser of a repeated integer reads outside
   them; one of repeated strings or booleans refuses them.
   */
  lemma WrappedStrays(t: FieldType)
    ensures var S, a: seq<byte> := Repeats(t), [0x0A, 0xFF, 0xFF, 0xFF, 0xFF, 0x0F];
      && Unpack(S, 0, a).None?
      && (UnpackStrays(S, 0, a) <==> IsVarint(t) && !t.BOOL?)
  {
    var S, a: seq<byte> := Repeats(t), [0x0A, 0xFF, 0xFF, 0xFF, 0xFF, 0x0F];
    assert Tag(1, WIRE_PREFIXED) == [0x0A] && Wrapped(1) == a;
    assert FieldIndex(S[0].fields, 1) == Some(0);
    assert Walked(S[0].fields, 1) <==> IsVarint(t) && !t.BOOL?;
    hide *;
    WrappedAt(1);
    WrapsAtNone(a);
    WrappedScan(S[0].fields, 1);
    UnpackStraysIs(S, 0, a);
    ScanNothing(a);
    UnscannedFails(S, 0, a);
  }

  lemma ScanNothing(data: seq<byte>)
    requires data != [] && ScanMember(data).None?
    ensures Scan(data).None?
  {
    hide ScanMember;
  }

  lemma UnscannedFails(S: Schema, d: nat, data: seq<byte>)
    requires Scan(data).None?
    ensures Unpack(S, d, data).None?
  {
    hide Scan;
  }
}
