/**
 Concatenating two serialised messages merges them.  The theorem is about arbitrary byte strings that unpack,
 not only about the packer's output, and about every schema that has no `bytes` case in a oneof.
 */
module Concatenation {
  import opened Seqs
  import opened Wire
  import opened Schema
  import opened Encoding
  import opened Decoding
  import opened SlotFold
  import opened Merging
  import opened Reading

  // ---------------------------------------------------------------------------------------------
  // Members of a concatenation
  // ---------------------------------------------------------------------------------------------

  lemma TermLenAppend(s: seq<byte>, rest: seq<byte>, max: nat)
    requires TermLen(s, max) > 0
    ensures TermLen(s + rest, max) == TermLen(s, max)
  {
    var k := TermLen(s, max);
    SplitAt(s, k);
    Assoc(s[..k], s[k..], rest);
    TermLenFinds(s[..k], s[k..] + rest, max);
  }

  lemma ParseTagAppend(data: seq<byte>, rest: seq<byte>)
    requires ParseTag(data).Some?
    ensures ParseTag(data + rest) == ParseTag(data)
  {
    var k := TermLen(data, 5);
    TermLenAppend(data, rest, 5);
    SliceAppend(data, rest, k);
  }

  lemma MemberLenAppend(wire: WireType, s: seq<byte>, rest: seq<byte>)
    requires MemberLen(wire, s) > 0
    ensures MemberLen(wire, s + rest) == MemberLen(wire, s)
  {
    var len := MemberLen(wire, s);
    MemberLenPrefix(wire, s, len);
    MemberLenExtend(wire, s[..len], s[len..] + rest);
    SplitAt(s, len);
    Assoc(s[..len], s[len..], rest);
  }

  /** The header and length the scanner finds. */
  lemma ScanMemberParts(data: seq<byte>) returns (h: Header, len: nat)
    requires ScanMember(data).Some?
    ensures ParseTag(data) == Some(h) && h.used <= |data| && len == MemberLen(h.wire, data[h.used..]) > 0
    ensures ScanMember(data) == Some((Member(h.tag, h.wire, data[h.used..][..len]), h.used + len))
  {
    hide ParseTag, MemberLen;
    h := ParseTag(data).value;
    len := MemberLen(h.wire, data[h.used..]);
  }

  lemma ScanMemberFrom(data: seq<byte>, h: Header, len: nat)
    requires ParseTag(data) == Some(h) && h.used <= |data| && len == MemberLen(h.wire, data[h.used..]) > 0
    ensures ScanMember(data) == Some((Member(h.tag, h.wire, data[h.used..][..len]), h.used + len))
  {
    hide ParseTag, MemberLen;
  }

  lemma ScanMemberAppend(data: seq<byte>, rest: seq<byte>)
    requires ScanMember(data).Some?
    ensures ScanMember(data + rest) == ScanMember(data)
  {
    hide *;
    var h, len := ScanMemberParts(data);
    ParseTagAppend(data, rest);
    SliceAppend(data, rest, h.used);
    MemberLenAppend(h.wire, data[h.used..], rest);
    SliceAppend(data[h.used..], rest, len);
    ScanMemberFrom(data + rest, h, len);
  }

  lemma ScanNonempty(data: seq<byte>) returns (mem: Member, used: nat, ms: seq<Member>)
    requires Scan(data).Some? && data != []
    ensures ScanMember(data) == Some((mem, used)) && 0 < used <= |data| && Scan(data[used..]) == Some(ms)
    ensures Scan(data) == Some([mem] + ms)
  {
    mem, used := ScanMember(data).value.0, ScanMember(data).value.1;
    ms := Scan(data[used..]).value;
  }

  lemma {:induction false} ScanAppend(a: seq<byte>, b: seq<byte>)
    requires Scan(a).Some? && Scan(b).Some?
    ensures Scan(a + b) == Some(Scan(a).value + Scan(b).value)
    decreases |a|
  {
    hide *;
    NothingToScan();
    if a == [] {
      Empty(b);
      Empty(Scan(b).value);
    } else {
      var mem, used, ms := ScanNonempty(a);
      ScanMemberAppend(a, b);
      SliceAppend(a, b, used);
      ScanAppend(a[used..], b);
      ScanUnfold(a + b, mem, used, ms + Scan(b).value);
      Assoc([mem], ms, Scan(b).value);
    }
  }

  // ---------------------------------------------------------------------------------------------
  // What unpacking makes is typed
  // ---------------------------------------------------------------------------------------------

  lemma ParsePackedKinds(t: FieldType, body: seq<byte>)
    requires Packable(t) && ParsePacked(t, body).Some?
    ensures forall k | 0 <= k < |ParsePacked(t, body).value| :: KindOk(t, ParsePacked(t, body).value[k])
    decreases |body|
  {
    if body != [] {
      ParsePackedStep(t, body);
      ParsePackedKinds(t, body[ElementLen(t, body)..]);
    }
  }

  lemma NotMessage(S: Schema, t: FieldType, v: Value)
    requires KindOk(t, v) && !t.MESSAGE?
    ensures ValueTyped(S, t, v)
  {
  }

  lemma AppendTyped(S: Schema, f: Field, a: seq<Value>, b: seq<Value>)
    requires SlotTyped(S, f, Many(a)) && forall k | 0 <= k < |b| :: ValueTyped(S, f.typ, b[k])
    ensures SlotTyped(S, f, Many(a + b))
  {
    hide ValueTyped;
    assert forall k | 0 <= k < |a| + |b| :: (a + b)[k] == if k < |a| then a[k] else b[k - |a|];
  }

  lemma ParseValueTyped(S: Schema, t: FieldType, mem: Member)
    requires SchemaOk(S) && MemberOk(mem)
    ensures ParseValue(S, t, mem).Some? ==> ValueTyped(S, t, ParseValue(S, t, mem).value)
    decreases |mem.data|, 0
  {
    hide SchemaOk, Typed, Unpack, MemberLen, Body;
    if t.MESSAGE? {
      if mem.wire == WIRE_PREFIXED { UnpackTyped(S, t.sub, Body(mem)); }
    }
  }

  lemma StepFieldTyped(S: Schema, f: Field, slot: Slot, mem: Member)
    requires SchemaOk(S) && MemberOk(mem) && SlotTyped(S, f, slot)
    ensures StepField(S, f, slot, mem).Some? ==> SlotTyped(S, f, StepField(S, f, slot, mem).value)
    decreases |mem.data|, 1
  {
    hide SchemaOk, Typed, MergeMessages, ParseValue, ParsePacked, Body, MemberLen;
    if ReadsPacked(f, mem.wire) {
      if ParsePacked(f.typ, Body(mem)).Some? {
        var vs := ParsePacked(f.typ, Body(mem)).value;
        ParsePackedKinds(f.typ, Body(mem));
        forall k | 0 <= k < |vs| ensures ValueTyped(S, f.typ, vs[k]) { NotMessage(S, f.typ, vs[k]); }
        AppendTyped(S, f, slot.vs, vs);
      }
    } else if ParseValue(S, f.typ, mem).Some? {
      var v := ParseValue(S, f.typ, mem).value;
      ParseValueTyped(S, f.typ, mem);
      if f.rule.REPEATED? {
        AppendTyped(S, f, slot.vs, [v]);
      } else if f.typ.MESSAGE? && f.oneof.None? && slot.One? {
        MergeTyped(S, f.typ.sub, slot.v.m, v.m);
      }
    }
  }

  lemma {:induction false} FoldSlotTyped(S: Schema, fs: seq<Field>, i: nat, slot: Slot, ms: seq<Member>)
    requires SchemaOk(S) && i < |fs| && AllOk(ms) && SlotTyped(S, fs[i], slot) && (fs[i].oneof.Some? ==> !fs[i].rule.REPEATED?)
    ensures FoldSlot(S, fs, i, slot, ms).Some? ==> SlotTyped(S, fs[i], FoldSlot(S, fs, i, slot, ms).value)
    decreases Weight(ms), 0
  {
    hide SchemaOk, SlotTyped, StepField, MemberOk;
    if ms != [] {
      AllOkUncons(ms);
      if FieldIndex(fs, ms[0].tag) == Some(i) {
        StepFieldTyped(S, fs[i], slot, ms[0]);
      }
      if StepSlot(S, fs, i, slot, ms[0]).Some? {
        assert SlotTyped(S, fs[i], Unset) || fs[i].rule.REPEATED? by { UnsetTyped(S, fs[i]); }
        FoldSlotTyped(S, fs, i, StepSlot(S, fs, i, slot, ms[0]).value, ms[1..]);
      }
    }
  }

  lemma UnsetTyped(S: Schema, f: Field)
    ensures SlotTyped(S, f, Unset) <==> !f.rule.REPEATED?
  {
  }

  lemma InitTyped(S: Schema, f: Field)
    requires FieldOk(S, f)
    ensures SlotTyped(S, f, InitSlot(f)) && (f.oneof.Some? ==> !f.rule.REPEATED?)
  {
  }

  /** What unpacking a message amounts to. */
  lemma UnpackParts(S: Schema, d: nat, data: seq<byte>) returns (ms: seq<Member>)
    requires Unpack(S, d, data).Some?
    ensures d < |S| && Scan(data) == Some(ms) && AllOk(ms) && Weight(ms) <= |data| && |ms| <= SLAB_CAPACITY
    ensures RequiredPresent(S[d].fields, ms)
    ensures ApplyAll(S, S[d].fields, InitMessage(S[d].fields), ms) == Unpack(S, d, data)
    ensures ArraysFit(Unpack(S, d, data).value.slots)
  {
    ms := Scan(data).value;
  }

  lemma UnpackedSlot(S: Schema, d: nat, data: seq<byte>, ms: seq<Member>, i: nat)
    requires Unpack(S, d, data).Some? && Scan(data) == Some(ms)
    requires i < |Unpack(S, d, data).value.slots|
    ensures d < |S| && i < |S[d].fields| && AllOk(ms)
    ensures FoldSlot(S, S[d].fields, i, InitSlot(S[d].fields[i]), ms) == Some(Unpack(S, d, data).value.slots[i])
  {
    var fs := S[d].fields;
    ApplyAllSlot(S, fs, InitMessage(fs), ms, i);
  }

  lemma UnpackTyped(S: Schema, d: nat, data: seq<byte>)
    requires SchemaOk(S)
    ensures Unpack(S, d, data).Some? ==> Typed(S, d, Unpack(S, d, data).value)
    decreases |data|, 2
  {
    hide SlotTyped, Scan, ApplyAll, FieldOk, FoldSlot, InitSlot, SchemaOk, Unpack;
    if Unpack(S, d, data).Some? {
      var m := Unpack(S, d, data).value;
      var ms := UnpackParts(S, d, data);
      var fs := S[d].fields;
      forall i | 0 <= i < |fs| ensures SlotTyped(S, fs[i], m.slots[i]) {
        UnpackedSlot(S, d, data, ms, i);
        DescAt(S, d, i);
        InitTyped(S, fs[i]);
        FoldSlotTyped(S, fs, i, InitSlot(fs[i]), ms);
      }
    }
  }

  // ---------------------------------------------------------------------------------------------
  // One slot
  // ---------------------------------------------------------------------------------------------

  predicate Touched(fs: seq<Field>, i: nat, ms: seq<Member>)
    requires i < |fs|
  {
    exists k | 0 <= k < |ms| :: Touches(fs, i, ms[k])
  }

  lemma TouchedUncons(fs: seq<Field>, i: nat, ms: seq<Member>)
    requires i < |fs| && ms != []
    ensures Touched(fs, i, ms) <==> Touches(fs, i, ms[0]) || Touched(fs, i, ms[1..])
  {
    hide Touches;
    if Touched(fs, i, ms) && !Touches(fs, i, ms[0]) {
      var k :| 0 <= k < |ms| && Touches(fs, i, ms[k]);
      assert ms[1..][k - 1] == ms[k];
    }
    if Touched(fs, i, ms[1..]) {
      var k :| 0 <= k < |ms[1..]| && Touches(fs, i, ms[1..][k]);
      assert ms[k + 1] == ms[1..][k];
    }
  }

  lemma FoldUnfold(S: Schema, fs: seq<Field>, i: nat, slot: Slot, ms: seq<Member>)
    requires i < |fs|
    ensures FoldSlot(S, fs, i, slot, []) == Some(slot)
    ensures ms != [] && StepSlot(S, fs, i, slot, ms[0]).None? ==> FoldSlot(S, fs, i, slot, ms).None?
    ensures ms != [] && StepSlot(S, fs, i, slot, ms[0]).Some? ==>
      FoldSlot(S, fs, i, slot, ms) == FoldSlot(S, fs, i, StepSlot(S, fs, i, slot, ms[0]).value, ms[1..])
  {
    hide StepSlot;
  }

  lemma StepUntouched(S: Schema, fs: seq<Field>, i: nat, slot: Slot, mem: Member)
    requires i < |fs| && MemberOk(mem) && !Touches(fs, i, mem)
    ensures StepSlot(S, fs, i, slot, mem) == Some(slot)
  {
  }

  /** A field that neither repeats nor merges. */
  predicate Overwrites(f: Field) { !f.rule.REPEATED? && !(f.typ.MESSAGE? && f.oneof.None?) }

  lemma StepOverwrites(S: Schema, fs: seq<Field>, i: nat, s: Slot, t: Slot, mem: Member)
    requires i < |fs| && Overwrites(fs[i]) && Touches(fs, i, mem)
    ensures StepSlot(S, fs, i, s, mem) == StepSlot(S, fs, i, t, mem)
  {
    hide ParseValue, ParsePacked, MemberLen;
  }

  /** Once a member touches such a field, what the slot held before no longer matters. */
  lemma {:induction false} FoldForgets(S: Schema, fs: seq<Field>, i: nat, s: Slot, t: Slot, ms: seq<Member>)
    requires i < |fs| && Overwrites(fs[i]) && AllOk(ms) && Touched(fs, i, ms)
    ensures FoldSlot(S, fs, i, s, ms) == FoldSlot(S, fs, i, t, ms)
    decreases |ms|
  {
    hide *;
    if ms == [] {
      NothingTouched(fs, i);
    } else {
      AllOkUncons(ms);
      TouchedUncons(fs, i, ms);
      FoldUnfold(S, fs, i, s, ms);
      FoldUnfold(S, fs, i, t, ms);
      if Touches(fs, i, ms[0]) {
        StepOverwrites(S, fs, i, s, t, ms[0]);
      } else {
        StepUntouched(S, fs, i, s, ms[0]);
        StepUntouched(S, fs, i, t, ms[0]);
        FoldForgets(S, fs, i, s, t, ms[1..]);
      }
    }
  }

  lemma NothingTouched(fs: seq<Field>, i: nat)
    requires i < |fs|
    ensures !Touched(fs, i, [])
  {
  }

  lemma StepRepeated(S: Schema, fs: seq<Field>, i: nat, xs: seq<Value>, zs: seq<Value>, mem: Member)
    requires i < |fs| && fs[i].rule.REPEATED? && fs[i].oneof.None?
    ensures match StepSlot(S, fs, i, Many(zs), mem)
      case None => StepSlot(S, fs, i, Many(xs + zs), mem).None?
      case Some(r) => r.Many? && StepSlot(S, fs, i, Many(xs + zs), mem) == Some(Many(xs + r.vs))
  {
    hide ParseValue, ParsePacked, MemberLen, Body;
    if MemberOk(mem) && FieldIndex(fs, mem.tag) == Some(i) {
      var f := fs[i];
      if ReadsPacked(f, mem.wire) {
        if ParsePacked(f.typ, Body(mem)).Some? { Assoc(xs, zs, ParsePacked(f.typ, Body(mem)).value); }
      } else if ParseValue(S, f.typ, mem).Some? {
        Assoc(xs, zs, [ParseValue(S, f.typ, mem).value]);
      }
    }
  }

  /** Later elements go behind the earlier ones. */
  lemma {:induction false} FoldRepeated(S: Schema, fs: seq<Field>, i: nat, xs: seq<Value>, zs: seq<Value>, ms: seq<Member>)
    requires i < |fs| && fs[i].rule.REPEATED? && fs[i].oneof.None?
    ensures match FoldSlot(S, fs, i, Many(zs), ms)
      case None => FoldSlot(S, fs, i, Many(xs + zs), ms).None?
      case Some(r) => r.Many? && FoldSlot(S, fs, i, Many(xs + zs), ms) == Some(Many(xs + r.vs))
    decreases |ms|
  {
    hide *;
    FoldUnfold(S, fs, i, Many(zs), ms);
    FoldUnfold(S, fs, i, Many(xs + zs), ms);
    if ms != [] {
      StepRepeated(S, fs, i, xs, zs, ms[0]);
      if StepSlot(S, fs, i, Many(zs), ms[0]).Some? {
        FoldRepeated(S, fs, i, xs, StepSlot(S, fs, i, Many(zs), ms[0]).value.vs, ms[1..]);
      }
    }
  }

  /** An earlier sub-message `x` in front of the slot `z`. */
  function Before(S: Schema, t: FieldType, x: Message, z: Slot): Slot
    requires t.MESSAGE?
  {
    if z.One? && z.v.Msg? then One(Msg(MergeMessages(S, t.sub, x, z.v.m))) else One(Msg(x))
  }

  /** The sub-message that a member of field `i` holds. */
  function Occurrence(S: Schema, fs: seq<Field>, i: nat, mem: Member): Option<Message>
    requires i < |fs|
  {
    if MemberOk(mem) && FieldIndex(fs, mem.tag) == Some(i) then
      match ParseValue(S, fs[i].typ, mem)
      case Some(Msg(m)) => Some(m)
      case _ => None
    else None
  }

  /** All of them, in order. */
  function Occurrences(S: Schema, fs: seq<Field>, i: nat, ms: seq<Member>): seq<Message>
    requires i < |fs|
  {
    if ms == [] then [] else
    match Occurrence(S, fs, i, ms[0])
    case None => Occurrences(S, fs, i, ms[1..])
    case Some(m) => [m] + Occurrences(S, fs, i, ms[1..])
  }

  /** Merging them one after the other into `x` stays inside the descriptor. */
  predicate ChainInBounds(S: Schema, d: nat, x: Message, later: seq<Message>)
    decreases |later|
  {
    later == [] || (InBounds(S, d, x, later[0]) && ChainInBounds(S, d, MergeMessages(S, d, x, later[0]), later[1..]))
  }

  /** What that gives. */
  function Chain(S: Schema, d: nat, x: Message, later: seq<Message>): Message
    decreases |later|
  {
    if later == [] then x else Chain(S, d, MergeMessages(S, d, x, later[0]), later[1..])
  }

  lemma OccurrencesUnfold(S: Schema, fs: seq<Field>, i: nat, ms: seq<Member>)
    requires i < |fs|
    ensures ms == [] ==> Occurrences(S, fs, i, ms) == []
    ensures ms != [] && Occurrence(S, fs, i, ms[0]).None? ==> Occurrences(S, fs, i, ms) == Occurrences(S, fs, i, ms[1..])
    ensures ms != [] && Occurrence(S, fs, i, ms[0]).Some? ==>
      Occurrences(S, fs, i, ms) == [Occurrence(S, fs, i, ms[0]).value] + Occurrences(S, fs, i, ms[1..])
  {
    hide Occurrence;
  }

  lemma ChainUnfold(S: Schema, d: nat, x: Message, m: Message, later: seq<Message>)
    ensures ChainInBounds(S, d, x, [])
    ensures ChainInBounds(S, d, x, [m] + later) <==> InBounds(S, d, x, m) && ChainInBounds(S, d, MergeMessages(S, d, x, m), later)
    ensures Chain(S, d, x, []) == x && Chain(S, d, x, [m] + later) == Chain(S, d, MergeMessages(S, d, x, m), later)
  {
    hide InBounds, MergeMessages;
    assert ([m] + later)[1..] == later;
  }

  lemma StepMessage(S: Schema, fs: seq<Field>, i: nat, s: Slot, mem: Member)
    requires i < |fs| && fs[i].typ.MESSAGE? && fs[i].oneof.None? && !fs[i].rule.REPEATED?
    ensures StepSlot(S, fs, i, s, mem) ==
      match Occurrence(S, fs, i, mem)
      case None => if !MemberOk(mem) || FieldIndex(fs, mem.tag) == Some(i) then None else Some(s)
      case Some(v) => if ReplaceInBounds(S, fs[i], s, Msg(v)) then Some(One(Replace(S, fs[i], s, Msg(v)))) else None
    ensures Occurrence(S, fs, i, mem).Some? ==> MemberOk(mem) && ParseValue(S, fs[i].typ, mem) == Some(Msg(Occurrence(S, fs, i, mem).value))
  {
    hide InBounds, MergeMessages, ParsePacked, MemberOk, ParseValue;
    if MemberOk(mem) && FieldIndex(fs, mem.tag) == Some(i) && ParseValue(S, fs[i].typ, mem).Some? {
      assert KindOk(fs[i].typ, ParseValue(S, fs[i].typ, mem).value);
    }
  }

  lemma StepChains(S: Schema, fs: seq<Field>, i: nat, x: Message, z: Slot, mem: Member)
    requires i < |fs| && fs[i].typ.MESSAGE? && fs[i].oneof.None? && !fs[i].rule.REPEATED?
    requires StepSlot(S, fs, i, z, mem).Some?
    ensures StepSlot(S, fs, i, One(Msg(x)), mem) ==
      match Occurrence(S, fs, i, mem)
      case None => Some(One(Msg(x)))
      case Some(v) => if InBounds(S, fs[i].typ.sub, x, v) then Some(One(Msg(MergeMessages(S, fs[i].typ.sub, x, v)))) else None
  {
    hide MergeMessages, InBounds, Occurrence, StepSlot, ParseValue, MemberOk;
    StepMessage(S, fs, i, z, mem);
    StepMessage(S, fs, i, One(Msg(x)), mem);
  }

  /** Every further occurrence of a sub-message is merged into what is there, and the first that cannot be ends it. */
  lemma {:induction false} FoldChain(S: Schema, fs: seq<Field>, i: nat, x: Message, z: Slot, ms: seq<Member>)
    requires i < |fs| && fs[i].typ.MESSAGE? && fs[i].oneof.None? && !fs[i].rule.REPEATED? && FoldSlot(S, fs, i, z, ms).Some?
    ensures FoldSlot(S, fs, i, One(Msg(x)), ms) ==
      if ChainInBounds(S, fs[i].typ.sub, x, Occurrences(S, fs, i, ms))
      then Some(One(Msg(Chain(S, fs[i].typ.sub, x, Occurrences(S, fs, i, ms))))) else None
    decreases |ms|
  {
    hide *;
    var sub := fs[i].typ.sub;
    FoldUnfold(S, fs, i, z, ms);
    FoldUnfold(S, fs, i, One(Msg(x)), ms);
    OccurrencesUnfold(S, fs, i, ms);
    if ms == [] {
      ChainUnfold(S, sub, x, x, []);
    } else {
      StepChains(S, fs, i, x, z, ms[0]);
      var r := StepSlot(S, fs, i, z, ms[0]).value;
      match Occurrence(S, fs, i, ms[0])
      case None => FoldChain(S, fs, i, x, r, ms[1..]);
      case Some(v) =>
        FoldChain(S, fs, i, MergeMessages(S, sub, x, v), r, ms[1..]);
        ChainUnfold(S, sub, x, v, Occurrences(S, fs, i, ms[1..]));
    }
  }

  /** A member that is no occurrence changes neither slot; one that is, is merged into both, if it can be. */
  lemma StepMerges(S: Schema, fs: seq<Field>, i: nat, x: Message, z: Slot, mem: Member)
    requires SchemaOk(S) && OneofsMove(S) && i < |fs| && fs[i].typ.MESSAGE? && fs[i].oneof.None? && !fs[i].rule.REPEATED?
    requires Typed(S, fs[i].typ.sub, x) && SlotTyped(S, fs[i], z) && StepSlot(S, fs, i, z, mem).Some?
    ensures var sub, was := fs[i].typ.sub, Before(S, fs[i].typ, x, z); var r := StepSlot(S, fs, i, z, mem).value;
      && SlotTyped(S, fs[i], r)
      && match Occurrence(S, fs, i, mem)
         case None => r == z && StepSlot(S, fs, i, was, mem) == Some(was)
         case Some(v) =>
           && Before(S, fs[i].typ, x, r) == One(Msg(MergeMessages(S, sub, was.v.m, v)))
           && StepSlot(S, fs, i, was, mem) == if InBounds(S, sub, was.v.m, v) then Some(Before(S, fs[i].typ, x, r)) else None
  {
    hide SchemaOk, OneofsMove, Typed, MergeMessages, InBounds, Occurrence, StepSlot, ParseValue, MemberOk;
    StepMessage(S, fs, i, z, mem);
    StepMessage(S, fs, i, Before(S, fs[i].typ, x, z), mem);
    if Occurrence(S, fs, i, mem).Some? {
      var v := Occurrence(S, fs, i, mem).value;
      ParseValueTyped(S, fs[i].typ, mem);
      if z.One? {
        MergeTyped(S, fs[i].typ.sub, z.v.m, v);
        MergeAssoc(S, fs[i].typ.sub, x, z.v.m, v);
      }
    }
  }

  /** However many occurrences follow, they merge into the earlier sub-message as one, if each of them can be merged. */
  lemma {:induction false} FoldMerges(S: Schema, fs: seq<Field>, i: nat, x: Message, z: Slot, ms: seq<Member>)
    requires SchemaOk(S) && OneofsMove(S) && i < |fs| && fs[i].typ.MESSAGE? && fs[i].oneof.None? && !fs[i].rule.REPEATED?
    requires Typed(S, fs[i].typ.sub, x) && SlotTyped(S, fs[i], z) && FoldSlot(S, fs, i, z, ms).Some?
    ensures var was := Before(S, fs[i].typ, x, z);
      FoldSlot(S, fs, i, was, ms) ==
        if ChainInBounds(S, fs[i].typ.sub, was.v.m, Occurrences(S, fs, i, ms))
        then Some(Before(S, fs[i].typ, x, FoldSlot(S, fs, i, z, ms).value)) else None
    decreases |ms|
  {
    hide *;
    var sub, was := fs[i].typ.sub, Before(S, fs[i].typ, x, z);
    FoldUnfold(S, fs, i, z, ms);
    FoldUnfold(S, fs, i, was, ms);
    OccurrencesUnfold(S, fs, i, ms);
    BeforeIs(S, fs[i].typ, x, z);
    if ms == [] {
      ChainUnfold(S, sub, was.v.m, was.v.m, []);
    } else {
      StepMerges(S, fs, i, x, z, ms[0]);
      var r := StepSlot(S, fs, i, z, ms[0]).value;
      FoldMerges(S, fs, i, x, r, ms[1..]);
      BeforeIs(S, fs[i].typ, x, r);
      if Occurrence(S, fs, i, ms[0]).Some? {
        ChainUnfold(S, sub, was.v.m, Occurrence(S, fs, i, ms[0]).value, Occurrences(S, fs, i, ms[1..]));
      }
    }
  }

  lemma BeforeIs(S: Schema, t: FieldType, x: Message, z: Slot)
    requires t.MESSAGE?
    ensures Before(S, t, x, z).One? && Before(S, t, x, z).v.Msg?
  {
  }

  // ---------------------------------------------------------------------------------------------
  // Whole messages
  // ---------------------------------------------------------------------------------------------

  /** The slot of a concatenation, from the slots of its two halves and the members `later` of the second. */
  function ConcatSlot(S: Schema, fs: seq<Field>, i: nat, x: Slot, y: Slot, later: seq<Member>): Slot
    requires i < |fs|
  {
    var f := fs[i];
    if f.rule.REPEATED? then (if x.Many? && y.Many? then Many(x.vs + y.vs) else y)
    else if f.typ.MESSAGE? && f.oneof.None? then
      if x.One? && x.v.Msg? then One(Msg(Chain(S, f.typ.sub, x.v.m, Occurrences(S, fs, i, later)))) else y
    else if Touched(fs, i, later) then y else x
  }

  /** The message of a concatenation. */
  function Concat(S: Schema, fs: seq<Field>, x: Message, y: Message, later: seq<Member>): (r: Message)
    requires |fs| == |x.slots| == |y.slots|
    ensures |r.slots| == |fs|
  {
    Message(seq(|fs|, i requires 0 <= i < |fs| => ConcatSlot(S, fs, i, x.slots[i], y.slots[i], later)), x.unknown + y.unknown)
  }

  /** The same where occurrences may be merged in any order, so that those of the second half are merged first. */
  function JoinSlot(S: Schema, f: Field, x: Slot, y: Slot, touched: bool): Slot {
    if f.rule.REPEATED? then (if x.Many? && y.Many? then Many(x.vs + y.vs) else y)
    else if f.typ.MESSAGE? && f.oneof.None? then
      if x.One? && x.v.Msg? && y.One? && y.v.Msg? then One(Msg(MergeMessages(S, f.typ.sub, x.v.m, y.v.m)))
      else if y.Unset? then x else y
    else if touched then y else x
  }

  function Join(S: Schema, fs: seq<Field>, x: Message, y: Message, later: seq<Member>): (r: Message)
    requires |fs| == |x.slots| == |y.slots|
    ensures |r.slots| == |fs|
  {
    Message(seq(|fs|, i requires 0 <= i < |fs| => JoinSlot(S, fs[i], x.slots[i], y.slots[i], Touched(fs, i, later))),
            x.unknown + y.unknown)
  }

  /** The sub-messages of the second half can be merged into the first one's. */
  ghost predicate Meets(S: Schema, fs: seq<Field>, i: nat, x: Slot, later: seq<Member>)
    requires i < |fs|
  {
    fs[i].typ.MESSAGE? && fs[i].oneof.None? && x.One? && x.v.Msg? ==>
      ChainInBounds(S, fs[i].typ.sub, x.v.m, Occurrences(S, fs, i, later))
  }

  lemma FoldJoins(S: Schema, fs: seq<Field>, i: nat, x: Slot, y: Slot, ms: seq<Member>)
    requires SchemaOk(S) && OneofsMove(S) && i < |fs| && FieldOk(S, fs[i]) && AllOk(ms)
    requires SlotTyped(S, fs[i], x) && SlotTyped(S, fs[i], y)
    requires FoldSlot(S, fs, i, InitSlot(fs[i]), ms) == Some(y)
    ensures FoldSlot(S, fs, i, x, ms) ==
      if Meets(S, fs, i, x, ms) then Some(JoinSlot(S, fs[i], x, y, Touched(fs, i, ms))) else None
  {
    hide SchemaOk, OneofsMove, FoldSlot, MergeMessages, Typed, AllOk, Touches, Touched, ChainInBounds, Occurrences;
    var f := fs[i];
    if f.rule.REPEATED? {
      Empty(x.vs);
      FoldRepeated(S, fs, i, x.vs, [], ms);
    } else if f.typ.MESSAGE? && f.oneof.None? {
      if x.One? { FoldMerges(S, fs, i, x.v.m, Unset, ms); } else { assert x == InitSlot(f); }
    } else if Touched(fs, i, ms) {
      FoldForgets(S, fs, i, x, InitSlot(f), ms);
    } else {
      FoldNotTouched(S, fs, i, x, ms);
    }
  }

  lemma FoldConcat(S: Schema, fs: seq<Field>, i: nat, x: Slot, y: Slot, ms: seq<Member>)
    requires i < |fs| && FieldOk(S, fs[i]) && AllOk(ms)
    requires SlotTyped(S, fs[i], x) && SlotTyped(S, fs[i], y)
    requires FoldSlot(S, fs, i, InitSlot(fs[i]), ms) == Some(y)
    ensures FoldSlot(S, fs, i, x, ms) == if Meets(S, fs, i, x, ms) then Some(ConcatSlot(S, fs, i, x, y, ms)) else None
  {
    hide FoldSlot, MergeMessages, Typed, AllOk, Touches, Touched, ChainInBounds, Chain, Occurrences;
    var f := fs[i];
    if f.rule.REPEATED? {
      Empty(x.vs);
      FoldRepeated(S, fs, i, x.vs, [], ms);
    } else if f.typ.MESSAGE? && f.oneof.None? {
      if x.One? { FoldChain(S, fs, i, x.v.m, InitSlot(f), ms); } else { assert x == InitSlot(f); }
    } else if Touched(fs, i, ms) {
      FoldForgets(S, fs, i, x, InitSlot(f), ms);
    } else {
      FoldNotTouched(S, fs, i, x, ms);
    }
  }

  lemma FoldNotTouched(S: Schema, fs: seq<Field>, i: nat, x: Slot, ms: seq<Member>)
    requires i < |fs| && AllOk(ms) && !Touched(fs, i, ms)
    ensures FoldSlot(S, fs, i, x, ms) == Some(x)
  {
    FoldUntouched(S, fs, i, x, ms);
  }

  lemma RequiredStillPresent(fs: seq<Field>, a: seq<Member>, b: seq<Member>)
    requires RequiredPresent(fs, a)
    ensures RequiredPresent(fs, a + b)
  {
    forall i | 0 <= i < |fs| && fs[i].rule.REQUIRED? && fs[i].default.None?
      ensures exists k :: 0 <= k < |a + b| && (a + b)[k].tag == fs[i].id
    {
      var k :| 0 <= k < |a| && a[k].tag == fs[i].id;
      assert (a + b)[k].tag == fs[i].id;
    }
  }

  lemma UnpackFrom(S: Schema, d: nat, data: seq<byte>, ms: seq<Member>, r: Message)
    requires d < |S| && Scan(data) == Some(ms) && AllOk(ms) && RequiredPresent(S[d].fields, ms)
    requires ApplyAll(S, S[d].fields, InitMessage(S[d].fields), ms) == Some(r)
    ensures Unpack(S, d, data) == if |ms| <= SLAB_CAPACITY && ArraysFit(r.slots) then Some(r) else None
  {
    hide Scan, ApplyAll, ArraysFit;
  }

  /**
   Unpacking the concatenation of two serialised messages succeeds unless there are too many members, a repeated
   field has too many elements together, or an occurrence of a sub-message in the second cannot be merged into what is
   there because both leave a oneof unset.  It gives the first message with the second one behind it: repeated fields
   append, occurrences of singular sub-messages are merged in order, and any other field is the second message's if the
   second half mentions it or another case of its oneof.
   */
  lemma UnpackConcat(S: Schema, d: nat, a: seq<byte>, b: seq<byte>)
    requires SchemaOk(S) && Unpack(S, d, a).Some? && Unpack(S, d, b).Some?
    ensures d < |S| && Scan(a).Some? && Scan(b).Some?
    ensures var fs, x, y, later := S[d].fields, Unpack(S, d, a).value, Unpack(S, d, b).value, Scan(b).value;
      Unpack(S, d, a + b) ==
        if
          && |Scan(a).value| + |later| <= SLAB_CAPACITY && ArraysFit(Concat(S, fs, x, y, later).slots)
          && forall i | 0 <= i < |fs| :: Meets(S, fs, i, x.slots[i], later)
        then Some(Concat(S, fs, x, y, later))
        else None
  {
    hide *;
    var x, y := Unpack(S, d, a).value, Unpack(S, d, b).value;
    var msA := UnpackParts(S, d, a);
    var msB := UnpackParts(S, d, b);
    var fs := S[d].fields;
    var r := Concat(S, fs, x, y, msB);
    var init := InitMessage(fs);
    ScanAppend(a, b);
    RequiredStillPresent(fs, msA, msB);
    Joined(fs, msA, msB);
    forall i | 0 <= i < |fs|
      ensures FoldSlot(S, fs, i, init.slots[i], msA + msB) == if Meets(S, fs, i, x.slots[i], msB) then Some(r.slots[i]) else None
    {
      InitAt(fs, i);
      JoinAt(S, fs, x, y, msB, i);
      HalvesAt(S, d, a, b, i);
      FoldConcat(S, fs, i, x.slots[i], y.slots[i], msB);
      FoldSlotAppend(S, fs, i, init.slots[i], msA, msB);
    }
    if forall i | 0 <= i < |fs| :: Meets(S, fs, i, x.slots[i], msB) {
      UnknownJoined(S, fs, msA, msB, x, y);
      ApplyAllBySlots(S, fs, init, msA + msB, r);
      UnpackFrom(S, d, a + b, msA + msB, r);
    } else {
      var i :| 0 <= i < |fs| && !Meets(S, fs, i, x.slots[i], msB);
      ApplyAllSlot(S, fs, init, msA + msB, i);
      UnpackNone(S, d, a + b, msA + msB);
    }
  }

  /** Field `i` of the two halves. */
  lemma HalvesAt(S: Schema, d: nat, a: seq<byte>, b: seq<byte>, i: nat)
    requires SchemaOk(S) && Unpack(S, d, a).Some? && Unpack(S, d, b).Some? && i < |Unpack(S, d, a).value.slots|
    ensures d < |S| && i < |S[d].fields| == |Unpack(S, d, a).value.slots| == |Unpack(S, d, b).value.slots|
    ensures FieldOk(S, S[d].fields[i]) && Scan(a).Some? && AllOk(Scan(a).value) && Scan(b).Some? && AllOk(Scan(b).value)
    ensures var fs, x, y := S[d].fields, Unpack(S, d, a).value, Unpack(S, d, b).value;
      && SlotTyped(S, fs[i], x.slots[i]) && SlotTyped(S, fs[i], y.slots[i])
      && FoldSlot(S, fs, i, InitSlot(fs[i]), Scan(a).value) == Some(x.slots[i])
      && FoldSlot(S, fs, i, InitSlot(fs[i]), Scan(b).value) == Some(y.slots[i])
  {
    hide *;
    var msA := UnpackParts(S, d, a);
    var msB := UnpackParts(S, d, b);
    UnpackTyped(S, d, a);
    UnpackTyped(S, d, b);
    TypedSlot(S, d, Unpack(S, d, a).value, i);
    TypedSlot(S, d, Unpack(S, d, b).value, i);
    DescAt(S, d, i);
    UnpackedSlot(S, d, a, msA, i);
    UnpackedSlot(S, d, b, msB, i);
  }

  /** In schemas in which the order of merging does not matter, the sub-messages of the two halves are merged once. */
  lemma UnpackConcatMerges(S: Schema, d: nat, a: seq<byte>, b: seq<byte>)
    requires SchemaOk(S) && OneofsMove(S) && Unpack(S, d, a).Some? && Unpack(S, d, b).Some?
    ensures d < |S| && Scan(a).Some? && Scan(b).Some?
    ensures var fs, x, y, later := S[d].fields, Unpack(S, d, a).value, Unpack(S, d, b).value, Scan(b).value;
      Unpack(S, d, a + b) ==
        if
          && |Scan(a).value| + |later| <= SLAB_CAPACITY && ArraysFit(Join(S, fs, x, y, later).slots)
          && forall i | 0 <= i < |fs| :: Meets(S, fs, i, x.slots[i], later)
        then Some(Join(S, fs, x, y, later))
        else None
  {
    hide *;
    UnpackConcat(S, d, a, b);
    var fs, x, y, later := S[d].fields, Unpack(S, d, a).value, Unpack(S, d, b).value, Scan(b).value;
    if forall i | 0 <= i < |fs| :: Meets(S, fs, i, x.slots[i], later) {
      forall i | 0 <= i < |fs| ensures Join(S, fs, x, y, later).slots[i] == Concat(S, fs, x, y, later).slots[i] {
        JoinAt(S, fs, x, y, later, i);
        HalvesAt(S, d, a, b, i);
        FoldJoins(S, fs, i, x.slots[i], y.slots[i], later);
        FoldConcat(S, fs, i, x.slots[i], y.slots[i], later);
      }
      JoinAt(S, fs, x, y, later, 0);
      SameMessage(Join(S, fs, x, y, later), Concat(S, fs, x, y, later));
    }
  }

  lemma UnpackNone(S: Schema, d: nat, data: seq<byte>, ms: seq<Member>)
    requires d < |S| && Scan(data) == Some(ms) && AllOk(ms)
    requires ApplyAll(S, S[d].fields, InitMessage(S[d].fields), ms).None?
    ensures Unpack(S, d, data).None?
  {
    hide Scan, ApplyAll;
  }

  lemma InitAt(fs: seq<Field>, i: nat)
    requires i < |fs|
    ensures InitMessage(fs).slots[i] == InitSlot(fs[i])
  {
  }

  lemma JoinAt(S: Schema, fs: seq<Field>, x: Message, y: Message, later: seq<Member>, i: nat)
    requires |fs| == |x.slots| == |y.slots|
    ensures i < |fs| ==> Join(S, fs, x, y, later).slots[i] == JoinSlot(S, fs[i], x.slots[i], y.slots[i], Touched(fs, i, later))
    ensures i < |fs| ==> Concat(S, fs, x, y, later).slots[i] == ConcatSlot(S, fs, i, x.slots[i], y.slots[i], later)
    ensures Join(S, fs, x, y, later).unknown == Concat(S, fs, x, y, later).unknown
  {
    hide JoinSlot, ConcatSlot;
  }

  lemma UnknownJoined(S: Schema, fs: seq<Field>, a: seq<Member>, b: seq<Member>, x: Message, y: Message)
    requires AllOk(a) && AllOk(b) && |x.slots| == |y.slots| == |fs|
    requires ApplyAll(S, fs, InitMessage(fs), a) == Some(x) && ApplyAll(S, fs, InitMessage(fs), b) == Some(y)
    ensures Concat(S, fs, x, y, b).unknown == InitMessage(fs).unknown + UnknownOf(fs, a + b)
  {
    hide ApplyAll, UnknownOf, AllOk, ConcatSlot;
    ApplyAllUnknown(S, fs, InitMessage(fs), a);
    ApplyAllUnknown(S, fs, InitMessage(fs), b);
    UnknownOfAppend(fs, a, b);
  }

  // ---------------------------------------------------------------------------------------------
  // Last One Wins
  // ---------------------------------------------------------------------------------------------

  lemma StepTouches(S: Schema, fs: seq<Field>, i: nat, s: Slot, mem: Member)
    requires i < |fs| && Overwrites(fs[i]) && FieldIndex(fs, mem.tag) == Some(i)
    ensures StepSlot(S, fs, i, s, mem).Some? ==> StepSlot(S, fs, i, s, mem).value.One?
  {
    hide ParseValue, ParsePacked, MemberLen;
  }

  /** The last member of a oneof decides which of its cases is set. */
  lemma {:induction false} LastOfGroup(S: Schema, fs: seq<Field>, i: nat, ms: seq<Member>) returns (j: nat)
    requires i < |fs| && Overwrites(fs[i]) && AllOk(ms) && Touched(fs, i, ms)
    requires forall k | 0 <= k < |fs| && SameGroup(fs[i], fs[k]) :: Overwrites(fs[k])
    ensures j < |fs| && (j == i || SameGroup(fs[i], fs[j]))
    ensures forall s :: FoldSlot(S, fs, j, s, ms).Some? ==> FoldSlot(S, fs, j, s, ms).value.One?
    decreases |ms|
  {
    hide Overwrites, MemberOk, Touched, StepSlot, FoldSlot;
    NothingTouched(fs, i);
    TouchedUncons(fs, i, ms);
    AllOkUncons(ms);
    if Touched(fs, i, ms[1..]) {
      j := LastOfGroup(S, fs, i, ms[1..]);
      forall s ensures FoldSlot(S, fs, j, s, ms).Some? ==> FoldSlot(S, fs, j, s, ms).value.One? {
        FoldUnfold(S, fs, j, s, ms);
      }
    } else {
      j := FieldIndex(fs, ms[0].tag).value;
      SameTouched(fs, i, j, ms[1..]);
      forall s ensures FoldSlot(S, fs, j, s, ms).Some? ==> FoldSlot(S, fs, j, s, ms).value.One? {
        FoldUnfold(S, fs, j, s, ms);
        StepTouches(S, fs, j, s, ms[0]);
        if StepSlot(S, fs, j, s, ms[0]).Some? {
          FoldNotTouched(S, fs, j, StepSlot(S, fs, j, s, ms[0]).value, ms[1..]);
        }
      }
    }
  }

  lemma SameTouched(fs: seq<Field>, i: nat, j: nat, ms: seq<Member>)
    requires i < |fs| && j < |fs| && (j == i || SameGroup(fs[i], fs[j]))
    ensures Touched(fs, j, ms) == Touched(fs, i, ms)
  {
    assert forall k | 0 <= k < |ms| :: Touches(fs, i, ms[k]) == Touches(fs, j, ms[k]);
  }

  ghost predicate GroupsOk(S: Schema, fs: seq<Field>) {
    forall k | 0 <= k < |fs| :: FieldOk(S, fs[k])
  }

  /** An unpacked message itself shows which of its fields the bytes mention, unless a required field has a default. */
  lemma TouchedIfSet(S: Schema, fs: seq<Field>, i: nat, y: Message, ms: seq<Member>)
    requires i < |fs| == |y.slots| && AllOk(ms) && Overwrites(fs[i]) && GroupsOk(S, fs)
    requires forall k | 0 <= k < |fs| :: FoldSlot(S, fs, k, InitSlot(fs[k]), ms) == Some(y.slots[k])
    requires fs[i].rule.REQUIRED? ==> fs[i].default.None?
    ensures Touched(fs, i, ms) <==> if fs[i].oneof.Some? then !GroupFree(fs, y.slots, fs[i]) else !y.slots[i].Unset?
  {
    hide FoldSlot, MemberOk, Touched;
    var f := fs[i];
    assert FieldOk(S, f);
    assert forall k | 0 <= k < |fs| && SameGroup(f, fs[k]) :: FieldOk(S, fs[k]) && SameGroup(fs[k], f);
    if Touched(fs, i, ms) {
      var j := LastOfGroup(S, fs, i, ms);
      assert FoldSlot(S, fs, j, InitSlot(fs[j]), ms) == Some(y.slots[j]);
      assert y.slots[j].One?;
      assert f.oneof.Some? ==> SameGroup(fs[j], f);
    } else {
      forall j | 0 <= j < |fs| && (j == i || SameGroup(fs[j], f)) ensures y.slots[j].Unset? {
        assert FieldOk(S, fs[j]);
        SameTouched(fs, i, j, ms);
        FoldNotTouched(S, fs, j, InitSlot(fs[j]), ms);
        assert FoldSlot(S, fs, j, InitSlot(fs[j]), ms) == Some(y.slots[j]);
      }
    }
  }

  /** No sub-message that occurs in both halves loses anything. */
  ghost predicate SubmessagesKept(S: Schema, fs: seq<Field>, x: seq<Slot>, y: seq<Slot>)
    requires |fs| == |x| == |y|
  {
    forall i | 0 <= i < |fs| && fs[i].typ.MESSAGE? && fs[i].oneof.None? && x[i].One? && x[i].v.Msg? && y[i].One? && y[i].v.Msg? ::
      Kept(S, fs[i].typ.sub, x[i].v.m, y[i].v.m)
  }

  ghost predicate NoRequiredDefault(fs: seq<Field>) {
    forall i | 0 <= i < |fs| :: fs[i].rule.REQUIRED? ==> fs[i].default.None?
  }

  lemma JoinIsLastWins(S: Schema, f: Field, x: Slot, y: Slot, touched: bool, groupFree: bool)
    requires SlotTyped(S, f, x) && SlotTyped(S, f, y)
    requires Overwrites(f) ==> touched == if f.oneof.Some? then !groupFree else !y.Unset?
    ensures JoinSlot(S, f, x, y, touched) == LastWinsSlot(S, f, x, y, groupFree) <==>
      KeptPair(S, f, x, y)
  {
    hide Typed, MergeMessages, LastWins, Kept;
    if f.typ.MESSAGE? && f.oneof.None? && x.One? && y.One? { KeptValues(S, f.typ.sub, x.v.m, y.v.m); }
  }

  lemma JoinUnknown(S: Schema, fs: seq<Field>, d: nat, x: Message, y: Message, later: seq<Member>)
    requires d < |S| && fs == S[d].fields && |fs| == |x.slots| == |y.slots|
    ensures Join(S, fs, x, y, later).unknown == LastWins(S, d, x, y).unknown
    ensures |LastWins(S, d, x, y).slots| == |fs|
  {
  }

  lemma KeptAt(S: Schema, fs: seq<Field>, x: seq<Slot>, y: seq<Slot>)
    requires |fs| == |x| == |y|
    ensures SubmessagesKept(S, fs, x, y) <==> forall i | 0 <= i < |fs| :: KeptPair(S, fs[i], x[i], y[i])
  {
    hide Kept;
    if forall i | 0 <= i < |fs| :: KeptPair(S, fs[i], x[i], y[i]) {
      forall i | 0 <= i < |fs| && fs[i].typ.MESSAGE? && fs[i].oneof.None? && x[i].One? && x[i].v.Msg? && y[i].One? && y[i].v.Msg?
        ensures Kept(S, fs[i].typ.sub, x[i].v.m, y[i].v.m) { assert KeptPair(S, fs[i], x[i], y[i]); }
    }
  }

  ghost predicate KeptPair(S: Schema, f: Field, x: Slot, y: Slot) {
    f.typ.MESSAGE? && f.oneof.None? && x.One? && x.v.Msg? && y.One? && y.v.Msg? ==> Kept(S, f.typ.sub, x.v.m, y.v.m)
  }

  /**
   "Last One Wins": the concatenation stands for the specification's merge of the two messages exactly when
   `merge_messages` loses nothing on the sub-messages the two have in common.
   */
  lemma UnpackConcatLastWins(S: Schema, d: nat, a: seq<byte>, b: seq<byte>)
    requires SchemaOk(S) && OneofsMove(S) && Unpack(S, d, a).Some? && Unpack(S, d, b).Some?
    requires NoRequiredDefault(S[d].fields) && Unpack(S, d, a + b).Some?
    ensures Unpack(S, d, a + b) == Some(LastWins(S, d, Unpack(S, d, a).value, Unpack(S, d, b).value)) <==>
      SubmessagesKept(S, S[d].fields, Unpack(S, d, a).value.slots, Unpack(S, d, b).value.slots)
  {
    hide *;
    var x, y, fs := Unpack(S, d, a).value, Unpack(S, d, b).value, S[d].fields;
    UnpackConcatMerges(S, d, a, b);
    var ms := Scan(b).value;
    var r, lw := Join(S, fs, x, y, ms), LastWins(S, d, x, y);
    JoinUnknown(S, fs, d, x, y, ms);
    forall i | 0 <= i < |fs| ensures r.slots[i] == lw.slots[i] <==> KeptPair(S, fs[i], x.slots[i], y.slots[i]) {
      JoinIsLastWinsAt(S, d, a, b, i);
    }
    KeptAt(S, fs, x.slots, y.slots);
    SameMessage(r, lw);
  }

  lemma SameMessage(m: Message, n: Message)
    requires |m.slots| == |n.slots| && m.unknown == n.unknown
    ensures m == n <==> forall i | 0 <= i < |m.slots| :: m.slots[i] == n.slots[i]
  {
    if forall i | 0 <= i < |m.slots| :: m.slots[i] == n.slots[i] { assert m.slots == n.slots; }
  }

  lemma JoinIsLastWinsAt(S: Schema, d: nat, a: seq<byte>, b: seq<byte>, i: nat)
    requires SchemaOk(S) && Unpack(S, d, a).Some? && Unpack(S, d, b).Some? && NoRequiredDefault(S[d].fields)
    requires i < |S[d].fields| && Scan(b).Some?
    ensures var fs, x, y := S[d].fields, Unpack(S, d, a).value, Unpack(S, d, b).value;
      Join(S, fs, x, y, Scan(b).value).slots[i] == LastWins(S, d, x, y).slots[i] <==> KeptPair(S, fs[i], x.slots[i], y.slots[i])
  {
    var x, y, fs, ms := Unpack(S, d, a).value, Unpack(S, d, b).value, S[d].fields, Scan(b).value;
    hide *;
    JoinAt(S, fs, x, y, ms, i);
    LastWinsAt(S, d, x, y, i);
    DescAt(S, d, i);
    UnpackTyped(S, d, a);
    UnpackTyped(S, d, b);
    TypedSlot(S, d, x, i);
    TypedSlot(S, d, y, i);
    TouchedInUnpacked(S, d, b, i);
    JoinIsLastWins(S, fs[i], x.slots[i], y.slots[i], Touched(fs, i, ms), GroupFree(fs, y.slots, fs[i]));
  }

  lemma TouchedInUnpacked(S: Schema, d: nat, data: seq<byte>, i: nat)
    requires SchemaOk(S) && Unpack(S, d, data).Some? && NoRequiredDefault(S[d].fields) && Scan(data).Some?
    requires i < |S[d].fields|
    ensures var fs, y := S[d].fields, Unpack(S, d, data).value;
      Overwrites(fs[i]) ==>
        Touched(fs, i, Scan(data).value) == if fs[i].oneof.Some? then !GroupFree(fs, y.slots, fs[i]) else !y.slots[i].Unset?
  {
    hide *;
    var fs, y, ms := S[d].fields, Unpack(S, d, data).value, Scan(data).value;
    forall k | 0 <= k < |fs| ensures FieldOk(S, fs[k]) && FoldSlot(S, fs, k, InitSlot(fs[k]), ms) == Some(y.slots[k]) {
      DescAt(S, d, k);
      UnpackedSlot(S, d, data, ms, k);
    }
    AllFieldsOk(S, fs);
    NoDefaultAt(fs, i);
    if Overwrites(fs[i]) {
      UnpackedSlot(S, d, data, ms, i);
      TouchedIfSet(S, fs, i, y, ms);
    }
  }

  lemma AllFieldsOk(S: Schema, fs: seq<Field>)
    requires forall k | 0 <= k < |fs| :: FieldOk(S, fs[k])
    ensures GroupsOk(S, fs)
  {
  }

  lemma NoDefaultAt(fs: seq<Field>, i: nat)
    requires NoRequiredDefault(fs) && i < |fs|
    ensures fs[i].rule.REQUIRED? ==> fs[i].default.None?
  {
  }

  // ---------------------------------------------------------------------------------------------
  // A sub-message that cannot be merged
  // ---------------------------------------------------------------------------------------------

  const CASE := Field(1, OPTIONAL, INT32, false, Some(0), None)
  const HOLDER := Field(1, OPTIONAL, MESSAGE(1), false, None, None)
  const ONE_RANGE := [IntRange(1, 0), IntRange(0, 1)]

  /** A message with one sub-message, whose only field is the case of a oneof. */
  function HoldsOneof(): Schema {
    [Desc([HOLDER], ONE_RANGE), Desc([CASE], ONE_RANGE)]
  }

  lemma OnlyField(fs: seq<Field>)
    requires |fs| == 1
    ensures FieldIndex(fs, fs[0].id) == Some(0)
  {
  }

  lemma EmptyOccurrence()
    ensures var S, mem := HoldsOneof(), Member(1, WIRE_PREFIXED, [0]);
      MemberOk(mem) && ParseValue(S, HOLDER.typ, mem) == Some(Msg(Message([Unset], [])))
  {
    var S, mem := HoldsOneof(), Member(1, WIRE_PREFIXED, [0]);
    TerminatedUnique([0], 1, 5);
    assert [0][..1] == [0] && VarintValue([0]) == 0 + 128 * VarintValue([0][1..]);
    assert Body(mem) == [];
    assert Scan([]) == Some([]);
    assert InitMessage([CASE]) == Message([Unset], []);
  }

  /** One member, for a message with a single field. */
  lemma ApplyOnly(S: Schema, f: Field, acc: Message, mem: Member)
    requires |acc.slots| == 1 && MemberOk(mem) && mem.tag == f.id
    ensures Apply(S, [f], acc, mem) ==
      match StepField(S, f, acc.slots[0], mem)
      case None => None
      case Some(s) => Some(acc.(slots := [s]))
  {
    hide StepField, MemberOk;
    OnlyField([f]);
    if Apply(S, [f], acc, mem).Some? {
      assert Apply(S, [f], acc, mem).value.slots == [StepField(S, f, acc.slots[0], mem).value];
    }
  }

  lemma OccurrenceSteps()
    ensures var S, mem, inner := HoldsOneof(), Member(1, WIRE_PREFIXED, [0]), Message([Unset], []);
      && MemberOk(mem)
      && StepField(S, HOLDER, Unset, mem) == Some(One(Msg(inner)))
      && StepField(S, HOLDER, One(Msg(inner)), mem).None?
  {
    var S, mem, inner := HoldsOneof(), Member(1, WIRE_PREFIXED, [0]), Message([Unset], []);
    EmptyOccurrence();
    hide ParseValue, MemberOk;
    assert !InBounds(S, 1, inner, inner) by {
      assert inner.slots[0].Unset? && S[1].fields[0].oneof.Some?;
    }
  }

  lemma OccurrenceBytes()
    ensures var mem := Member(1, WIRE_PREFIXED, [0]);
      && EncodeMembers([mem]) == [0x0A, 0x00] && EncodeMembers([mem, mem]) == [0x0A, 0x00] + [0x0A, 0x00]
      && (MemberOk(mem) ==> Scan([0x0A, 0x00]) == Some([mem]) && Scan([0x0A, 0x00] + [0x0A, 0x00]) == Some([mem, mem]))
  {
    var mem := Member(1, WIRE_PREFIXED, [0]);
    assert Tag(1, WIRE_PREFIXED) == [0x0A];
    assert EncodeMember(mem) == [0x0A, 0x00];
    EncodeMembersAppend([mem], [mem]);
    assert [mem, mem] == [mem] + [mem] && [mem][1..] == [];
    hide MemberOk, Scan;
    if MemberOk(mem) {
      ScanInverse([mem]);
      ScanInverse([mem, mem]);
    }
  }

  lemma ApplyLast(S: Schema, fs: seq<Field>, acc: Message, mem: Member)
    requires |acc.slots| == |fs| && MemberOk(mem)
    ensures AllOk([mem]) && ApplyAll(S, fs, acc, [mem]) == Apply(S, fs, acc, mem)
  {
    hide MemberOk, Apply;
    assert [mem][1..] == [];
  }

  lemma ApplyTwo(S: Schema, fs: seq<Field>, acc: Message, mem: Member)
    requires |acc.slots| == |fs| && MemberOk(mem)
    ensures AllOk([mem, mem])
    ensures ApplyAll(S, fs, acc, [mem, mem]) ==
      match Apply(S, fs, acc, mem) case None => None case Some(next) => Apply(S, fs, next, mem)
  {
    hide MemberOk, Apply;
    assert [mem, mem][1..] == [mem];
    if Apply(S, fs, acc, mem).Some? { ApplyLast(S, fs, Apply(S, fs, acc, mem).value, mem); }
  }

  /**
   The bytes 0A 00 say that the sub-message is there and empty.  Sent once they unpack; sent twice, merging the two
   occurrences looks for a case that neither has.
   */
  lemma TwiceEmpty()
    ensures var S, a := HoldsOneof(), [0x0A, 0x00];
      && SchemaOk(S) && Unpack(S, 0, a) == Some(Message([One(Msg(Message([Unset], [])))], []))
      && Unpack(S, 0, a + a).None?
  {
    var S, mem, inner := HoldsOneof(), Member(1, WIRE_PREFIXED, [0]), Message([Unset], []);
    var start, held := Message([Unset], []), Message([One(Msg(inner))], []);
    HoldsOneofOk();
    hide *;
    OccurrenceBytes();
    OccurrenceSteps();
    ApplyOnly(S, HOLDER, start, mem);
    ApplyOnly(S, HOLDER, held, mem);
    ApplyLast(S, [HOLDER], start, mem);
    ApplyTwo(S, [HOLDER], start, mem);
    UnpackIs(S, 0, [0x0A, 0x00], [mem]);
    UnpackIs(S, 0, [0x0A, 0x00] + [0x0A, 0x00], [mem, mem]);
  }

  lemma HoldsOneofOk()
    ensures var S := HoldsOneof(); SchemaOk(S) && |S| == 2 && S[0].fields == [HOLDER] && InitMessage([HOLDER]) == Message([Unset], [])
    ensures HOLDER.id == 1 && forall ms :: RequiredPresent([HOLDER], ms)
    ensures 2 <= SLAB_CAPACITY
  {
    assert FieldOk(HoldsOneof(), HOLDER) && FieldOk(HoldsOneof(), CASE);
    assert InitMessage([HOLDER]).slots == [Unset];
  }

  lemma UnpackIs(S: Schema, d: nat, data: seq<byte>, ms: seq<Member>)
    requires d < |S| && Scan(data) == Some(ms) && AllOk(ms) && |ms| <= SLAB_CAPACITY && RequiredPresent(S[d].fields, ms)
    ensures Unpack(S, d, data) ==
      match ApplyAll(S, S[d].fields, InitMessage(S[d].fields), ms)
      case None => None
      case Some(m) => if ArraysFit(m.slots) then Some(m) else None
  {
    hide Scan, ApplyAll, ArraysFit;
  }
}
