/**
 Required fields, seen on the message: what a field holds that the bytes do not mention, and when unpacking accepts the
 message that the members give.
 */
module RequiredFields {
  import opened Wire
  import opened Schema
  import opened Encoding
  import opened Decoding
  import opened SlotFold
  import opened Reading
  import opened Concatenation
  import opened WireReading

  /** Some member has the id of field `i` or of another case of its oneof. */
  ghost predicate Mentioned(fs: seq<Field>, i: nat, ms: seq<Member>)
    requires i < |fs|
  {
    exists k, j | 0 <= k < |ms| && 0 <= j < |fs| ::
      ms[k].tag == fs[j].id && (j == i || (fs[i].oneof.Some? && fs[i].oneof == fs[j].oneof))
  }

  lemma MentionedIff(fs: seq<Field>, i: nat, ms: seq<Member>)
    requires SortedIds(fs) && i < |fs|
    ensures Mentioned(fs, i, ms) <==> Touched(fs, i, ms)
  {
    if k, j :| 0 <= k < |ms| && 0 <= j < |fs| && ms[k].tag == fs[j].id
               && (j == i || (fs[i].oneof.Some? && fs[i].oneof == fs[j].oneof)) {
      FieldIndexOf(fs, j);
      assert Touches(fs, i, ms[k]);
    }
    if Touched(fs, i, ms) {
      var k :| 0 <= k < |ms| && Touches(fs, i, ms[k]);
      var j := FieldIndex(fs, ms[k].tag).value;
      assert ms[k].tag == fs[j].id;
    }
  }

  /** A field that is not mentioned: an empty list, a required field's default, or not set. */
  lemma NotMentioned(S: Schema, fs: seq<Field>, ms: seq<Member>, m: Message, i: nat)
    requires SortedIds(fs) && AllOk(ms) && i < |fs| && !Mentioned(fs, i, ms)
    requires ApplyAll(S, fs, InitMessage(fs), ms) == Some(m)
    ensures m.slots[i] ==
      if fs[i].rule == REPEATED then Many([])
      else if fs[i].rule == REQUIRED && fs[i].default.Some? then One(fs[i].default.value)
      else Unset
  {
    hide SortedIds, Mentioned, Touched, ApplyAll, FoldSlot;
    MentionedIff(fs, i, ms);
    ApplyAllSlot(S, fs, InitMessage(fs), ms, i);
    FoldNotTouched(S, fs, i, InitSlot(fs[i]), ms);
  }

  lemma StepRequired(S: Schema, fs: seq<Field>, i: nat, slot: Slot, mem: Member)
    requires SortedIds(fs) && i < |fs| && FieldOk(S, fs[i]) && fs[i].rule == REQUIRED && MemberOk(mem)
    ensures StepSlot(S, fs, i, slot, mem).Some? ==>
      StepSlot(S, fs, i, slot, mem).value.One? || (StepSlot(S, fs, i, slot, mem).value == slot && mem.tag != fs[i].id)
  {
    FieldIndexOf(fs, i);
    hide ParseValue, MemberOk, InBounds, MergeMessages, SortedIds;
  }

  lemma {:induction false} FoldRequired(S: Schema, fs: seq<Field>, i: nat, slot: Slot, ms: seq<Member>)
    requires SortedIds(fs) && i < |fs| && FieldOk(S, fs[i]) && fs[i].rule == REQUIRED && AllOk(ms)
    requires slot.One? || exists k :: 0 <= k < |ms| && ms[k].tag == fs[i].id
    ensures FoldSlot(S, fs, i, slot, ms).Some? ==> FoldSlot(S, fs, i, slot, ms).value.One?
    decreases |ms|
  {
    hide StepSlot, FieldOk, SortedIds, MemberOk;
    if ms != [] && StepSlot(S, fs, i, slot, ms[0]).Some? {
      var next := StepSlot(S, fs, i, slot, ms[0]).value;
      StepRequired(S, fs, i, slot, ms[0]);
      if !next.One? {
        var k :| 0 <= k < |ms| && ms[k].tag == fs[i].id;
        assert ms[1..][k - 1] == ms[k];
      }
      FoldRequired(S, fs, i, next, ms[1..]);
    }
  }

  /** A required field is set if and only if it has a default or its id occurs. */
  lemma RequiredSetIff(S: Schema, fs: seq<Field>, ms: seq<Member>, m: Message, i: nat)
    requires SortedIds(fs) && AllOk(ms) && i < |fs| && FieldOk(S, fs[i]) && fs[i].rule == REQUIRED
    requires ApplyAll(S, fs, InitMessage(fs), ms) == Some(m)
    ensures m.slots[i] != Unset <==> fs[i].default.Some? || exists k :: 0 <= k < |ms| && ms[k].tag == fs[i].id
  {
    hide SortedIds, ApplyAll, FoldSlot, MemberOk;
    if fs[i].default.Some? || exists k :: 0 <= k < |ms| && ms[k].tag == fs[i].id {
      ApplyAllSlot(S, fs, InitMessage(fs), ms, i);
      FoldRequired(S, fs, i, InitSlot(fs[i]), ms);
    } else {
      NotMentioned(S, fs, ms, m, i);
    }
  }

  ghost predicate RequiredSet(fs: seq<Field>, slots: seq<Slot>)
    requires |fs| == |slots|
  {
    forall i | 0 <= i < |fs| :: fs[i].rule == REQUIRED ==> slots[i] != Unset
  }

  lemma RequiredPresentIff(S: Schema, d: nat, ms: seq<Member>, m: Message)
    requires SchemaOk(S) && d < |S| && AllOk(ms)
    requires ApplyAll(S, S[d].fields, InitMessage(S[d].fields), ms) == Some(m)
    ensures RequiredPresent(S[d].fields, ms) <==> RequiredSet(S[d].fields, m.slots)
  {
    hide SortedIds, ApplyAll, FieldOk, MemberOk, RangesOk;
    var fs := S[d].fields;
    assert DescOk(S, S[d]);
    forall i | 0 <= i < |fs| && fs[i].rule == REQUIRED
      ensures m.slots[i] != Unset <==> fs[i].default.Some? || exists k :: 0 <= k < |ms| && ms[k].tag == fs[i].id
    {
      RequiredSetIff(S, fs, ms, m, i);
    }
  }

  /**
   When a byte string unpacks, and to what: it splits into at most 2^27 - 16 members, they give this message, every
   required field of it is set, and no list holds 2^32 elements.
   */
  lemma UnpackIff(S: Schema, d: nat, data: seq<byte>, m: Message)
    requires SchemaOk(S) && d < |S|
    ensures Unpack(S, d, data) == Some(m) <==>
      exists ms ::
        && MembersRead(data, ms) && |ms| <= 0x7FF_FFF0 && AllOk(ms)
        && ApplyAll(S, S[d].fields, InitMessage(S[d].fields), ms) == Some(m)
        && (forall i | 0 <= i < |S[d].fields| :: S[d].fields[i].rule == REQUIRED ==> m.slots[i] != Unset)
        && (forall i | 0 <= i < |m.slots| && m.slots[i].Many? :: |m.slots[i].vs| < 0x1_0000_0000)
  {
    hide SchemaOk, Scan, MembersRead, ApplyAll, RequiredPresent, AllOk;
    forall ms ensures Scan(data) == Some(ms) <==> MembersRead(data, ms) { ScanIff(data, ms); }
    forall ms | Scan(data) == Some(ms) && AllOk(ms) && ApplyAll(S, S[d].fields, InitMessage(S[d].fields), ms) == Some(m)
      ensures RequiredPresent(S[d].fields, ms) <==> RequiredSet(S[d].fields, m.slots)
    {
      RequiredPresentIff(S, d, ms, m);
    }
    assert SLAB_CAPACITY == 0x7FF_FFF0;
  }

  // ---------------------------------------------------------------------------------------------
  // An example
  // ---------------------------------------------------------------------------------------------

  const SIZE := Field(2, REQUIRED, UINT64, false, None, None)

  /** One field of libinit's `UntypedData`, which is required and has no default. */
  function HasSize(): Schema { [Desc([SIZE], [IntRange(2, 0), IntRange(0, 1)])] }

  lemma HasSizeOk()
    ensures var S := HasSize(); SchemaOk(S) && |S| == 1 && S[0].fields == [SIZE] && InitMessage([SIZE]) == Message([Unset], [])
    ensures RequiredPresent([SIZE], [Member(2, 0, [5])]) && !RequiredPresent([SIZE], []) && 1 <= SLAB_CAPACITY
  {
    assert FieldOk(HasSize(), SIZE);
    assert InitMessage([SIZE]).slots == [Unset];
    assert [Member(2, 0, [5])][0].tag == [SIZE][0].id;
  }

  lemma SizeBytes()
    ensures var mem := Member(2, 0, [5]);
      && Encode(HasSize(), 0, Message([One(V64(5))], [])) == EncodeMembers([mem]) == [0x10, 0x05]
      && MemberOk(mem) && Scan([0x10, 0x05]) == Some([mem])
  {
    var mem := Member(2, 0, [5]);
    var m := Message([One(V64(5))], []);
    assert FieldMembers(HasSize(), SIZE, m.slots[0]) == [mem];
    assert FieldsMembers(HasSize(), [SIZE], m.slots, 0) == [];
    assert Members(HasSize(), 0, m) == [mem];
    assert EncodeMember(mem) == [0x10] + [0x05];
    assert [mem][1..] == [] && EncodeMembers([mem]) == [0x10, 0x05];
    TerminatedUnique([5], 1, 10);
    hide EncodeMembers, Scan;
    ScanInverse([mem]);
  }

  lemma SizeStep()
    ensures var mem := Member(2, 0, [5]); MemberOk(mem) ==> StepField(HasSize(), SIZE, Unset, mem) == Some(One(V64(5)))
  {
    assert VarintValue([5]) == 5 + 128 * VarintValue([5][1..]);
    ParseUInt64Value([5]);
  }

  /** Five is sent as 10 05, and that is read as five; no bytes at all are refused. */
  lemma SizeIsRequired()
    ensures var S, five := HasSize(), Message([One(V64(5))], []);
      && SchemaOk(S) && Encode(S, 0, five) == [0x10, 0x05] && Unpack(S, 0, [0x10, 0x05]) == Some(five)
      && Unpack(S, 0, []) == None
  {
    var S, mem := HasSize(), Member(2, 0, [5]);
    HasSizeOk();
    SizeBytes();
    SizeStep();
    assert Unpack(S, 0, []) == None by { hide RequiredPresent; }
    hide Encode, Unpack, SchemaOk, Scan, StepField, MemberOk, RequiredPresent, HasSize, ApplyAll, Apply;
    ApplyOnly(S, SIZE, Message([Unset], []), mem);
    ApplyLast(S, [SIZE], Message([Unset], []), mem);
    UnpackIs(S, 0, [0x10, 0x05], [mem]);
  }
}
