/**
 An array that is too small: two members with 2^31 booleans each, for one field.  Together they are counted as 2^32
 elements, and the array is allocated for none.
 */
module Overruns {
  import opened Seqs
  import opened Wire
  import opened Schema
  import opened Encoding
  import opened Decoding
  import opened Reading
  import opened Scanner
  import opened Strays

  ghost predicate Flags(s: seq<byte>) { forall i | 0 <= i < |s| :: s[i] <= 1 }

  /** A packed body of flags is read as that many booleans. */
  lemma {:induction false} FlagsParsed(s: seq<byte>)
    requires Flags(s)
    ensures ParsePacked(BOOL, s).Some? && |ParsePacked(BOOL, s).value| == |s|
    decreases |s|
  {
    if s != [] {
      assert Flags(s[1..]);
      FlagsParsed(s[1..]);
    }
  }

  function FlagsOf(s: seq<byte>): (vs: seq<Value>)
    requires Flags(s)
    ensures ParsePacked(BOOL, s) == Some(vs) && |vs| == |s|
  {
    FlagsParsed(s);
    ParsePacked(BOOL, s).value
  }

  function FlagsMember(s: seq<byte>): Member { Member(1, WIRE_PREFIXED, Prefixed(s)) }

  lemma FlagsMemberOk(s: seq<byte>)
    requires |s| < TWO32 - 5
    ensures MemberOk(FlagsMember(s)) && Body(FlagsMember(s)) == s
  {
    PrefixedMember(s);
    hide Prefixed, MemberLen, TermLen;
  }

  lemma FlagsStep(s: seq<byte>, slot: Slot)
    requires |s| < TWO32 - 5 && Flags(s) && slot.Many?
    ensures var f, mem := Repeats(BOOL)[0].fields[0], FlagsMember(s);
      MemberOk(mem) && StepField(Repeats(BOOL), f, slot, mem) == Some(Many(slot.vs + FlagsOf(s)))
  {
    FlagsMemberOk(s);
    hide ParsePacked, MemberOk, Body, Prefixed, FlagsOf;
  }

  lemma FlagsApplied(s: seq<byte>, acc: Message)
    requires |s| < TWO32 - 5 && Flags(s) && |acc.slots| == 1 && acc.slots[0].Many? && acc.unknown == []
    ensures var fs, mem := Repeats(BOOL)[0].fields, FlagsMember(s);
      && |fs| == 1 && MemberOk(mem)
      && Apply(Repeats(BOOL), fs, acc, mem) == Some(Message([Many(acc.slots[0].vs + FlagsOf(s))], []))
  {
    var fs, mem := Repeats(BOOL)[0].fields, FlagsMember(s);
    FlagsStep(s, acc.slots[0]);
    hide StepField, MemberOk, FlagsOf, Prefixed;
    assert FieldIndex(fs, 1) == Some(0);
    var r := Apply(Repeats(BOOL), fs, acc, mem).value;
    assert r.slots == [StepField(Repeats(BOOL), fs[0], acc.slots[0], mem).value];
  }

  lemma BoolsOk()
    ensures var S := Repeats(BOOL);
      SchemaOk(S) && |S| == 1 && InitMessage(S[0].fields) == Message([Many([])], []) && forall ms :: RequiredPresent(S[0].fields, ms)
    ensures 2 <= SLAB_CAPACITY
  {
    var S := Repeats(BOOL);
    assert FieldOk(S, S[0].fields[0]);
    assert InitMessage(S[0].fields).slots == [Many([])];
  }

  lemma ApplyTwice(S: Schema, fs: seq<Field>, x0: Message, mem: Member, x1: Message, x2: Message)
    requires |x0.slots| == |x1.slots| == |fs| && MemberOk(mem)
    requires Apply(S, fs, x0, mem) == Some(x1) && Apply(S, fs, x1, mem) == Some(x2)
    ensures AllOk([mem]) && AllOk([mem, mem])
    ensures ApplyAll(S, fs, x0, [mem]) == Some(x1) && ApplyAll(S, fs, x0, [mem, mem]) == Some(x2)
  {
    hide Apply, MemberOk;
    assert [mem, mem][1..] == [mem] && [mem][1..] == [];
    assert ApplyAll(S, fs, x1, [mem]) == Some(x2);
  }

  /** One member, and two. */
  lemma FlagsAll(s: seq<byte>)
    requires |s| < TWO32 - 5 && Flags(s)
    ensures var S, fs, mem, vs := Repeats(BOOL), Repeats(BOOL)[0].fields, FlagsMember(s), FlagsOf(s);
      && |fs| == 1 && MemberOk(mem) && AllOk([mem]) && AllOk([mem, mem])
      && ApplyAll(S, fs, InitMessage(fs), [mem]) == Some(Message([Many(vs)], []))
      && ApplyAll(S, fs, InitMessage(fs), [mem, mem]) == Some(Message([Many(vs + vs)], []))
  {
    var S, fs, mem, vs := Repeats(BOOL), Repeats(BOOL)[0].fields, FlagsMember(s), FlagsOf(s);
    BoolsOk();
    FlagsApplied(s, Message([Many([])], []));
    FlagsApplied(s, Message([Many(vs)], []));
    Empty(vs);
    hide *;
    ApplyTwice(S, fs, Message([Many([])], []), mem, Message([Many(vs)], []), Message([Many(vs + vs)], []));
  }

  lemma FlagsScanned(s: seq<byte>)
    requires |s| < TWO32 - 5
    ensures var mem := FlagsMember(s); var a := EncodeMember(mem); MemberOk(mem) && Scan(a) == Some([mem]) && Scan(a + a) == Some([mem, mem])
  {
    var mem := FlagsMember(s);
    FlagsMemberOk(s);
    hide MemberOk, Scan, FlagsMember, EncodeMember;
    EncodeMembersAppend([mem], [mem]);
    assert [mem, mem] == [mem] + [mem] && [mem][1..] == [];
    assert EncodeMembers([mem]) == EncodeMember(mem);
    ScanInverse([mem]);
    ScanInverse([mem, mem]);
  }

  function Zeros(n: nat): (r: seq<byte>)
    ensures |r| == n && Flags(r)
  {
    seq(n, _ => 0)
  }

  /** 0A 80 80 80 80 08 and 2^31 zeroes: 2^31 times false. */
  lemma HalfBytes()
    ensures EncodeMember(FlagsMember(Zeros(TWO31))) == [0x0A, 0x80, 0x80, 0x80, 0x80, 0x08] + Zeros(TWO31)
  {
    hide Zeros;
    assert Tag(1, WIRE_PREFIXED) == [0x0A];
    assert Varint(0x8) == [0x08];
    assert Varint(0x400) == [0x80] + Varint(0x8);
    assert Varint(0x2_0000) == [0x80] + Varint(0x400);
    assert Varint(0x100_0000) == [0x80] + Varint(0x2_0000);
    assert Varint(0x8000_0000) == [0x80] + Varint(0x100_0000) == [0x80, 0x80, 0x80, 0x80, 0x08];
  }

  /** These bytes unpack.  Twice the same bytes hold 2^32 elements, and unpacking stores them in an array that has none. */
  lemma TwiceHalf()
    ensures var S, a := Repeats(BOOL), [0x0A, 0x80, 0x80, 0x80, 0x80, 0x08] + Zeros(TWO31);
      && Unpack(S, 0, a).Some? && !UnpackStrays(S, 0, a)
      && Unpack(S, 0, a + a).None? && UnpackStrays(S, 0, a + a)
  {
    var S, s := Repeats(BOOL), Zeros(TWO31);
    var fs, mem, vs := S[0].fields, FlagsMember(s), FlagsOf(s);
    var a := EncodeMember(mem);
    HalfBytes();
    BoolsOk();
    FlagsAll(s);
    FlagsScanned(s);
    hide *;
    AppliedStrays(S, 0, a, [mem], Message([Many(vs)], []));
    AppliedStrays(S, 0, a + a, [mem, mem], Message([Many(vs + vs)], []));
    HalfFits(vs);
    UnpackedIf(S, 0, a, [mem], Message([Many(vs)], []));
    UnpackStraysFails(S, 0, a + a);
  }

  lemma HalfFits(vs: seq<Value>)
    requires |vs| == TWO31
    ensures ArraysFit([Many(vs)]) && !ArraysFit([Many(vs + vs)])
  {
    assert Held([Many(vs + vs)][0]) == TWO32;
  }

  lemma UnpackedIf(S: Schema, d: nat, data: seq<byte>, ms: seq<Member>, m: Message)
    requires d < |S| && Scan(data) == Some(ms) && AllOk(ms) && |ms| <= SLAB_CAPACITY && RequiredPresent(S[d].fields, ms)
    requires ApplyAll(S, S[d].fields, InitMessage(S[d].fields), ms) == Some(m) && ArraysFit(m.slots)
    ensures Unpack(S, d, data) == Some(m)
  {
    hide Scan, ApplyAll, ArraysFit;
  }
}
