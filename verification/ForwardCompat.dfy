/**
 Forward compatibility: a program built with an older schema can unpack what a newer one packed, and when it
 packs the message again a newer program gets the original back, because the fields the older program does
 not know travel with the message as raw members.
 */
module ForwardCompat {
  import opened Seqs
  import opened Wire
  import opened Schema
  import opened Encoding
  import opened Decoding
  import opened SlotFold
  import opened Reading
  import opened RoundTrip

  // ---------------------------------------------------------------------------------------------
  // Older schemas
  // ---------------------------------------------------------------------------------------------

  /**
   The first `o` old fields are exactly those of the first `n` new fields that the old descriptor has:
   walking both lists from the end, a new field it lacks is passed over and any other is the same in both.
   */
  ghost predicate Older(ofs: seq<Field>, o: nat, nfs: seq<Field>, n: nat)
    requires o <= |ofs| && n <= |nfs|
    decreases n
  {
    if n == 0 then o == 0
    else if FieldIndex(ofs, nfs[n - 1].id).Some? then o > 0 && ofs[o - 1] == nfs[n - 1] && Older(ofs, o - 1, nfs, n - 1)
    else Older(ofs, o, nfs, n - 1)
  }

  /** Every message type of `O` is that of `N` with some fields, possibly none, left out. */
  ghost predicate OlderSchema(O: Schema, N: Schema) {
    |O| == |N| && forall d | 0 <= d < |N| :: Older(O[d].fields, |O[d].fields|, N[d].fields, |N[d].fields|)
  }

  /** For sorted field lists, "older" is being a subset. */
  lemma OlderIsSubset(ofs: seq<Field>, nfs: seq<Field>)
    requires SortedIds(ofs) && SortedIds(nfs)
    ensures Older(ofs, |ofs|, nfs, |nfs|) <==> forall k | 0 <= k < |ofs| :: ofs[k] in nfs
  {
    if Older(ofs, |ofs|, nfs, |nfs|) {
      forall k | 0 <= k < |ofs| ensures ofs[k] in nfs { var i := OldInNew(ofs, |ofs|, nfs, |nfs|, k); }
    }
    if forall k | 0 <= k < |ofs| :: ofs[k] in nfs {
      TakeAll(nfs);
      assert Splits(ofs, |ofs|, nfs, |nfs|);
      SubsetOlder(ofs, |ofs|, nfs, |nfs|);
    }
  }

  lemma {:induction false} OldInNew(ofs: seq<Field>, o: nat, nfs: seq<Field>, n: nat, k: nat) returns (i: nat)
    requires o <= |ofs| && n <= |nfs| && Older(ofs, o, nfs, n) && k < o
    ensures i < n && nfs[i] == ofs[k] && FieldIndex(ofs, nfs[i].id).Some?
    decreases n
  {
    if FieldIndex(ofs, nfs[n - 1].id).Some? {
      if k == o - 1 { i := n - 1; } else { i := OldInNew(ofs, o - 1, nfs, n - 1, k); }
    } else {
      i := OldInNew(ofs, o, nfs, n - 1, k);
    }
  }

  /** The first `o` old fields are among the first `n` new ones, and the rest among the rest. */
  ghost predicate Splits(ofs: seq<Field>, o: nat, nfs: seq<Field>, n: nat)
    requires o <= |ofs| && n <= |nfs|
  {
    && (forall k | 0 <= k < o :: ofs[k] in nfs[..n])
    && (forall k | o <= k < |ofs| :: ofs[k] in nfs[n..])
  }

  lemma {:induction false} SubsetOlder(ofs: seq<Field>, o: nat, nfs: seq<Field>, n: nat)
    requires SortedIds(ofs) && SortedIds(nfs) && o <= |ofs| && n <= |nfs| && Splits(ofs, o, nfs, n)
    ensures Older(ofs, o, nfs, n)
    decreases n
  {
    hide *;
    if n == 0 {
      SplitsStart(ofs, o, nfs);
    } else {
      SplitsStep(ofs, o, nfs, n);
      OlderIntro(ofs, o, nfs, n);
      SubsetOlder(ofs, if FieldIndex(ofs, nfs[n - 1].id).Some? then o - 1 else o, nfs, n - 1);
    }
  }

  lemma SplitsStart(ofs: seq<Field>, o: nat, nfs: seq<Field>)
    requires o <= |ofs| && Splits(ofs, o, nfs, 0)
    ensures Older(ofs, o, nfs, 0)
  {
    if o > 0 { SplitsNonempty(ofs, o, nfs, 0); }
  }

  lemma SplitsNonempty(ofs: seq<Field>, o: nat, nfs: seq<Field>, n: nat)
    requires 0 < o <= |ofs| && n <= |nfs| && Splits(ofs, o, nfs, n)
    ensures n > 0
  {
    assert ofs[0] in nfs[..n];
  }

  lemma OlderIntro(ofs: seq<Field>, o: nat, nfs: seq<Field>, n: nat)
    requires o <= |ofs| && 0 < n <= |nfs|
    ensures Older(ofs, o, nfs, n) ==
      if FieldIndex(ofs, nfs[n - 1].id).Some? then o > 0 && ofs[o - 1] == nfs[n - 1] && Older(ofs, o - 1, nfs, n - 1)
      else Older(ofs, o, nfs, n - 1)
  {
  }

  lemma SplitsStep(ofs: seq<Field>, o: nat, nfs: seq<Field>, n: nat)
    requires SortedIds(ofs) && SortedIds(nfs) && o <= |ofs| && 0 < n <= |nfs| && Splits(ofs, o, nfs, n)
    ensures var p := FieldIndex(ofs, nfs[n - 1].id);
      if p.Some? then o > 0 && ofs[o - 1] == nfs[n - 1] && Splits(ofs, o - 1, nfs, n - 1) else Splits(ofs, o, nfs, n - 1)
  {
    hide FieldIndex;
    var p := FieldIndex(ofs, nfs[n - 1].id);
    if p.Some? { OldPosition(ofs, o, nfs, n, p.value); }
    var o' := if p.Some? then o - 1 else o;
    forall k | 0 <= k < o' ensures ofs[k] in nfs[..n - 1] {
      InHead(nfs, n, ofs[k]);
      assert ofs[k].id != nfs[n - 1].id by { if p.Some? { assert ofs[k].id < ofs[o - 1].id; } }
    }
    forall k | o' <= k < |ofs| ensures ofs[k] in nfs[n - 1..] {
      if k < o { assert nfs[n - 1..][0] == ofs[k]; } else { InTail(nfs, n, ofs[k]); }
    }
  }

  lemma InHead(nfs: seq<Field>, n: nat, f: Field)
    requires 0 < n <= |nfs| && f in nfs[..n]
    ensures f == nfs[n - 1] || f in nfs[..n - 1]
  {
    var j :| 0 <= j < n && nfs[..n][j] == f;
    if j < n - 1 { assert nfs[..n - 1][j] == f; }
  }

  lemma InTail(nfs: seq<Field>, n: nat, f: Field)
    requires 0 < n <= |nfs| && f in nfs[n..]
    ensures f in nfs[n - 1..]
  {
    var j :| 0 <= j < |nfs| - n && nfs[n..][j] == f;
    assert nfs[n - 1..][j + 1] == f;
  }

  lemma OldPosition(ofs: seq<Field>, o: nat, nfs: seq<Field>, n: nat, p: nat)
    requires SortedIds(ofs) && SortedIds(nfs) && o <= |ofs| && 0 < n <= |nfs| && Splits(ofs, o, nfs, n)
    requires p < |ofs| && ofs[p].id == nfs[n - 1].id
    ensures o > 0 && p == o - 1 && ofs[p] == nfs[n - 1]
  {
    if p >= o {
      TailIds(nfs, n, ofs[p]);
    } else {
      HeadIds(nfs, n, ofs[p]);
      if p < o - 1 { HeadIds(nfs, n, ofs[o - 1]); }
    }
  }

  lemma TailIds(nfs: seq<Field>, n: nat, f: Field)
    requires SortedIds(nfs) && 0 < n <= |nfs| && f in nfs[n..]
    ensures f.id > nfs[n - 1].id
  {
    var j :| 0 <= j < |nfs| - n && nfs[n..][j] == f;
    assert nfs[n + j] == f;
  }

  lemma HeadIds(nfs: seq<Field>, n: nat, f: Field)
    requires SortedIds(nfs) && 0 < n <= |nfs| && f in nfs[..n]
    ensures f.id <= nfs[n - 1].id && (f.id == nfs[n - 1].id ==> f == nfs[n - 1])
  {
    var j :| 0 <= j < n && nfs[..n][j] == f;
    assert nfs[j] == f;
  }

  // ---------------------------------------------------------------------------------------------
  // What an older program sees
  // ---------------------------------------------------------------------------------------------

  function DownValue(N: Schema, O: Schema, t: FieldType, v: Value): (r: Value)
    ensures KindOk(t, v) ==> KindOk(t, r)
    decreases v, 0
  {
    if v.Msg? && t.MESSAGE? then Msg(Downgrade(N, O, t.sub, v.m)) else NormalLeaf(t, v)
  }

  function DownSlot(N: Schema, O: Schema, f: Field, slot: Slot): Slot
    decreases slot, 0
  {
    match slot
    case Unset => Unset
    case One(v) => if Skipped(f, v) then Unset else One(DownValue(N, O, f.typ, v))
    case Many(vs) => Many(seq(|vs|, k requires 0 <= k < |vs| => DownValue(N, O, f.typ, vs[k])))
  }

  /** The fields `O` knows keep their slots, at every level; the members of the others are kept raw, in wire order. */
  function Downgrade(N: Schema, O: Schema, d: nat, m: Message): (r: Message)
    decreases m, 1
  {
    if d < |O| && d < |N| && |m.slots| == |N[d].fields| then
      Message(seq(|O[d].fields|, k requires 0 <= k < |O[d].fields| =>
                match FieldIndex(N[d].fields, O[d].fields[k].id)
                case None => Unset
                case Some(i) => DownSlot(N, O, O[d].fields[k], m.slots[i])),
              UnknownOf(O[d].fields, Members(N, d, m)))
    else m
  }

  lemma DowngradeAt(N: Schema, O: Schema, d: nat, m: Message, k: nat, i: nat)
    requires d < |O| && d < |N| && |m.slots| == |N[d].fields| && k < |O[d].fields| && i < |m.slots|
    requires SortedIds(N[d].fields) && N[d].fields[i] == O[d].fields[k]
    ensures |Downgrade(N, O, d, m).slots| == |O[d].fields|
    ensures Downgrade(N, O, d, m).slots[k] == DownSlot(N, O, O[d].fields[k], m.slots[i])
  {
    FieldIndexOf(N[d].fields, i);
  }

  lemma DowngradeShape(N: Schema, O: Schema, d: nat, m: Message)
    requires d < |O| && d < |N| && |m.slots| == |N[d].fields|
    ensures |Downgrade(N, O, d, m).slots| == |O[d].fields|
    ensures Downgrade(N, O, d, m).unknown == UnknownOf(O[d].fields, Members(N, d, m))
  {
  }

  // ---------------------------------------------------------------------------------------------
  // The older program's message can be packed, and is as long as the original
  // ---------------------------------------------------------------------------------------------

  lemma EncodeMembersSingle(mem: Member)
    ensures |EncodeMembers([mem])| == |Tag(mem.tag, mem.wire)| + |mem.data|
  {
    assert [mem][1..] == [];
  }

  ghost predicate SameSize(a: seq<Member>, b: seq<Member>) {
    |a| == |b| && |EncodeMembers(a)| == |EncodeMembers(b)|
  }

  lemma SameSizeAppend(a: seq<Member>, b: seq<Member>, c: seq<Member>, d: seq<Member>)
    requires SameSize(a, b) && SameSize(c, d)
    ensures SameSize(a + c, b + d)
  {
    EncodeMembersAppend(a, c);
    EncodeMembersAppend(b, d);
  }

  lemma SameSizeSingle(tag: u32, wire: WireType, a: seq<byte>, b: seq<byte>)
    requires |a| == |b|
    ensures SameSize([Member(tag, wire, a)], [Member(tag, wire, b)])
  {
    EncodeMembersSingle(Member(tag, wire, a));
    EncodeMembersSingle(Member(tag, wire, b));
  }

  lemma {:induction false} ElementsSameSize(N: Schema, O: Schema, f: Field, vs: seq<Value>, ws: seq<Value>, n: nat)
    requires n <= |vs| == |ws| && forall k | 0 <= k < |vs| :: |Payload(O, f.typ, ws[k])| == |Payload(N, f.typ, vs[k])|
    ensures SameSize(ElementMembers(O, f, ws, n), ElementMembers(N, f, vs, n))
    decreases n
  {
    hide Payload, EncodeMembers, SameSize;
    if n == 0 {
      NoneSameSize();
    } else {
      ElementsSameSize(N, O, f, vs, ws, n - 1);
      SameSizeSingle(Wrap32(f.id), WireOf(f.typ), Payload(O, f.typ, ws[n - 1]), Payload(N, f.typ, vs[n - 1]));
      SameSizeAppend(ElementMembers(O, f, ws, n - 1), ElementMembers(N, f, vs, n - 1),
                     [ElementMember(O, f, ws[n - 1])], [ElementMember(N, f, vs[n - 1])]);
    }
  }

  lemma NoneSameSize()
    ensures SameSize([], [])
  {
  }

  lemma {:induction false} PayloadsSameSize(N: Schema, O: Schema, t: FieldType, vs: seq<Value>, ws: seq<Value>, n: nat)
    requires n <= |vs| == |ws| && forall k | 0 <= k < |vs| :: |Payload(O, t, ws[k])| == |Payload(N, t, vs[k])|
    ensures |Payloads(O, t, ws, n)| == |Payloads(N, t, vs, n)|
    decreases n
  {
    hide Payload;
    if n > 0 { PayloadsSameSize(N, O, t, vs, ws, n - 1); }
  }

  lemma DownValueOk(N: Schema, O: Schema, t: FieldType, v: Value)
    requires SchemaOk(N) && SchemaOk(O) && OlderSchema(O, N) && ValueOk(N, t, v)
    ensures ValueOk(O, t, DownValue(N, O, t, v))
    ensures |Payload(O, t, DownValue(N, O, t, v))| == |Payload(N, t, v)|
    decreases v, 0
  {
    hide SchemaOk, OlderSchema, MessageOk, Encode, Downgrade;
    if v.Msg? {
      DowngradeOk(N, O, t.sub, v.m);
    }
  }

  lemma NormalSkipped(f: Field, v: Value)
    requires KindOk(f.typ, v)
    ensures Skipped(f, NormalLeaf(f.typ, v)) == Skipped(f, v)
  {
  }

  lemma DownSkipped(N: Schema, O: Schema, f: Field, v: Value)
    requires KindOk(f.typ, v) && !Skipped(f, v)
    ensures !Skipped(f, DownValue(N, O, f.typ, v))
  {
    if !v.Msg? { NormalSkipped(f, v); }
  }

  lemma DownSlotOk(N: Schema, O: Schema, f: Field, s: Slot)
    requires SchemaOk(N) && SchemaOk(O) && OlderSchema(O, N) && SlotOk(N, f, s)
    ensures SlotOk(O, f, DownSlot(N, O, f, s))
    ensures SameSize(FieldMembers(O, f, DownSlot(N, O, f, s)), FieldMembers(N, f, s))
    decreases s, 0
  {
    hide SchemaOk, OlderSchema, MessageOk, Payload, DownValue, ValueOk, ElementMembers, Payloads, SameSize, Skipped;
    NoneSameSize();
    match s
    case Unset =>
    case One(v) =>
      if Skipped(f, v) {
        SkippedUnset(f, v);
      } else {
        var w := DownValue(N, O, f.typ, v);
        ValueKind(N, f.typ, v);
        DownValueOk(N, O, f.typ, v);
        DownSkipped(N, O, f, v);
        SameSizeSingle(Wrap32(f.id), WireOf(f.typ), Payload(O, f.typ, w), Payload(N, f.typ, v));
      }
    case Many(vs) =>
      var ws := DownSlot(N, O, f, s).vs;
      forall k | 0 <= k < |vs|
        ensures ValueOk(O, f.typ, ws[k]) && |Payload(O, f.typ, ws[k])| == |Payload(N, f.typ, vs[k])|
      {
        DownValueOk(N, O, f.typ, vs[k]);
      }
      if !f.packed {
        ElementsSameSize(N, O, f, vs, ws, |vs|);
      } else if vs != [] {
        PayloadsSameSize(N, O, f.typ, vs, ws, |vs|);
        SameSizeSingle(Wrap32(f.id), WIRE_PREFIXED, Prefixed(Payloads(O, f.typ, ws, |vs|)), Prefixed(Payloads(N, f.typ, vs, |vs|)));
      }
  }

  lemma SkippedUnset(f: Field, v: Value)
    requires Skipped(f, v)
    ensures f.rule.UNLABELED?
  {
  }

  lemma ValueKind(S: Schema, t: FieldType, v: Value)
    requires ValueOk(S, t, v)
    ensures KindOk(t, v)
  {
  }

  lemma OlderAt(O: Schema, N: Schema, d: nat)
    requires SchemaOk(N) && SchemaOk(O) && OlderSchema(O, N) && d < |N|
    ensures d < |O| && Older(O[d].fields, |O[d].fields|, N[d].fields, |N[d].fields|)
    ensures SortedIds(O[d].fields) && SortedIds(N[d].fields)
  {
    assert DescOk(N, N[d]) && DescOk(O, O[d]);
  }

  /** One step back along `Older`, for the members of field `n - 1`. */
  lemma OlderStep(ofs: seq<Field>, o: nat, nfs: seq<Field>, n: nat, block: seq<Member>) returns (known: bool)
    requires o <= |ofs| && 0 < n <= |nfs| && Older(ofs, o, nfs, n) && AllTagged(block, nfs[n - 1].id)
    ensures known <==> FieldIndex(ofs, nfs[n - 1].id).Some?
    ensures known ==> o > 0 && ofs[o - 1] == nfs[n - 1] && Older(ofs, o - 1, nfs, n - 1) && UnknownOf(ofs, block) == []
    ensures !known ==> Older(ofs, o, nfs, n - 1) && UnknownOf(ofs, block) == block
  {
    known := FieldIndex(ofs, nfs[n - 1].id).Some?;
    if known { AllKnown(ofs, block); } else { AllUnknown(ofs, block); }
  }

  lemma OlderStart(ofs: seq<Field>, o: nat, nfs: seq<Field>)
    requires o <= |ofs| && Older(ofs, o, nfs, 0)
    ensures o == 0
  {
  }

  lemma NoFields(S: Schema, fs: seq<Field>, slots: seq<Slot>)
    ensures FieldsMembers(S, fs, slots, 0) == [] && UnknownOf(fs, []) == []
  {
  }

  lemma NoneUnknown(fs: seq<Field>)
    ensures UnknownOf(fs, []) == []
  {
  }

  /** What the old program writes, known fields first and unknown ones behind, is as long as what it read. */
  lemma {:induction false} SizesAlong(N: Schema, O: Schema, d: nat, m: Message, o: nat, n: nat)
    requires SchemaOk(N) && SchemaOk(O) && OlderSchema(O, N) && MessageOk(N, d, m)
    requires d < |O| && |m.slots| == |N[d].fields| && |Downgrade(N, O, d, m).slots| == |O[d].fields|
    requires o <= |O[d].fields| && n <= |N[d].fields| && Older(O[d].fields, o, N[d].fields, n)
    ensures SameSize(FieldsMembers(O, O[d].fields, Downgrade(N, O, d, m).slots, o)
                     + UnknownOf(O[d].fields, FieldsMembers(N, N[d].fields, m.slots, n)),
                     FieldsMembers(N, N[d].fields, m.slots, n))
    decreases m, 0, n
  {
    hide *;
    Shape(N, d, m);
    var ofs, nfs, dm := O[d].fields, N[d].fields, Downgrade(N, O, d, m);
    NoFields(N, nfs, m.slots);
    NoFields(O, ofs, dm.slots);
    NoneUnknown(ofs);
    if n == 0 {
      OlderStart(ofs, o, nfs);
      Empty<Member>([]);
      NoneSameSize();
    } else {
      var before, block := FieldsMembers(N, nfs, m.slots, n - 1), FieldMembers(N, nfs[n - 1], m.slots[n - 1]);
      SlotMembersOk(N, d, m, n - 1);
      FieldsMembersUnfold(N, nfs, m.slots, n);
      UnknownOfAppend(ofs, before, block);
      var known := OlderStep(ofs, o, nfs, n, block);
      var hidden := UnknownOf(ofs, before);
      if known {
        SizesAlong(N, O, d, m, o - 1, n - 1);
        OlderAt(O, N, d);
        DowngradeAt(N, O, d, m, o - 1, n - 1);
        FieldsMembersUnfold(O, ofs, dm.slots, o);
        assert m.slots[n - 1] < m;
        DownSlotOk(N, O, nfs[n - 1], m.slots[n - 1]);
        var kept, mine := FieldsMembers(O, ofs, dm.slots, o - 1), FieldMembers(O, ofs[o - 1], dm.slots[o - 1]);
        SameSizeAppend(kept + hidden, before, mine, block);
        SwapSize(kept, mine, hidden);
        Empty(hidden);
        SameSizeTrans((kept + mine) + hidden, (kept + hidden) + mine, before + block);
      } else {
        SizesAlong(N, O, d, m, o, n - 1);
        var kept := FieldsMembers(O, ofs, dm.slots, o);
        SameSizeRefl(block);
        SameSizeAppend(kept + hidden, before, block, block);
        Assoc(kept, hidden, block);
      }
    }
  }

  lemma SwapSize(a: seq<Member>, b: seq<Member>, c: seq<Member>)
    ensures SameSize((a + b) + c, (a + c) + b)
  {
    EncodeMembersAppend(a, b);
    EncodeMembersAppend(a, c);
    EncodeMembersAppend(a + b, c);
    EncodeMembersAppend(a + c, b);
  }

  lemma SameSizeTrans(a: seq<Member>, b: seq<Member>, c: seq<Member>)
    requires SameSize(a, b) && SameSize(b, c)
    ensures SameSize(a, c)
  {
  }

  lemma SameSizeRefl(a: seq<Member>)
    ensures SameSize(a, a)
  {
  }

  lemma UnknownStays(ofs: seq<Field>, nfs: seq<Field>, tag: int)
    requires Older(ofs, |ofs|, nfs, |nfs|) && FieldIndex(nfs, tag).None?
    ensures FieldIndex(ofs, tag).None?
  {
    if FieldIndex(ofs, tag).Some? {
      var i := OldInNew(ofs, |ofs|, nfs, |nfs|, FieldIndex(ofs, tag).value);
    }
  }

  lemma UnknownStaysAll(S: Schema, d: nat, m: Message, ofs: seq<Field>)
    requires MessageOk(S, d, m) && Older(ofs, |ofs|, S[d].fields, |S[d].fields|)
    ensures UnknownOf(ofs, m.unknown) == m.unknown
  {
    assert UnknownOk(S[d].fields, m.unknown);
    hide MessageOk;
    forall k | 0 <= k < |m.unknown| ensures FieldIndex(ofs, m.unknown[k].tag).None? {
      UnknownStays(ofs, S[d].fields, m.unknown[k].tag);
    }
    AllUnknown(ofs, m.unknown);
  }

  lemma KeptUnknownOk(fs: seq<Field>, ms: seq<Member>)
    requires AllOk(ms)
    ensures UnknownOk(fs, UnknownOf(fs, ms))
  {
    hide MemberOk, FieldIndex;
    forall k | 0 <= k < |UnknownOf(fs, ms)| ensures MemberOk(UnknownOf(fs, ms)[k]) {
      var mem := UnknownOf(fs, ms)[k];
      assert mem in ms;
    }
  }

  lemma DownOneof(N: Schema, O: Schema, d: nat, m: Message)
    requires SchemaOk(N) && SchemaOk(O) && OlderSchema(O, N) && MessageOk(N, d, m) && d < |O|
    requires |m.slots| == |N[d].fields| && |Downgrade(N, O, d, m).slots| == |O[d].fields|
    ensures OneofOk(O[d].fields, Downgrade(N, O, d, m).slots)
  {
    hide *;
    var ofs, dm := O[d].fields, Downgrade(N, O, d, m);
    forall k, l | 0 <= k < l < |ofs| && SameGroup(ofs[k], ofs[l]) ensures dm.slots[k].Unset? || dm.slots[l].Unset? {
      DownOneofPair(N, O, d, m, k, l);
    }
    OneofFrom(ofs, dm.slots);
  }

  lemma OneofFrom(fs: seq<Field>, slots: seq<Slot>)
    requires |fs| == |slots|
    requires forall k, l | 0 <= k < l < |fs| && SameGroup(fs[k], fs[l]) :: slots[k].Unset? || slots[l].Unset?
    ensures OneofOk(fs, slots)
  {
  }

  lemma OneofAt(S: Schema, d: nat, m: Message, i: nat, j: nat)
    requires MessageOk(S, d, m) && i < |m.slots| == |S[d].fields| && j < |m.slots| && i != j
    requires SameGroup(S[d].fields[i], S[d].fields[j])
    ensures m.slots[i].Unset? || m.slots[j].Unset?
  {
    assert OneofOk(S[d].fields, m.slots);
    assert SameGroup(S[d].fields[j], S[d].fields[i]);
  }

  lemma DownOneofPair(N: Schema, O: Schema, d: nat, m: Message, k: nat, l: nat)
    requires SchemaOk(N) && SchemaOk(O) && OlderSchema(O, N) && MessageOk(N, d, m) && d < |O|
    requires |m.slots| == |N[d].fields| && |Downgrade(N, O, d, m).slots| == |O[d].fields|
    requires k < |O[d].fields| && l < |O[d].fields| && k != l && SameGroup(O[d].fields[k], O[d].fields[l])
    ensures Downgrade(N, O, d, m).slots[k].Unset? || Downgrade(N, O, d, m).slots[l].Unset?
  {
    hide *;
    Shape(N, d, m);
    OlderAt(O, N, d);
    var ofs, nfs, dm := O[d].fields, N[d].fields, Downgrade(N, O, d, m);
    var i := OldInNew(ofs, |ofs|, nfs, |nfs|, k);
    var j := OldInNew(ofs, |ofs|, nfs, |nfs|, l);
    SortedDiffer(ofs, k, l);
    DowngradeAt(N, O, d, m, k, i);
    DowngradeAt(N, O, d, m, l, j);
    OneofAt(N, d, m, i, j);
    DownUnset(N, O, ofs[k], m.slots[i]);
    DownUnset(N, O, ofs[l], m.slots[j]);
  }

  lemma SortedDiffer(fs: seq<Field>, k: nat, l: nat)
    requires SortedIds(fs) && k < |fs| && l < |fs| && k != l
    ensures fs[k] != fs[l]
  {
    assert k < l ==> fs[k].id < fs[l].id;
    assert l < k ==> fs[l].id < fs[k].id;
  }

  lemma DownUnset(N: Schema, O: Schema, f: Field, s: Slot)
    ensures s.Unset? ==> DownSlot(N, O, f, s).Unset?
  {
  }

  lemma Fits(O: Schema, d: nat, m: Message)
    requires d < |O| && |m.slots| == |O[d].fields| && OneofOk(O[d].fields, m.slots) && UnknownOk(O[d].fields, m.unknown)
    requires forall i | 0 <= i < |m.slots| :: SlotOk(O, O[d].fields[i], m.slots[i])
    requires |Encode(O, d, m)| < TWO31 && |Members(O, d, m)| <= SLAB_CAPACITY
    ensures MessageOk(O, d, m)
  {
  }

  lemma SizesFit(N: Schema, O: Schema, d: nat, m: Message, dm: Message)
    requires MessageOk(N, d, m) && SameSize(Members(O, d, dm), Members(N, d, m))
    ensures |Encode(O, d, dm)| == |Encode(N, d, m)| < TWO31 && |Members(O, d, dm)| <= SLAB_CAPACITY
  {
    hide EncodeMembers, Members;
  }

  lemma DownMembers(N: Schema, O: Schema, d: nat, m: Message)
    requires SchemaOk(N) && SchemaOk(O) && OlderSchema(O, N) && MessageOk(N, d, m) && d < |O|
    requires |m.slots| == |N[d].fields| && |Downgrade(N, O, d, m).slots| == |O[d].fields|
    ensures Members(O, d, Downgrade(N, O, d, m)) ==
      (FieldsMembers(O, O[d].fields, Downgrade(N, O, d, m).slots, |O[d].fields|)
       + UnknownOf(O[d].fields, FieldsMembers(N, N[d].fields, m.slots, |m.slots|))) + m.unknown
  {
    hide *;
    Shape(N, d, m);
    var ofs, nfs, dm := O[d].fields, N[d].fields, Downgrade(N, O, d, m);
    MembersSplit(N, d, m);
    DowngradeShape(N, O, d, m);
    MembersOf(O, d, dm);
    OlderAt(O, N, d);
    UnknownOfAppend(ofs, FieldsMembers(N, nfs, m.slots, |m.slots|), m.unknown);
    UnknownStaysAll(N, d, m, ofs);
    Assoc(FieldsMembers(O, ofs, dm.slots, |ofs|), UnknownOf(ofs, FieldsMembers(N, nfs, m.slots, |m.slots|)), m.unknown);
  }

  lemma MembersOf(S: Schema, d: nat, m: Message)
    requires d < |S| && |m.slots| == |S[d].fields|
    ensures Members(S, d, m) == FieldsMembers(S, S[d].fields, m.slots, |m.slots|) + m.unknown
  {
    hide FieldsMembers;
  }

  /** What the older program holds can be packed again, and takes exactly as many bytes as the original did. */
  lemma DowngradeOk(N: Schema, O: Schema, d: nat, m: Message)
    requires SchemaOk(N) && SchemaOk(O) && OlderSchema(O, N) && MessageOk(N, d, m)
    ensures MessageOk(O, d, Downgrade(N, O, d, m))
    ensures |Encode(O, d, Downgrade(N, O, d, m))| == |Encode(N, d, m)|
    decreases m, 1
  {
    hide *;
    Shape(N, d, m);
    OlderAt(O, N, d);
    DowngradeShape(N, O, d, m);
    var ofs, nfs, dm := O[d].fields, N[d].fields, Downgrade(N, O, d, m);
    forall k | 0 <= k < |ofs| ensures SlotOk(O, ofs[k], dm.slots[k]) {
      var i := OldInNew(ofs, |ofs|, nfs, |nfs|, k);
      DowngradeAt(N, O, d, m, k, i);
      SlotOkAt(N, d, m, i);
      assert m.slots[i] < m;
      DownSlotOk(N, O, nfs[i], m.slots[i]);
    }
    DownOneof(N, O, d, m);
    MembersOk(N, d, m);
    KeptUnknownOk(ofs, Members(N, d, m));
    SizesAlong(N, O, d, m, |ofs|, |nfs|);
    DownMembers(N, O, d, m);
    MembersSplit(N, d, m);
    SameSizeRefl(m.unknown);
    SameSizeAppend(FieldsMembers(O, ofs, dm.slots, |ofs|) + UnknownOf(ofs, FieldsMembers(N, nfs, m.slots, |nfs|)),
                   FieldsMembers(N, nfs, m.slots, |nfs|), m.unknown, m.unknown);
    SizesFit(N, O, d, m, dm);
    Fits(O, d, dm);
  }

  // ---------------------------------------------------------------------------------------------
  // Reading a newer message
  // ---------------------------------------------------------------------------------------------

  lemma OlderAgree(ofs: seq<Field>, nfs: seq<Field>)
    requires SortedIds(ofs) && SortedIds(nfs) && Older(ofs, |ofs|, nfs, |nfs|)
    ensures Agree(nfs, ofs) && Agree(ofs, nfs)
  {
    forall i, k | 0 <= i < |nfs| && 0 <= k < |ofs| && nfs[i].id == ofs[k].id ensures nfs[i] == ofs[k] {
      var j := OldInNew(ofs, |ofs|, nfs, |nfs|, k);
      assert i == j;
    }
  }

  /** Where field `i` of one of two agreeing descriptors is found in the other. */
  lemma SourceOf(W: Schema, R: Schema, wfs: seq<Field>, rfs: seq<Field>, slots: seq<Slot>, i: nat, final: Slot)
    requires SortedIds(wfs) && i < |rfs| && |slots| == |wfs|
    requires match FieldIndex(wfs, rfs[i].id)
             case None => final == InitSlot(rfs[i])
             case Some(k) => ReadsSlot(W, R, rfs[i], slots[k], final)
    ensures Source(W, R, wfs, rfs, slots, i, FieldIndex(wfs, rfs[i].id), final)
  {
    hide ReadsSlot, InitSlot;
    forall j | 0 <= j < |wfs| ensures wfs[j].id == rfs[i].id <==> FieldIndex(wfs, rfs[i].id) == Some(j) {
      FieldIndexOf(wfs, j);
    }
  }

  lemma SlotReadsDown(N: Schema, O: Schema, f: Field, s: Slot)
    requires SchemaOk(N) && SchemaOk(O) && OlderSchema(O, N) && SlotOk(N, f, s)
    ensures ReadsSlot(N, O, f, s, DownSlot(N, O, f, s))
    decreases s, 0
  {
    hide SchemaOk, OlderSchema, MessageOk, Unpack, Encode, Downgrade;
    match s
    case Unset =>
    case One(v) => if v.Msg? { UnpackNewer(N, O, f.typ.sub, v.m); }
    case Many(vs) =>
      forall k | 0 <= k < |vs| ensures ReadsValue(N, O, f.typ, vs[k], DownValue(N, O, f.typ, vs[k])) {
        assert ValueOk(N, f.typ, vs[k]);
        if vs[k].Msg? { UnpackNewer(N, O, f.typ.sub, vs[k].m); }
      }
  }

  lemma OldRequired(ofs: seq<Field>, nfs: seq<Field>, ms: seq<Member>)
    requires Older(ofs, |ofs|, nfs, |nfs|) && RequiredPresent(nfs, ms)
    ensures RequiredPresent(ofs, ms)
  {
    forall k | 0 <= k < |ofs| && ofs[k].rule.REQUIRED? && ofs[k].default.None?
      ensures exists n :: 0 <= n < |ms| && ms[n].tag == ofs[k].id
    {
      var i := OldInNew(ofs, |ofs|, nfs, |nfs|, k);
    }
  }

  lemma UnknownUntouchedByOld(N: Schema, d: nat, m: Message, R: Schema, ofs: seq<Field>, k: nat, s: Slot)
    requires MessageOk(N, d, m) && Older(ofs, |ofs|, N[d].fields, |N[d].fields|) && k < |ofs|
    ensures FoldSlot(R, ofs, k, s, m.unknown) == Some(s)
  {
    assert UnknownOk(N[d].fields, m.unknown);
    hide MessageOk, FoldSlot, Older;
    forall n | 0 <= n < |m.unknown| ensures !Touches(ofs, k, m.unknown[n]) {
      UnknownStays(ofs, N[d].fields, m.unknown[n].tag);
    }
    FoldUntouched(R, ofs, k, s, m.unknown);
  }

  /** Unpacking a newer message with an older schema gives the fields the older one has and keeps the others raw. */
  lemma UnpackNewer(N: Schema, O: Schema, d: nat, m: Message)
    requires SchemaOk(N) && SchemaOk(O) && OlderSchema(O, N) && MessageOk(N, d, m)
    ensures Unpack(O, d, Encode(N, d, m)) == Some(Downgrade(N, O, d, m))
    decreases m, 1
  {
    hide *;
    MembersSplit(N, d, m);
    OlderAt(O, N, d);
    DowngradeShape(N, O, d, m);
    var ofs, nfs, ms, dm := O[d].fields, N[d].fields, Members(N, d, m), Downgrade(N, O, d, m);
    var init, known := InitMessage(ofs), FieldsMembers(N, nfs, m.slots, |m.slots|);
    MembersOk(N, d, m);
    RequiredArePresent(N, d, m);
    OldRequired(ofs, nfs, ms);
    OlderAgree(ofs, nfs);
    forall k | 0 <= k < |ofs| ensures FoldSlot(O, ofs, k, init.slots[k], ms) == Some(dm.slots[k]) {
      var i := OldInNew(ofs, |ofs|, nfs, |nfs|, k);
      InitAt(ofs, k);
      DowngradeAt(N, O, d, m, k, i);
      SlotOkAt(N, d, m, i);
      assert m.slots[i] < m;
      SlotReadsDown(N, O, nfs[i], m.slots[i]);
      FieldIndexOf(nfs, i);
      SourceOf(N, O, nfs, ofs, m.slots, k, dm.slots[k]);
      FoldFields(N, O, d, m, k, Some(i), dm.slots[k], |m.slots|);
      UnknownUntouchedByOld(N, d, m, O, ofs, k, dm.slots[k]);
      FoldTwo(O, ofs, k, init.slots[k], dm.slots[k], dm.slots[k], known, m.unknown);
    }
    InitUnknown(ofs);
    Empty(UnknownOf(ofs, ms));
    ApplyAllBySlots(O, ofs, init, ms, dm);
    UnpackMembers(O, d, ms, dm);
  }

  // ---------------------------------------------------------------------------------------------
  // Passing a newer message on
  // ---------------------------------------------------------------------------------------------

  lemma SlotReadsUp(N: Schema, O: Schema, f: Field, s: Slot)
    requires SchemaOk(N) && SchemaOk(O) && OlderSchema(O, N) && SlotOk(N, f, s)
    ensures ReadsSlot(O, N, f, DownSlot(N, O, f, s), NormalSlot(N, f, s))
    decreases s, 0
  {
    hide SchemaOk, OlderSchema, MessageOk, Unpack, Encode, Downgrade, Normalize, Skipped;
    match s
    case Unset =>
    case One(v) =>
      ValueKind(N, f.typ, v);
      if Skipped(f, v) { SkippedUnset(f, v); } else {
        DownSkipped(N, O, f, v);
        if v.Msg? { PassOn(N, O, f.typ.sub, v.m); }
      }
    case Many(vs) =>
      forall k | 0 <= k < |vs| ensures ReadsValue(O, N, f.typ, DownValue(N, O, f.typ, vs[k]), NormalValue(N, f.typ, vs[k])) {
        assert ValueOk(N, f.typ, vs[k]);
        if vs[k].Msg? { PassOn(N, O, f.typ.sub, vs[k].m); }
      }
  }

  /** The raw members of new fields bring those fields back, and leave the others alone. */
  lemma {:induction false} FoldHidden(N: Schema, O: Schema, d: nat, m: Message, i: nat, final: Slot, o: nat, n: nat)
    requires SchemaOk(N) && MessageOk(N, d, m) && d < |O| && i < |m.slots| == |N[d].fields|
    requires o <= |O[d].fields| && n <= |m.slots| && Older(O[d].fields, o, N[d].fields, n)
    requires Agree(N[d].fields, N[d].fields) && Source(N, N, N[d].fields, N[d].fields, m.slots, i, Some(i), final)
    ensures var known := FieldIndex(O[d].fields, N[d].fields[i].id).Some?;
      var init := InitSlot(N[d].fields[i]);
      FoldSlot(N, N[d].fields, i, if known then final else init, UnknownOf(O[d].fields, FieldsMembers(N, N[d].fields, m.slots, n)))
        == Some(if known || i < n then final else init)
    decreases n
  {
    hide *;
    Shape(N, d, m);
    var ofs, nfs := O[d].fields, N[d].fields;
    NoFields(N, nfs, m.slots);
    NoneUnknown(ofs);
    FoldNone(N, nfs, i, final);
    FoldNone(N, nfs, i, InitSlot(nfs[i]));
    if n > 0 {
      var before, block := FieldsMembers(N, nfs, m.slots, n - 1), FieldMembers(N, nfs[n - 1], m.slots[n - 1]);
      SlotMembersOk(N, d, m, n - 1);
      FieldsMembersUnfold(N, nfs, m.slots, n);
      UnknownOfAppend(ofs, before, block);
      var known := OlderStep(ofs, o, nfs, n, block);
      FoldHidden(N, O, d, m, i, final, if known then o - 1 else o, n - 1);
      var knownHere := FieldIndex(ofs, nfs[i].id).Some?;
      var s := if knownHere then final else InitSlot(nfs[i]);
      var t := if knownHere || i < n - 1 then final else InitSlot(nfs[i]);
      if known {
        Empty(UnknownOf(ofs, before));
      } else if i == n - 1 {
        OwnBlock(N, N, d, m, i, n - 1, final);
        FoldTwo(N, nfs, i, s, t, final, UnknownOf(ofs, before), block);
      } else {
        OtherBlock(N, N, d, m, i, Some(i), final, n - 1, t);
        FoldTwo(N, nfs, i, s, t, t, UnknownOf(ofs, before), block);
      }
    }
  }

  lemma FoldNone(S: Schema, fs: seq<Field>, i: nat, s: Slot)
    requires i < |fs|
    ensures FoldSlot(S, fs, i, s, []) == Some(s)
  {
  }

  lemma {:induction false} UnknownOfKeeps(fs: seq<Field>, ms: seq<Member>, k: nat)
    requires k < |ms| && FieldIndex(fs, ms[k].tag).None?
    ensures ms[k] in UnknownOf(fs, ms)
    decreases k
  {
    if k > 0 {
      assert ms[1..][k - 1] == ms[k];
      UnknownOfKeeps(fs, ms[1..], k - 1);
    }
  }

  /** Required fields are still there: the old program writes those it knows, and the others travel raw. */
  lemma RequiredPassedOn(N: Schema, O: Schema, d: nat, m: Message)
    requires SchemaOk(N) && SchemaOk(O) && OlderSchema(O, N) && MessageOk(N, d, m) && d < |O| && d < |N|
    requires MessageOk(O, d, Downgrade(N, O, d, m))
    ensures RequiredPresent(N[d].fields, Members(O, d, Downgrade(N, O, d, m)))
  {
    hide MessageOk, SchemaOk, OlderSchema, Downgrade, Members, Older;
    var ofs, nfs, dm := O[d].fields, N[d].fields, Downgrade(N, O, d, m);
    var ms, sent := Members(N, d, m), Members(O, d, dm);
    Shape(N, d, m);
    DowngradeShape(N, O, d, m);
    MembersOf(O, d, dm);
    OlderAt(O, N, d);
    OlderAgree(ofs, nfs);
    RequiredArePresent(N, d, m);
    RequiredArePresent(O, d, dm);
    forall i | 0 <= i < |nfs| && nfs[i].rule.REQUIRED? && nfs[i].default.None?
      ensures exists k :: 0 <= k < |sent| && sent[k].tag == nfs[i].id
    {
      var j := FieldIndex(ofs, nfs[i].id);
      if j.Some? {
        assert ofs[j.value] == nfs[i];
      } else {
        var k :| 0 <= k < |ms| && ms[k].tag == nfs[i].id;
        UnknownOfKeeps(ofs, ms, k);
        assert ms[k] in sent;
      }
    }
  }

  lemma KnownToNew(N: Schema, O: Schema, d: nat, ms: seq<Member>)
    requires SchemaOk(N) && SchemaOk(O) && OlderSchema(O, N) && d < |O| && d < |N| && KnownTags(O[d].fields, ms)
    ensures KnownTags(N[d].fields, ms)
  {
    OlderAt(O, N, d);
    hide SchemaOk, OlderSchema, Older;
    var ofs, nfs := O[d].fields, N[d].fields;
    forall k | 0 <= k < |ms| ensures FieldIndex(nfs, ms[k].tag).Some? {
      var i := OldInNew(ofs, |ofs|, nfs, |nfs|, FieldIndex(ofs, ms[k].tag).value);
    }
  }

  lemma KnownPart(fs: seq<Field>, ofs: seq<Field>, ms: seq<Member>)
    requires KnownTags(fs, ms)
    ensures KnownTags(fs, UnknownOf(ofs, ms))
  {
    hide FieldIndex;
    forall k | 0 <= k < |UnknownOf(ofs, ms)| ensures FieldIndex(fs, UnknownOf(ofs, ms)[k].tag).Some? {
      var mem := UnknownOf(ofs, ms)[k];
      assert mem in ms;
    }
  }

  lemma UnknownPassedOn(N: Schema, O: Schema, d: nat, m: Message)
    requires SchemaOk(N) && SchemaOk(O) && OlderSchema(O, N) && MessageOk(N, d, m) && d < |O| && d < |N|
    requires MessageOk(O, d, Downgrade(N, O, d, m))
    ensures UnknownOf(N[d].fields, Members(O, d, Downgrade(N, O, d, m))) == m.unknown
  {
    hide *;
    var ofs, nfs, dm := O[d].fields, N[d].fields, Downgrade(N, O, d, m);
    Shape(N, d, m);
    DowngradeShape(N, O, d, m);
    DownMembers(N, O, d, m);
    var kept, all := FieldsMembers(O, ofs, dm.slots, |ofs|), FieldsMembers(N, nfs, m.slots, |m.slots|);
    KnownMembersOk(O, d, dm, |ofs|);
    KnownToNew(N, O, d, kept);
    KnownMembersOk(N, d, m, |m.slots|);
    KnownPart(nfs, ofs, all);
    Joined(nfs, kept, UnknownOf(ofs, all));
    AllKnown(nfs, kept + UnknownOf(ofs, all));
    OlderAt(O, N, d);
    OwnUnknown(N, d, m);
    UnknownOfAppend(nfs, kept + UnknownOf(ofs, all), m.unknown);
    Empty(m.unknown);
  }

  lemma OwnUnknown(S: Schema, d: nat, m: Message)
    requires MessageOk(S, d, m)
    ensures UnknownOf(S[d].fields, m.unknown) == m.unknown
  {
    assert UnknownOk(S[d].fields, m.unknown);
    hide MessageOk;
    AllUnknown(S[d].fields, m.unknown);
  }

  /**
   Forward compatibility: what an older program unpacks from a newer message and packs again, a newer program
   unpacks to the message that was sent, as if the older program had not been in between.
   */
  lemma PassOn(N: Schema, O: Schema, d: nat, m: Message)
    requires SchemaOk(N) && SchemaOk(O) && OlderSchema(O, N) && MessageOk(N, d, m)
    ensures Unpack(N, d, Encode(O, d, Downgrade(N, O, d, m))) == Some(Normalize(N, d, m))
    decreases m, 1
  {
    hide *;
    Shape(N, d, m);
    DowngradeOk(N, O, d, m);
    OlderAt(O, N, d);
    DowngradeShape(N, O, d, m);
    NormalizeShape(N, d, m);
    var ofs, nfs, dm, normal := O[d].fields, N[d].fields, Downgrade(N, O, d, m), Normalize(N, d, m);
    MembersSplit(O, d, dm);
    DownMembers(N, O, d, m);
    var kept, hidden := FieldsMembers(O, ofs, dm.slots, |ofs|), UnknownOf(ofs, FieldsMembers(N, nfs, m.slots, |m.slots|));
    var init, ms := InitMessage(nfs), Members(O, d, dm);
    MembersOk(O, d, dm);
    RequiredPassedOn(N, O, d, m);
    OlderAgree(ofs, nfs);
    SameAgree(nfs);
    forall i | 0 <= i < |nfs| ensures FoldSlot(N, nfs, i, init.slots[i], ms) == Some(normal.slots[i]) {
      InitAt(nfs, i);
      NormalizeAt(N, d, m, i);
      SlotOkAt(N, d, m, i);
      assert m.slots[i] < m;
      SlotReadsUp(N, O, nfs[i], m.slots[i]);
      SlotReadsBack(N, nfs[i], m.slots[i]);
      OwnSource(N, nfs, m.slots, i, normal.slots[i]);
      var k := FieldIndex(ofs, nfs[i].id);
      var s := if k.Some? then normal.slots[i] else init.slots[i];
      if k.Some? {
        AgreeAt(ofs, nfs, k.value, i);
        DowngradeAt(N, O, d, m, k.value, i);
      }
      SourceOf(O, N, ofs, nfs, dm.slots, i, s);
      FoldFields(O, N, d, dm, i, k, s, |ofs|);
      FoldHidden(N, O, d, m, i, normal.slots[i], |ofs|, |nfs|);
      FoldTwo(N, nfs, i, init.slots[i], s, normal.slots[i], kept, hidden);
      UnknownUntouched(N, d, m, i, normal.slots[i]);
      FoldTwo(N, nfs, i, init.slots[i], normal.slots[i], normal.slots[i], kept + hidden, m.unknown);
    }
    UnknownPassedOn(N, O, d, m);
    InitUnknown(nfs);
    Empty(m.unknown);
    ApplyAllBySlots(N, nfs, init, ms, normal);
    UnpackMembers(N, d, ms, normal);
  }

  lemma AgreeAt(wfs: seq<Field>, rfs: seq<Field>, k: nat, i: nat)
    requires Agree(wfs, rfs) && k < |wfs| && i < |rfs| && wfs[k].id == rfs[i].id
    ensures wfs[k] == rfs[i]
  {
  }
}
