/**
 `merge_messages` as the source runs it, with its search for the field of a oneof's case.  The loop is proved to
 compute `Merging.Merge`, and so to leave the descriptor exactly where that says nothing.
 */
module MergeLoop {
  import opened Wire
  import opened Schema
  import opened Encoding
  import opened Decoding
  import opened Merging
  import opened Lookup
  import opened Reading

  // ---------------------------------------------------------------------------------------------
  // Oneofs as they are stored: one case word for all fields of a oneof
  // ---------------------------------------------------------------------------------------------

  ghost predicate CasedValue(S: Schema, t: FieldType, v: Value)
    decreases v, 0
  {
    v.Msg? && t.MESSAGE? ==> Cased(S, t.sub, v.m)
  }

  ghost predicate CasedSlot(S: Schema, f: Field, slot: Slot)
    decreases slot, 0
  {
    match slot
    case Unset => true
    case One(v) => CasedValue(S, f.typ, v)
    case Many(vs) => forall k | 0 <= k < |vs| :: CasedValue(S, f.typ, vs[k])
  }

  /** At most one field of each oneof is set, at every level: all that a case word can say. */
  ghost predicate Cased(S: Schema, d: nat, m: Message)
    decreases m, 1
  {
    d < |S| && |S[d].fields| == |m.slots| ==>
      && OneofOk(S[d].fields, m.slots)
      && forall i | 0 <= i < |m.slots| :: CasedSlot(S, S[d].fields[i], m.slots[i])
  }

  /** The case word of `f`'s oneof, as far as the first `n` fields set it; 0 if none does. */
  function CaseWord(fs: seq<Field>, slots: seq<Slot>, f: Field, n: nat): nat
    requires n <= |fs| == |slots|
  {
    if n == 0 then 0
    else if SameGroup(fs[n - 1], f) && !slots[n - 1].Unset? then fs[n - 1].id
    else CaseWord(fs, slots, f, n - 1)
  }

  /** The word is 0, which is no field's id, or the id of the field that is set. */
  lemma {:induction false} CaseWordIs(fs: seq<Field>, slots: seq<Slot>, f: Field, n: nat) returns (k: nat)
    requires n <= |fs| == |slots| && forall i | 0 <= i < |fs| :: fs[i].id > 0
    ensures CaseWord(fs, slots, f, n) == 0 <==> forall j | 0 <= j < n && SameGroup(fs[j], f) :: slots[j].Unset?
    ensures CaseWord(fs, slots, f, n) != 0 ==>
      k < n && SameGroup(fs[k], f) && !slots[k].Unset? && CaseWord(fs, slots, f, n) == fs[k].id
  {
    k := 0;
    if n > 0 {
      if SameGroup(fs[n - 1], f) && !slots[n - 1].Unset? {
        k := n - 1;
      } else {
        k := CaseWordIs(fs, slots, f, n - 1);
      }
    }
  }

  /** What the search for a case word finds. */
  lemma CaseFound(S: Schema, d: nat, slots: seq<Slot>, i: nat) returns (k: nat)
    requires SchemaOk(S) && d < |S| && i < |S[d].fields| == |slots|
    ensures var fs := S[d].fields; var w := CaseWord(fs, slots, fs[i], |fs|);
      && (w == 0 <==> GroupFree(fs, slots, fs[i]))
      && (w == 0 ==> FieldIndex(fs, w).None?)
      && (w != 0 ==> k < |fs| && FieldIndex(fs, w) == Some(k) && SameGroup(fs[k], fs[i]) && !slots[k].Unset?)
  {
    var fs := S[d].fields;
    assert DescOk(S, S[d]);
    assert forall j | 0 <= j < |fs| :: FieldOk(S, fs[j]);
    k := CaseWordIs(fs, slots, fs[i], |fs|);
    if CaseWord(fs, slots, fs[i], |fs|) != 0 { FieldIndexOf(fs, k); }
  }

  // ---------------------------------------------------------------------------------------------
  // The loop's state
  // ---------------------------------------------------------------------------------------------

  /** The loop has been at `j` or at another field of its oneof. */
  ghost predicate Begun(fs: seq<Field>, i: nat, j: nat)
    requires i <= |fs| && j < |fs|
  {
    j < i || exists k | 0 <= k < i :: SameGroup(fs[k], fs[j])
  }

  /** Slot `j` of the two messages when the loop is at field `i`. */
  ghost predicate SlotAt(S: Schema, fs: seq<Field>, e: Message, l: Message, r: Message, i: nat, j: nat, es: Slot, ls: Slot)
    requires i <= |fs| == |e.slots| == |l.slots| == |r.slots| && j < |fs|
  {
    if !Begun(fs, i, j) then es == e.slots[j] && ls == l.slots[j]
    else
      && ls == r.slots[j]
      && (fs[j].oneof.Some? ==> es == if GroupFree(fs, l.slots, fs[j]) && !Stays(fs[j], e.slots[j]) then Unset else e.slots[j])
  }

  /** Field `i` of the two messages can be merged. */
  ghost predicate FieldInBounds(S: Schema, fs: seq<Field>, e: seq<Slot>, l: seq<Slot>, i: nat)
    requires i < |fs| == |e| == |l|
  {
    && (fs[i].oneof.Some? ==> !GroupFree(fs, e, fs[i]) || !GroupFree(fs, l, fs[i]))
    && SlotInBounds(S, fs[i], e[i], l[i])
  }

  ghost predicate LoopInv(S: Schema, d: nat, e: Message, l: Message, i: nat, es: seq<Slot>, ls: seq<Slot>) {
    && d < |S| && |S[d].fields| == |e.slots| == |l.slots| == |es| == |ls| && i <= |es|
    && (forall j | 0 <= j < |es| :: SlotAt(S, S[d].fields, e, l, MergeMessages(S, d, e, l), i, j, es[j], ls[j]))
    && (forall j | 0 <= j < i :: FieldInBounds(S, S[d].fields, e.slots, l.slots, j))
  }

  lemma LoopStart(S: Schema, d: nat, e: Message, l: Message)
    requires d < |S| && |S[d].fields| == |e.slots| == |l.slots|
    ensures LoopInv(S, d, e, l, 0, e.slots, l.slots)
  {
  }

  lemma MergeMessagesShape(S: Schema, d: nat, e: Message, l: Message)
    requires d < |S| && |S[d].fields| == |e.slots| == |l.slots|
    ensures |MergeMessages(S, d, e, l).slots| == |l.slots| && MergeMessages(S, d, e, l).unknown == l.unknown
  {
  }

  lemma InBoundsIs(S: Schema, d: nat, e: Message, l: Message)
    requires d < |S| && |S[d].fields| == |e.slots| == |l.slots|
    ensures InBounds(S, d, e, l) <==> forall i | 0 <= i < |e.slots| :: FieldInBounds(S, S[d].fields, e.slots, l.slots, i)
  {
    hide SlotInBounds, GroupFree;
  }

  lemma LoopEnd(S: Schema, d: nat, e: Message, l: Message, es: seq<Slot>, ls: seq<Slot>)
    requires LoopInv(S, d, e, l, |ls|, es, ls)
    ensures Merge(S, d, e, l) == Some(Message(ls, l.unknown))
  {
    var fs, r := S[d].fields, MergeMessages(S, d, e, l);
    hide MergeMessages;
    assert forall j | 0 <= j < |fs| :: SlotAt(S, fs, e, l, r, |fs|, j, es[j], ls[j]) && FieldInBounds(S, fs, e.slots, l.slots, j);
    MergeMessagesShape(S, d, e, l);
    assert r.slots == ls;
    InBoundsIs(S, d, e, l);
  }

  lemma BegunNext(fs: seq<Field>, i: nat, j: nat)
    requires i < |fs| && j < |fs|
    ensures Begun(fs, i + 1, j) <==> Begun(fs, i, j) || j == i || SameGroup(fs[i], fs[j])
    ensures SameGroup(fs[i], fs[j]) ==> (Begun(fs, i, j) <==> Begun(fs, i, i))
  {
    if SameGroup(fs[i], fs[j]) && j < i { assert SameGroup(fs[j], fs[i]); }
    if SameGroup(fs[i], fs[j]) && Begun(fs, i, i) {
      var k :| 0 <= k < i && SameGroup(fs[k], fs[i]);
      assert SameGroup(fs[k], fs[j]);
    }
    if SameGroup(fs[i], fs[j]) && Begun(fs, i, j) && j >= i {
      var k :| 0 <= k < i && SameGroup(fs[k], fs[j]);
      assert SameGroup(fs[k], fs[i]);
    }
  }

  lemma LoopShape(S: Schema, d: nat, e: Message, l: Message, i: nat, es: seq<Slot>, ls: seq<Slot>)
    requires LoopInv(S, d, e, l, i, es, ls)
    ensures d < |S| && |S[d].fields| == |e.slots| == |l.slots| == |es| == |ls| && i <= |es|
  {
  }

  lemma LoopParts(S: Schema, d: nat, e: Message, l: Message, i: nat, es: seq<Slot>, ls: seq<Slot>, j: nat)
    requires LoopInv(S, d, e, l, i, es, ls) && j < |es|
    ensures d < |S| && |S[d].fields| == |e.slots| == |l.slots| == |es| == |ls| && i <= |es|
    ensures SlotAt(S, S[d].fields, e, l, MergeMessages(S, d, e, l), i, j, es[j], ls[j])
  {
  }

  lemma LoopIntro(S: Schema, d: nat, e: Message, l: Message, i: nat, es: seq<Slot>, ls: seq<Slot>, es': seq<Slot>, ls': seq<Slot>)
    requires LoopInv(S, d, e, l, i, es, ls) && i < |es| == |es'| == |ls'|
    requires forall j | 0 <= j < |es| :: SlotAt(S, S[d].fields, e, l, MergeMessages(S, d, e, l), i + 1, j, es'[j], ls'[j])
    requires FieldInBounds(S, S[d].fields, e.slots, l.slots, i)
    ensures LoopInv(S, d, e, l, i + 1, es', ls')
  {
    hide SlotAt, FieldInBounds;
  }

  /** A field outside oneofs; what is left in the earlier message does not matter any more. */
  lemma PlainStep(S: Schema, d: nat, e: Message, l: Message, i: nat, es: seq<Slot>, ls: seq<Slot>, s: Slot, t: Slot)
    requires LoopInv(S, d, e, l, i, es, ls) && i < |es| && S[d].fields[i].oneof.None?
    requires t == MergeMessages(S, d, e, l).slots[i] && SlotInBounds(S, S[d].fields[i], e.slots[i], l.slots[i])
    ensures LoopInv(S, d, e, l, i + 1, es[i := s], ls[i := t])
  {
    var fs := S[d].fields;
    assert FieldInBounds(S, fs, e.slots, l.slots, i);
    var es', ls' := es[i := s], ls[i := t];
    hide LoopInv, MergeMessages, SlotInBounds, Begun;
    forall j | 0 <= j < |es| ensures SlotAt(S, fs, e, l, MergeMessages(S, d, e, l), i + 1, j, es'[j], ls'[j]) {
      LoopParts(S, d, e, l, i, es, ls, j);
      BegunNext(fs, i, j);
    }
    LoopIntro(S, d, e, l, i, es, ls, es', ls');
  }

  /** The fields of one oneof while the loop is at field `i` of it. */
  lemma GroupAt(S: Schema, d: nat, e: Message, l: Message, i: nat, es: seq<Slot>, ls: seq<Slot>, j: nat)
    requires SchemaOk(S) && LoopInv(S, d, e, l, i, es, ls) && i < |es| && j < |es| && SameGroup(S[d].fields[j], S[d].fields[i])
    ensures |es| == |S[d].fields| == |e.slots| == |l.slots| == |ls|
    ensures var fs := S[d].fields;
      var free := GroupFree(fs, l.slots, fs[i]); var moves := free && !Stays(fs[j], e.slots[j]);
      && MergeMessages(S, d, e, l).slots[j] == (if moves then e.slots[j] else l.slots[j])
      && (free ==> l.slots[j].Unset?)
      && (if Begun(fs, i, i) then ls[j] == MergeMessages(S, d, e, l).slots[j] && es[j] == (if moves then Unset else e.slots[j])
          else es[j] == e.slots[j] && ls[j] == l.slots[j])
  {
    hide MergeMessages, SchemaOk, LoopInv, Begun, Stays;
    LoopShape(S, d, e, l, i, es, ls);
    var fs := S[d].fields;
    CaseOptional(S, d, j);
    MergedSlot(S, d, e, l, j);
    GroupOf(fs, l.slots, fs[j], fs[i]);
    LoopParts(S, d, e, l, i, es, ls, j);
    BegunNext(fs, i, j);
  }

  /** With all fields of the oneof as they shall be, the loop may go on. */
  lemma GroupStep(S: Schema, d: nat, e: Message, l: Message, i: nat, es: seq<Slot>, ls: seq<Slot>, es': seq<Slot>, ls': seq<Slot>)
    requires SchemaOk(S) && LoopInv(S, d, e, l, i, es, ls) && i < |es| == |es'| == |ls'| == |ls| && S[d].fields[i].oneof.Some?
    requires |S[d].fields| == |e.slots| == |l.slots| == |es|
    requires !GroupFree(S[d].fields, e.slots, S[d].fields[i]) || !GroupFree(S[d].fields, l.slots, S[d].fields[i])
    requires forall j | 0 <= j < |es| :: if SameGroup(S[d].fields[j], S[d].fields[i])
      then ls'[j] == MergeMessages(S, d, e, l).slots[j] && es'[j] ==
        if GroupFree(S[d].fields, l.slots, S[d].fields[i]) && !Stays(S[d].fields[j], e.slots[j]) then Unset else e.slots[j]
      else es'[j] == es[j] && ls'[j] == ls[j]
    ensures LoopInv(S, d, e, l, i + 1, es', ls')
  {
    hide MergeMessages, SchemaOk, LoopInv, Begun, Stays;
    LoopShape(S, d, e, l, i, es, ls);
    var fs := S[d].fields;
    forall j | 0 <= j < |es| ensures SlotAt(S, fs, e, l, MergeMessages(S, d, e, l), i + 1, j, es'[j], ls'[j]) {
      LoopParts(S, d, e, l, i, es, ls, j);
      BegunNext(fs, i, j);
      if SameGroup(fs[j], fs[i]) { GroupOf(fs, l.slots, fs[j], fs[i]); }
    }
    LoopIntro(S, d, e, l, i, es, ls, es', ls');
  }

  /** The later message's case is set: nothing to do. */
  lemma OneofSkip(S: Schema, d: nat, e: Message, l: Message, i: nat, es: seq<Slot>, ls: seq<Slot>)
    requires SchemaOk(S) && LoopInv(S, d, e, l, i, es, ls) && i < |es| == |ls| == |S[d].fields| && S[d].fields[i].oneof.Some?
    requires !GroupFree(S[d].fields, ls, S[d].fields[i])
    ensures LoopInv(S, d, e, l, i + 1, es, ls)
  {
    hide MergeMessages, SchemaOk, LoopInv, Begun, Stays;
    LoopShape(S, d, e, l, i, es, ls);
    var fs := S[d].fields;
    forall j | 0 <= j < |fs| && SameGroup(fs[j], fs[i]) {
      GroupAt(S, d, e, l, i, es, ls, j);
    }
    var j0 :| 0 <= j0 < |fs| && SameGroup(fs[j0], fs[i]) && !ls[j0].Unset?;
    GroupAt(S, d, e, l, i, es, ls, j0);
    GroupStep(S, d, e, l, i, es, ls, es, ls);
  }

  /** The earlier message's case `k` is moved, or stays. */
  lemma OneofMove(S: Schema, d: nat, e: Message, l: Message, i: nat, es: seq<Slot>, ls: seq<Slot>, k: nat)
    requires SchemaOk(S) && LoopInv(S, d, e, l, i, es, ls) && i < |es| == |ls| == |S[d].fields| && S[d].fields[i].oneof.Some?
    requires |e.slots| == |es| && OneofOk(S[d].fields, e.slots) && GroupFree(S[d].fields, ls, S[d].fields[i])
    requires k < |es| && SameGroup(S[d].fields[k], S[d].fields[i]) && !es[k].Unset?
    ensures if Stays(S[d].fields[k], es[k]) then LoopInv(S, d, e, l, i + 1, es, ls)
      else LoopInv(S, d, e, l, i + 1, es[k := Unset], ls[k := es[k]])
  {
    hide MergeMessages, SchemaOk, LoopInv, Begun;
    LoopShape(S, d, e, l, i, es, ls);
    var fs := S[d].fields;
    forall j | 0 <= j < |fs| && SameGroup(fs[j], fs[i])
      ensures j != k ==> e.slots[j].Unset?
    {
      GroupAt(S, d, e, l, i, es, ls, j);
      GroupAt(S, d, e, l, i, es, ls, k);
      if j < k { assert SameGroup(fs[j], fs[k]); }
      if j > k { assert SameGroup(fs[k], fs[j]); }
    }
    GroupAt(S, d, e, l, i, es, ls, k);
    assert GroupFree(fs, l.slots, fs[i]) by {
      forall j | 0 <= j < |fs| && SameGroup(fs[j], fs[i]) ensures l.slots[j].Unset? { GroupAt(S, d, e, l, i, es, ls, j); }
    }
    forall j | 0 <= j < |fs| && SameGroup(fs[j], fs[i]) { GroupAt(S, d, e, l, i, es, ls, j); }
    if Stays(fs[k], es[k]) {
      GroupStep(S, d, e, l, i, es, ls, es, ls);
    } else {
      GroupStep(S, d, e, l, i, es, ls, es[k := Unset], ls[k := es[k]]);
    }
  }

  /** Neither message has the case set. */
  lemma OneofMissing(S: Schema, d: nat, e: Message, l: Message, i: nat, es: seq<Slot>, ls: seq<Slot>)
    requires SchemaOk(S) && LoopInv(S, d, e, l, i, es, ls) && i < |es| == |ls| == |S[d].fields| && S[d].fields[i].oneof.Some?
    requires GroupFree(S[d].fields, ls, S[d].fields[i]) && GroupFree(S[d].fields, es, S[d].fields[i])
    ensures Merge(S, d, e, l).None?
  {
    var fs := S[d].fields;
    assert !InBounds(S, d, e, l) by {
      hide MergeMessages, SchemaOk, InBounds;
      if Begun(fs, i, i) {
        var k :| 0 <= k < i && SameGroup(fs[k], fs[i]);
        assert FieldInBounds(S, fs, e.slots, l.slots, k);
        GroupOf(fs, e.slots, fs[k], fs[i]);
        GroupOf(fs, l.slots, fs[k], fs[i]);
        forall j | 0 <= j < |fs| && SameGroup(fs[j], fs[i]) ensures e.slots[j].Unset? && l.slots[j].Unset? {
          GroupAt(S, d, e, l, i, es, ls, j);
        }
        assert false;
      } else {
        forall j | 0 <= j < |fs| && SameGroup(fs[j], fs[i]) ensures e.slots[j].Unset? && l.slots[j].Unset? {
          GroupAt(S, d, e, l, i, es, ls, j);
        }
        OutOfBoundsAt(S, d, e, l, i);
      }
    }
  }

  lemma OutOfBoundsAt(S: Schema, d: nat, e: Message, l: Message, i: nat)
    requires d < |S| && |S[d].fields| == |e.slots| == |l.slots| && i < |e.slots|
    requires !FieldInBounds(S, S[d].fields, e.slots, l.slots, i)
    ensures Merge(S, d, e, l).None?
  {
    hide SlotInBounds, MergeMessages;
  }

  // ---------------------------------------------------------------------------------------------
  // The loop
  // ---------------------------------------------------------------------------------------------

  lemma CasedAt(S: Schema, d: nat, m: Message, i: nat)
    requires Cased(S, d, m) && Typed(S, d, m) && i < |m.slots|
    ensures |m.slots| == |S[d].fields| && OneofOk(S[d].fields, m.slots) && CasedSlot(S, S[d].fields[i], m.slots[i])
  {
  }

  lemma CasedShape(S: Schema, d: nat, m: Message)
    requires Cased(S, d, m) && Typed(S, d, m)
    ensures d < |S| && |m.slots| == |S[d].fields| && OneofOk(S[d].fields, m.slots)
  {
  }

  lemma SubMessage(S: Schema, f: Field, s: Slot)
    requires f.typ.MESSAGE? && s.One? && SlotTyped(S, f, s) && CasedSlot(S, f, s)
    ensures s.v.Msg? && Typed(S, f.typ.sub, s.v.m) && Cased(S, f.typ.sub, s.v.m)
  {
  }

  /** The four ways of `need_to_merge`. A oneof that the later message leaves unset is zero there. */
  predicate NeedToMerge(f: Field, e: Slot, l: Slot) {
    match f.typ
    case MESSAGE(_) => e.One? && !l.One?
    case BYTES => e.One? && !EmptyBytes(e) && (!l.One? || EmptyBytes(l))
    case STRING => e.One? && !l.One? && (f.oneof.None? || f.default.None?)
    case _ => (f.oneof.Some? || f.rule.OPTIONAL?) && e.One? && !l.One?
  }

  lemma PlainMerge(S: Schema, f: Field, e: Slot, l: Slot, groupFree: bool)
    requires f.oneof.None? && !f.rule.REPEATED? && SlotTyped(S, f, e) && SlotTyped(S, f, l)
    ensures f.rule.REQUIRED? ==> MergeSlot(S, f, e, l, groupFree) == l && SlotInBounds(S, f, e, l)
    ensures !f.rule.REQUIRED? && f.typ.MESSAGE? && e.One? && l.One? ==>
      && BothMessages(e, l) && MergeSlot(S, f, e, l, groupFree) == One(Msg(MergeMessages(S, f.typ.sub, e.v.m, l.v.m)))
      && (SlotInBounds(S, f, e, l) <==> InBounds(S, f.typ.sub, e.v.m, l.v.m))
    ensures !f.rule.REQUIRED? && !(f.typ.MESSAGE? && e.One? && l.One?) ==>
      MergeSlot(S, f, e, l, groupFree) == (if NeedToMerge(f, e, l) then e else l) && SlotInBounds(S, f, e, l)
  {
    hide MergeMessages, InBounds, Typed;
  }

  lemma StaysIs(S: Schema, f: Field, e: Slot)
    requires f.oneof.Some? && SlotTyped(S, f, e) && e.One?
    ensures NeedToMerge(f, e, Unset) <==> !Stays(f, e)
  {
    hide Typed;
  }

  lemma NothingMerged(S: Schema, d: nat, e: Message, l: Message, i: nat)
    requires d < |S| && |S[d].fields| == |e.slots| == |l.slots| && i < |e.slots| && !SlotInBounds(S, S[d].fields[i], e.slots[i], l.slots[i])
    ensures Merge(S, d, e, l).None?
  {
    assert !FieldInBounds(S, S[d].fields, e.slots, l.slots, i);
    OutOfBoundsAt(S, d, e, l, i);
  }

  lemma MergeIsSome(S: Schema, d: nat, e: Message, l: Message)
    ensures Merge(S, d, e, l).Some? <==> InBounds(S, d, e, l)
    ensures Merge(S, d, e, l).Some? ==> Merge(S, d, e, l).value == MergeMessages(S, d, e, l)
  {
  }

  lemma RepeatedMerge(S: Schema, f: Field, e: Slot, l: Slot, groupFree: bool)
    requires f.rule.REPEATED? && SlotTyped(S, f, e) && SlotTyped(S, f, l)
    ensures e.Many? && l.Many? && MergeSlot(S, f, e, l, groupFree) == Many(e.vs + l.vs)
    ensures !BothMessages(e, l) && SlotInBounds(S, f, e, l)
  {
  }

  /** What the loop finds in field `i`'s slots, if the field is in no oneof. */
  lemma PlainAt(S: Schema, d: nat, e: Message, l: Message, i: nat, es: seq<Slot>, ls: seq<Slot>)
    requires LoopInv(S, d, e, l, i, es, ls) && Typed(S, d, e) && Typed(S, d, l) && i < |es| == |S[d].fields| == |ls|
    requires S[d].fields[i].oneof.None? && i < |e.slots| == |l.slots| == |es|
    ensures es[i] == e.slots[i] && ls[i] == l.slots[i]
    ensures SlotTyped(S, S[d].fields[i], es[i]) && SlotTyped(S, S[d].fields[i], ls[i])
  {
    hide Typed, SlotTyped, LoopInv, MergeMessages;
    LoopParts(S, d, e, l, i, es, ls, i);
    TypedSlot(S, d, e, i);
    TypedSlot(S, d, l, i);
    assert !Begun(S[d].fields, i, i);
  }

  /** One field that is in no oneof. */
  method MergePlain(S: Schema, d: nat, e: Message, l: Message, i: nat, es: seq<Slot>, ls: seq<Slot>)
    returns (ok: bool, es': seq<Slot>, ls': seq<Slot>)
    requires SchemaOk(S) && Typed(S, d, e) && Typed(S, d, l) && Cased(S, d, e) && Cased(S, d, l)
    requires LoopInv(S, d, e, l, i, es, ls) && i < |es| && S[d].fields[i].oneof.None?
    ensures if ok then LoopInv(S, d, e, l, i + 1, es', ls') else Merge(S, d, e, l).None?
    decreases e, 0
  {
    hide *;
    LoopShape(S, d, e, l, i, es, ls);
    var f := S[d].fields[i];
    PlainAt(S, d, e, l, i, es, ls);
    MergedSlot(S, d, e, l, i);
    ghost var free := GroupFree(S[d].fields, l.slots, f);
    ok, es', ls' := true, es, ls;
    if f.rule.REPEATED? {
      RepeatedMerge(S, f, es[i], ls[i], free);
      es', ls' := es[i := Many([])], ls[i := Many(es[i].vs + ls[i].vs)];
      PlainStep(S, d, e, l, i, es, ls, Many([]), Many(es[i].vs + ls[i].vs));
      return;
    }
    PlainMerge(S, f, es[i], ls[i], free);
    if f.rule.REQUIRED? {
      PlainStep(S, d, e, l, i, es, ls, es[i], ls[i]);
      assert es[i := es[i]] == es && ls[i := ls[i]] == ls;
      return;
    }
    if f.typ.MESSAGE? && es[i].One? && ls[i].One? {
      CasedAt(S, d, e, i);
      CasedAt(S, d, l, i);
      SubMessage(S, f, es[i]);
      SubMessage(S, f, ls[i]);
      var em, lm := es[i].v.m, ls[i].v.m;
      SmallerSub(e, i);
      var sub := MergeInto(S, f.typ.sub, em, lm);
      MergeIsSome(S, f.typ.sub, em, lm);
      if sub.None? {
        NothingMerged(S, d, e, l, i);
        return false, es', ls';
      }
      ls' := ls[i := One(Msg(sub.value))];
      PlainStep(S, d, e, l, i, es, ls, es[i], One(Msg(sub.value)));
      assert es[i := es[i]] == es;
      return;
    }
    if NeedToMerge(f, es[i], ls[i]) {
      es', ls' := es[i := Unset], ls[i := es[i]];
      PlainStep(S, d, e, l, i, es, ls, Unset, es[i]);
    } else {
      PlainStep(S, d, e, l, i, es, ls, es[i], ls[i]);
      assert es[i := es[i]] == es && ls[i := ls[i]] == ls;
    }
  }

  lemma SmallerSub(m: Message, i: nat)
    requires i < |m.slots| && m.slots[i].One? && m.slots[i].v.Msg?
    ensures m.slots[i].v.m < m
  {
  }

  lemma LoopTyped(S: Schema, d: nat, e: Message, l: Message, i: nat, es: seq<Slot>, ls: seq<Slot>, k: nat)
    requires SchemaOk(S) && LoopInv(S, d, e, l, i, es, ls) && Typed(S, d, e) && k < |es| == |S[d].fields| && i < |es|
    requires SameGroup(S[d].fields[k], S[d].fields[i])
    ensures SlotTyped(S, S[d].fields[k], es[k])
  {
    hide SlotTyped, LoopInv, MergeMessages, SchemaOk;
    GroupAt(S, d, e, l, i, es, ls, k);
    CaseOptional(S, d, k);
  }

  lemma FreeSlot(fs: seq<Field>, slots: seq<Slot>, i: nat, k: nat)
    requires i < |fs| == |slots| && k < |fs| && SameGroup(fs[k], fs[i]) && GroupFree(fs, slots, fs[i])
    ensures slots[k] == Unset
  {
  }

  lemma RangesAt(S: Schema, d: nat)
    requires SchemaOk(S) && d < |S|
    ensures SortedIds(S[d].fields) && RangesOk(S[d].fields, S[d].ranges)
  {
    assert DescOk(S, S[d]);
  }

  lemma OneofSlot(S: Schema, f: Field, s: Slot)
    requires SlotTyped(S, f, s) && !s.Unset? && !f.rule.REPEATED?
    ensures s.One?
  {
  }

  /** One field that is in a oneof: the field that is moved is the one whose id is the earlier message's case word. */
  method MergeOneof(S: Schema, d: nat, e: Message, l: Message, i: nat, es: seq<Slot>, ls: seq<Slot>)
    returns (ok: bool, es': seq<Slot>, ls': seq<Slot>)
    requires SchemaOk(S) && Typed(S, d, e) && Cased(S, d, e)
    requires LoopInv(S, d, e, l, i, es, ls) && i < |es| && S[d].fields[i].oneof.Some?
    ensures if ok then LoopInv(S, d, e, l, i + 1, es', ls') else Merge(S, d, e, l).None?
  {
    hide *;
    LoopShape(S, d, e, l, i, es, ls);
    var fs := S[d].fields;
    ok, es', ls' := true, es, ls;
    ghost var k1 := CaseFound(S, d, ls, i);
    if CaseWord(fs, ls, fs[i], |fs|) != 0 {
      OneofSkip(S, d, e, l, i, es, ls);
      return;
    }
    RangesAt(S, d);
    ghost var k0 := CaseFound(S, d, es, i);
    var index := IntRangeLookup(fs, S[d].ranges, CaseWord(fs, es, fs[i], |fs|));
    if index < 0 {
      OneofMissing(S, d, e, l, i, es, ls);
      return false, es', ls';
    }
    var k: nat := index;
    CasedShape(S, d, e);
    LoopTyped(S, d, e, l, i, es, ls, k);
    FreeSlot(fs, ls, i, k);
    InGroup(fs[k], fs[i]);
    CaseOptional(S, d, k);
    OneofSlot(S, fs[k], es[k]);
    StaysIs(S, fs[k], es[k]);
    OneofMove(S, d, e, l, i, es, ls, k);
    if NeedToMerge(fs[k], es[k], ls[k]) {
      es', ls' := es[k := Unset], ls[k := es[k]];
    }
  }

  /** `merge_messages`; nothing is returned where the source reads outside the descriptor. */
  method MergeInto(S: Schema, d: nat, e: Message, l: Message) returns (r: Option<Message>)
    requires SchemaOk(S) && Typed(S, d, e) && Typed(S, d, l) && Cased(S, d, e) && Cased(S, d, l)
    ensures r == Merge(S, d, e, l)
    decreases e, 1
  {
    hide *;
    CasedShape(S, d, e);
    CasedShape(S, d, l);
    var fs := S[d].fields;
    var es, ls := e.slots, l.slots;
    LoopStart(S, d, e, l);
    var i := 0;
    while i < |fs|
      invariant i <= |fs| == |es| == |ls| && LoopInv(S, d, e, l, i, es, ls)
    {
      var ok;
      if fs[i].oneof.Some? {
        ok, es, ls := MergeOneof(S, d, e, l, i, es, ls);
      } else {
        ok, es, ls := MergePlain(S, d, e, l, i, es, ls);
      }
      if !ok { return None; }
      i := i + 1;
      LoopShape(S, d, e, l, i, es, ls);
    }
    LoopEnd(S, d, e, l, es, ls);
    r := Some(Message(ls, l.unknown));
  }

  // ---------------------------------------------------------------------------------------------
  // Every message the parser merges has case words
  // ---------------------------------------------------------------------------------------------

  lemma CasedIntro(S: Schema, d: nat, m: Message)
    requires d < |S| && |S[d].fields| == |m.slots| && OneofOk(S[d].fields, m.slots)
    requires forall i | 0 <= i < |m.slots| :: CasedSlot(S, S[d].fields[i], m.slots[i])
    ensures Cased(S, d, m)
  {
  }

  lemma MergeCased(S: Schema, d: nat, e: Message, l: Message)
    requires SchemaOk(S) && Cased(S, d, e) && Cased(S, d, l)
    ensures Cased(S, d, MergeMessages(S, d, e, l))
    decreases e, 1
  {
    if d < |S| && |S[d].fields| == |e.slots| == |l.slots| {
      var fs, r := S[d].fields, MergeMessages(S, d, e, l);
      hide MergeSlot, SchemaOk, CasedSlot;
      forall i | 0 <= i < |fs| ensures CasedSlot(S, fs[i], r.slots[i]) {
        assert e.slots[i] < e;
        MergeSlotCased(S, fs[i], e.slots[i], l.slots[i], GroupFree(fs, l.slots, fs[i]));
      }
      forall i, j | 0 <= i < j < |fs| && SameGroup(fs[i], fs[j]) ensures r.slots[i].Unset? || r.slots[j].Unset? {
        OneofMerged(S, d, e, l, i);
        OneofMerged(S, d, e, l, j);
        GroupOf(fs, l.slots, fs[i], fs[j]);
      }
      CasedIntro(S, d, r);
    }
  }

  lemma OneofMerged(S: Schema, d: nat, e: Message, l: Message, i: nat)
    requires SchemaOk(S) && d < |S| && |S[d].fields| == |e.slots| == |l.slots| && i < |e.slots| && S[d].fields[i].oneof.Some?
    ensures var fs := S[d].fields; var s := MergeMessages(S, d, e, l).slots[i];
      if GroupFree(fs, l.slots, fs[i]) then s == e.slots[i] || s.Unset? else s == l.slots[i]
  {
    CaseOptional(S, d, i);
    hide SchemaOk;
    MergedSlot(S, d, e, l, i);
    if GroupFree(S[d].fields, l.slots, S[d].fields[i]) { FreeIsUnset(S[d].fields, l.slots, i); }
  }

  lemma MergeSlotCased(S: Schema, f: Field, e: Slot, l: Slot, groupFree: bool)
    requires SchemaOk(S) && CasedSlot(S, f, e) && CasedSlot(S, f, l)
    ensures CasedSlot(S, f, MergeSlot(S, f, e, l, groupFree))
    decreases e, 0
  {
    hide SchemaOk, Cased, MergeMessages;
    if f.typ.MESSAGE? && BothMessages(e, l) { MergeCased(S, f.typ.sub, e.v.m, l.v.m); }
    if e.Many? && l.Many? { CasedAppend(S, f, e.vs, l.vs); }
  }

  lemma CasedAppend(S: Schema, f: Field, a: seq<Value>, b: seq<Value>)
    requires CasedSlot(S, f, Many(a)) && forall k | 0 <= k < |b| :: CasedValue(S, f.typ, b[k])
    ensures CasedSlot(S, f, Many(a + b))
  {
    hide CasedValue;
  }

  lemma ParseValueCased(S: Schema, t: FieldType, mem: Member)
    requires SchemaOk(S) && MemberOk(mem)
    ensures ParseValue(S, t, mem).Some? ==> CasedValue(S, t, ParseValue(S, t, mem).value)
    decreases |mem.data|, 0
  {
    hide Cased, Unpack, ParseLeaf, SchemaOk;
    if t.MESSAGE? && mem.wire == WIRE_PREFIXED { UnpackCased(S, t.sub, Body(mem)); }
  }

  lemma NumbersCased(S: Schema, t: FieldType, vs: seq<Value>)
    requires Packable(t)
    ensures forall k | 0 <= k < |vs| :: CasedValue(S, t, vs[k])
  {
  }

  lemma StepFieldCased(S: Schema, f: Field, slot: Slot, mem: Member)
    requires SchemaOk(S) && MemberOk(mem) && CasedSlot(S, f, slot)
    ensures StepField(S, f, slot, mem).Some? ==> CasedSlot(S, f, StepField(S, f, slot, mem).value)
    decreases |mem.data|, 1
  {
    hide SchemaOk, Cased, InBounds, MergeMessages, ParseValue, ParsePacked, Body, MemberLen;
    if ReadsPacked(f, mem.wire) {
      if ParsePacked(f.typ, Body(mem)).Some? && slot.Many? {
        NumbersCased(S, f.typ, ParsePacked(f.typ, Body(mem)).value);
        CasedAppend(S, f, slot.vs, ParsePacked(f.typ, Body(mem)).value);
      }
    } else if ParseValue(S, f.typ, mem).Some? {
      var v := ParseValue(S, f.typ, mem).value;
      ParseValueCased(S, f.typ, mem);
      if f.rule.REPEATED? {
        if slot.Many? { CasedAppend(S, f, slot.vs, [v]); }
      } else if Merges(f, slot, v) {
        MergeCased(S, f.typ.sub, slot.v.m, v.m);
      }
    }
  }

  lemma ApplyCased(S: Schema, d: nat, acc: Message, mem: Member)
    requires SchemaOk(S) && MemberOk(mem) && d < |S| && |acc.slots| == |S[d].fields| && Cased(S, d, acc)
    ensures Apply(S, S[d].fields, acc, mem).Some? ==> Cased(S, d, Apply(S, S[d].fields, acc, mem).value)
    decreases |mem.data|, 2
  {
    hide SchemaOk, CasedSlot, StepField, MemberOk;
    var fs := S[d].fields;
    if Apply(S, fs, acc, mem).Some? {
      var r := Apply(S, fs, acc, mem).value;
      if FieldIndex(fs, mem.tag).Some? {
        var k := FieldIndex(fs, mem.tag).value;
        StepFieldCased(S, fs[k], acc.slots[k], mem);
        forall i | 0 <= i < |fs| ensures CasedSlot(S, fs[i], r.slots[i]) { UnsetCased(S, fs[i]); }
        forall i, j | 0 <= i < j < |fs| && SameGroup(fs[i], fs[j]) ensures r.slots[i].Unset? || r.slots[j].Unset? {
          assert OneofOk(fs, acc.slots);
        }
      }
      CasedIntro(S, d, r);
    }
  }

  lemma UnsetCased(S: Schema, f: Field)
    ensures CasedSlot(S, f, Unset)
  {
  }

  lemma {:induction false} ApplyAllCased(S: Schema, d: nat, acc: Message, ms: seq<Member>)
    requires SchemaOk(S) && AllOk(ms) && d < |S| && |acc.slots| == |S[d].fields| && Cased(S, d, acc)
    ensures ApplyAll(S, S[d].fields, acc, ms).Some? ==> Cased(S, d, ApplyAll(S, S[d].fields, acc, ms).value)
    decreases Weight(ms), 3
  {
    hide SchemaOk, Cased, Apply, MemberOk;
    if ms != [] {
      AllOkUncons(ms);
      ApplyCased(S, d, acc, ms[0]);
      if Apply(S, S[d].fields, acc, ms[0]).Some? {
        ApplyAllCased(S, d, Apply(S, S[d].fields, acc, ms[0]).value, ms[1..]);
      }
    }
  }

  lemma InitCased(S: Schema, d: nat)
    requires SchemaOk(S) && d < |S|
    ensures Cased(S, d, InitMessage(S[d].fields))
  {
    var fs := S[d].fields;
    assert DescOk(S, S[d]);
    assert forall i | 0 <= i < |fs| :: FieldOk(S, fs[i]);
  }

  /** Whatever the bytes, an unpacked message has at most one case of each oneof set. */
  lemma UnpackCased(S: Schema, d: nat, data: seq<byte>)
    requires SchemaOk(S)
    ensures Unpack(S, d, data).Some? ==> Cased(S, d, Unpack(S, d, data).value)
    decreases |data|, 4
  {
    hide SchemaOk, Cased, ApplyAll;
    if Unpack(S, d, data).Some? {
      InitCased(S, d);
      ApplyAllCased(S, d, InitMessage(S[d].fields), Scan(data).value);
    }
  }
}
