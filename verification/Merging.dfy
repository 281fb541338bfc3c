/**
 `merge_messages` on its own: it keeps messages well-typed, it is associative, and it is compared with the
 merge of the Protocol Buffers "Encoding" specification ("Last One Wins").
 */
module Merging {
  import opened Seqs
  import opened Wire
  import opened Schema
  import opened Encoding
  import opened Decoding

  // ---------------------------------------------------------------------------------------------
  // Typed messages
  // ---------------------------------------------------------------------------------------------

  ghost predicate ValueTyped(S: Schema, t: FieldType, v: Value)
    decreases v, 0
  {
    KindOk(t, v) && (v.Msg? ==> Typed(S, t.sub, v.m))
  }

  ghost predicate SlotTyped(S: Schema, f: Field, slot: Slot)
    decreases slot, 0
  {
    match slot
    case Unset => !f.rule.REPEATED?
    case One(v) => !f.rule.REPEATED? && ValueTyped(S, f.typ, v)
    case Many(vs) => f.rule.REPEATED? && forall k | 0 <= k < |vs| :: ValueTyped(S, f.typ, vs[k])
  }

  /** Every slot holds what its field's label and type call for, at every level. */
  ghost predicate Typed(S: Schema, d: nat, m: Message)
    decreases m, 1
  {
    && d < |S|
    && |m.slots| == |S[d].fields|
    && forall i | 0 <= i < |m.slots| :: SlotTyped(S, S[d].fields[i], m.slots[i])
  }

  lemma TypedSlot(S: Schema, d: nat, m: Message, i: nat)
    requires Typed(S, d, m) && i < |m.slots|
    ensures d < |S| && |m.slots| == |S[d].fields| && SlotTyped(S, S[d].fields[i], m.slots[i])
  {
  }

  lemma MergedSlot(S: Schema, d: nat, e: Message, l: Message, i: nat)
    requires d < |S| && |S[d].fields| == |e.slots| == |l.slots| && i < |e.slots|
    ensures MergeMessages(S, d, e, l).slots[i]
      == MergeSlot(S, S[d].fields[i], e.slots[i], l.slots[i], GroupFree(S[d].fields, l.slots, S[d].fields[i]))
  {
  }

  lemma MergeTyped(S: Schema, d: nat, e: Message, l: Message)
    requires Typed(S, d, e) && Typed(S, d, l)
    ensures Typed(S, d, MergeMessages(S, d, e, l))
    decreases e, 1
  {
    var fs := S[d].fields;
    forall i | 0 <= i < |fs| ensures SlotTyped(S, fs[i], MergeMessages(S, d, e, l).slots[i]) {
      TypedSlot(S, d, e, i);
      TypedSlot(S, d, l, i);
      MergedSlot(S, d, e, l, i);
      assert e.slots[i] < e;
      MergeSlotTyped(S, fs[i], e.slots[i], l.slots[i], GroupFree(fs, l.slots, fs[i]));
    }
  }

  lemma MergeSlotTyped(S: Schema, f: Field, e: Slot, l: Slot, groupFree: bool)
    requires SlotTyped(S, f, e) && SlotTyped(S, f, l)
    ensures SlotTyped(S, f, MergeSlot(S, f, e, l, groupFree))
    decreases e, 0
  {
    hide MergeMessages, Typed;
    if f.rule.REPEATED? {
      assert forall k | 0 <= k < |e.vs| + |l.vs| :: (e.vs + l.vs)[k] == if k < |e.vs| then e.vs[k] else l.vs[k - |e.vs|];
    } else if f.typ.MESSAGE? && e.One? && l.One? {
      MergeTyped(S, f.typ.sub, e.v.m, l.v.m);
    }
  }

  // ---------------------------------------------------------------------------------------------
  // Associativity
  // ---------------------------------------------------------------------------------------------

  /** A string case of a oneof that `merge_messages` never moves. */
  predicate KeepsString(f: Field) { f.typ.STRING? && f.default.Some? }

  /** A oneof has no `bytes` case, and if one of its cases is a string with a default then all are. */
  ghost predicate GroupMoves(fs: seq<Field>, i: nat)
    requires i < |fs|
  {
    fs[i].oneof.Some? ==>
      !fs[i].typ.BYTES? && (KeepsString(fs[i]) ==> forall j | 0 <= j < |fs| && SameGroup(fs[j], fs[i]) :: KeepsString(fs[j]))
  }

  ghost predicate OneofsMove(S: Schema) {
    forall d, i | 0 <= d < |S| && 0 <= i < |S[d].fields| :: GroupMoves(S[d].fields, i)
  }

  lemma GroupOf(fs: seq<Field>, slots: seq<Slot>, f: Field, g: Field)
    requires |fs| == |slots| && SameGroup(f, g)
    ensures GroupFree(fs, slots, f) == GroupFree(fs, slots, g)
  {
  }

  /** A oneof whose cases all move is unset in the merged message exactly when it was in both. */
  lemma MergedGroup(S: Schema, d: nat, e: Message, l: Message, f: Field)
    requires SchemaOk(S) && d < |S| && |S[d].fields| == |e.slots| == |l.slots| && f.oneof.Some?
    requires forall j | 0 <= j < |S[d].fields| && SameGroup(S[d].fields[j], f) ::
      !S[d].fields[j].typ.BYTES? && !KeepsString(S[d].fields[j])
    ensures var fs := S[d].fields;
      GroupFree(fs, MergeMessages(S, d, e, l).slots, f) <==> GroupFree(fs, e.slots, f) && GroupFree(fs, l.slots, f)
  {
    var fs, m := S[d].fields, MergeMessages(S, d, e, l);
    assert DescOk(S, S[d]);
    forall j | 0 <= j < |fs| && SameGroup(fs[j], f)
      ensures m.slots[j] == if GroupFree(fs, l.slots, f) then e.slots[j] else l.slots[j]
    {
      MergedSlot(S, d, e, l, j);
      GroupOf(fs, l.slots, fs[j], f);
      assert FieldOk(S, fs[j]);
    }
  }

  lemma FreeIsUnset(fs: seq<Field>, slots: seq<Slot>, i: nat)
    requires i < |fs| == |slots| && fs[i].oneof.Some? && GroupFree(fs, slots, fs[i])
    ensures slots[i].Unset?
  {
    assert SameGroup(fs[i], fs[i]);
  }

  lemma MergeSlotAssoc(S: Schema, f: Field, a: Slot, b: Slot, c: Slot, freeB: bool, freeC: bool, freeBC: bool)
    requires SchemaOk(S) && OneofsMove(S) && (f.oneof.Some? ==> !f.typ.BYTES?)
    requires SlotTyped(S, f, a) && SlotTyped(S, f, b) && SlotTyped(S, f, c)
    requires f.oneof.Some? ==> (freeB ==> b.Unset?) && (freeC ==> c.Unset?) && (freeBC ==> MergeSlot(S, f, b, c, freeC).Unset?)
    requires f.oneof.Some? && !KeepsString(f) ==> freeBC == (freeB && freeC)
    ensures MergeSlot(S, f, MergeSlot(S, f, a, b, freeB), c, freeC)
      == MergeSlot(S, f, a, MergeSlot(S, f, b, c, freeC), freeBC)
    decreases a, 0
  {
    hide MergeMessages, Typed, SchemaOk, OneofsMove;
    if f.rule.REPEATED? {
      Assoc(a.vs, b.vs, c.vs);
    } else if f.typ.MESSAGE? && a.One? && b.One? && c.One? {
      MergeAssoc(S, f.typ.sub, a.v.m, b.v.m, c.v.m);
    }
  }

  /** Three occurrences of a sub-message merge to the same whichever pair is merged first. */
  lemma MergeAssoc(S: Schema, d: nat, a: Message, b: Message, c: Message)
    requires SchemaOk(S) && OneofsMove(S) && Typed(S, d, a) && Typed(S, d, b) && Typed(S, d, c)
    ensures MergeMessages(S, d, MergeMessages(S, d, a, b), c) == MergeMessages(S, d, a, MergeMessages(S, d, b, c))
    decreases a, 1
  {
    var fs, ab, bc := S[d].fields, MergeMessages(S, d, a, b), MergeMessages(S, d, b, c);
    forall i | 0 <= i < |fs|
      ensures MergeMessages(S, d, ab, c).slots[i] == MergeMessages(S, d, a, bc).slots[i]
    {
      assert a.slots[i] < a;
      MergeAssocAt(S, d, a, b, c, i);
    }
    assert MergeMessages(S, d, ab, c).slots == MergeMessages(S, d, a, bc).slots;
  }

  lemma NoBytesAt(S: Schema, d: nat, i: nat)
    requires OneofsMove(S) && d < |S| && i < |S[d].fields|
    ensures S[d].fields[i].oneof.Some? ==> !S[d].fields[i].typ.BYTES?
  {
    assert GroupMoves(S[d].fields, i);
  }

  lemma GroupMovesAt(S: Schema, d: nat, i: nat)
    requires OneofsMove(S) && d < |S| && i < |S[d].fields|
    ensures GroupMoves(S[d].fields, i)
  {
  }

  /** In such a schema a oneof with a case that moves has only cases that move. */
  lemma GroupAllMoves(S: Schema, d: nat, i: nat)
    requires OneofsMove(S) && d < |S| && i < |S[d].fields| && S[d].fields[i].oneof.Some? && !KeepsString(S[d].fields[i])
    ensures forall j | 0 <= j < |S[d].fields| && SameGroup(S[d].fields[j], S[d].fields[i]) ::
      !S[d].fields[j].typ.BYTES? && !KeepsString(S[d].fields[j])
  {
    var fs := S[d].fields;
    forall j | 0 <= j < |fs| && SameGroup(fs[j], fs[i]) ensures !fs[j].typ.BYTES? && !KeepsString(fs[j]) {
      GroupMovesAt(S, d, j);
      assert SameGroup(fs[i], fs[j]);
    }
  }

  lemma TypedShape(S: Schema, d: nat, m: Message)
    requires Typed(S, d, m)
    ensures d < |S| && |m.slots| == |S[d].fields|
  {
  }

  lemma MergeAssocAt(S: Schema, d: nat, a: Message, b: Message, c: Message, i: nat)
    requires SchemaOk(S) && OneofsMove(S) && Typed(S, d, a) && Typed(S, d, b) && Typed(S, d, c) && i < |a.slots|
    ensures |a.slots| == |b.slots| == |c.slots|
    ensures MergeMessages(S, d, MergeMessages(S, d, a, b), c).slots[i]
      == MergeMessages(S, d, a, MergeMessages(S, d, b, c)).slots[i]
    decreases a.slots[i], 1
  {
    hide *;
    TypedShape(S, d, a);
    TypedShape(S, d, b);
    TypedShape(S, d, c);
    var fs, ab, bc := S[d].fields, MergeMessages(S, d, a, b), MergeMessages(S, d, b, c);
    TypedSlot(S, d, a, i);
    TypedSlot(S, d, b, i);
    TypedSlot(S, d, c, i);
    MergedSlot(S, d, a, b, i);
    MergedSlot(S, d, b, c, i);
    MergedSlot(S, d, ab, c, i);
    MergedSlot(S, d, a, bc, i);
    NoBytesAt(S, d, i);
    var freeB, freeC, freeBC := GroupFree(fs, b.slots, fs[i]), GroupFree(fs, c.slots, fs[i]), GroupFree(fs, bc.slots, fs[i]);
    if fs[i].oneof.Some? {
      if freeB { FreeIsUnset(fs, b.slots, i); }
      if freeC { FreeIsUnset(fs, c.slots, i); }
      if freeBC { FreeIsUnset(fs, bc.slots, i); }
      if !KeepsString(fs[i]) {
        GroupAllMoves(S, d, i);
        MergedGroup(S, d, b, c, fs[i]);
      }
    }
    MergeSlotAssoc(S, fs[i], a.slots[i], b.slots[i], c.slots[i], freeB, freeC, freeBC);
  }

  // ---------------------------------------------------------------------------------------------
  // Inside the descriptor, and outside
  // ---------------------------------------------------------------------------------------------

  ghost predicate NoOneofs(S: Schema) {
    forall d, i | 0 <= d < |S| && 0 <= i < |S[d].fields| :: S[d].fields[i].oneof.None?
  }

  /** Without oneofs every merge stays inside the descriptor. */
  lemma NoOneofsInBounds(S: Schema, d: nat, e: Message, l: Message)
    requires NoOneofs(S)
    ensures InBounds(S, d, e, l)
    decreases e, 1
  {
    hide NoOneofs;
    if d < |S| && |S[d].fields| == |e.slots| == |l.slots| {
      forall i | 0 <= i < |e.slots| ensures S[d].fields[i].oneof.None? && SlotInBounds(S, S[d].fields[i], e.slots[i], l.slots[i]) {
        NoOneofAt(S, d, i);
        assert e.slots[i] < e;
        if S[d].fields[i].typ.MESSAGE? && BothMessages(e.slots[i], l.slots[i]) {
          NoOneofsInBounds(S, S[d].fields[i].typ.sub, e.slots[i].v.m, l.slots[i].v.m);
        }
      }
    }
  }

  lemma NoOneofAt(S: Schema, d: nat, i: nat)
    requires NoOneofs(S) && d < |S| && i < |S[d].fields|
    ensures S[d].fields[i].oneof.None?
  {
  }

  /** `merge_messages`, where it is defined. */
  function Merge(S: Schema, d: nat, e: Message, l: Message): Option<Message> {
    if InBounds(S, d, e, l) then Some(MergeMessages(S, d, e, l)) else None
  }

  function Blank(f: Field): Slot { if f.rule.REPEATED? then Many([]) else Unset }

  function Nothing(fs: seq<Field>): (r: Message)
    ensures |r.slots| == |fs|
  {
    Message(seq(|fs|, j requires 0 <= j < |fs| => Blank(fs[j])), [])
  }

  /** Two empty messages can be merged exactly if there is no oneof. */
  lemma EmptyLeavesBounds(S: Schema, d: nat)
    requires SchemaOk(S) && d < |S|
    ensures Merge(S, d, Nothing(S[d].fields), Nothing(S[d].fields)).None? <==> exists i | 0 <= i < |S[d].fields| :: S[d].fields[i].oneof.Some?
  {
    var fs := S[d].fields;
    assert DescOk(S, S[d]);
    if i :| 0 <= i < |fs| && fs[i].oneof.Some? {
      assert forall j | 0 <= j < |fs| && SameGroup(fs[j], fs[i]) :: FieldOk(S, fs[j]) && Nothing(fs).slots[j].Unset?;
    } else {
      assert forall j | 0 <= j < |fs| :: Nothing(fs).slots[j] == Blank(fs[j]) && SlotInBounds(S, fs[j], Blank(fs[j]), Blank(fs[j]));
    }
  }

  /** Some value for a case of a oneof, one that moves if any value of the case does. */
  function Filling(S: Schema, t: FieldType): Value {
    match t
    case STRING => Str([])
    case BYTES => Bin([7])
    case MESSAGE(sub) => Msg(if sub < |S| then Nothing(S[sub].fields) else Message([], []))
    case INT64 | SINT64 | SFIXED64 | UINT64 | FIXED64 | DOUBLE => V64(0)
    case _ => V32(0)
  }

  lemma FillingTyped(S: Schema, f: Field)
    requires FieldOk(S, f) && f.oneof.Some?
    ensures SlotTyped(S, f, One(Filling(S, f.typ))) && !(f.typ.BYTES? && Stays(f, One(Filling(S, f.typ))))
  {
    if f.typ.MESSAGE? {
      assert Typed(S, f.typ.sub, Nothing(S[f.typ.sub].fields));
    }
  }

  predicate FirstOfGroup(fs: seq<Field>, i: nat)
    requires i < |fs|
  {
    fs[i].oneof.Some? && forall j | 0 <= j < i :: !SameGroup(fs[j], fs[i])
  }

  /** Slot `i` holds `s`; any oneof but that of `g` has its first case set. */
  function With(S: Schema, fs: seq<Field>, g: Field, i: nat, s: Slot): (r: Message)
    ensures |r.slots| == |fs|
  {
    Message(seq(|fs|, j requires 0 <= j < |fs| =>
      if j == i then s
      else if !SameGroup(fs[j], g) && FirstOfGroup(fs, j) then One(Filling(S, fs[j].typ))
      else Blank(fs[j])), [])
  }

  lemma WithAt(S: Schema, fs: seq<Field>, g: Field, i: nat, s: Slot, j: nat)
    requires j < |fs|
    ensures With(S, fs, g, i, s).slots[j] ==
      if j == i then s else if !SameGroup(fs[j], g) && FirstOfGroup(fs, j) then One(Filling(S, fs[j].typ)) else Blank(fs[j])
  {
  }

  lemma WithTyped(S: Schema, d: nat, g: Field, i: nat, s: Slot)
    requires SchemaOk(S) && d < |S| && i < |S[d].fields| && SlotTyped(S, S[d].fields[i], s)
    ensures Typed(S, d, With(S, S[d].fields, g, i, s))
  {
    hide ValueTyped, With, Filling;
    var fs := S[d].fields;
    assert DescOk(S, S[d]);
    forall j | 0 <= j < |fs| ensures SlotTyped(S, fs[j], With(S, fs, g, i, s).slots[j]) {
      WithAt(S, fs, g, i, s, j);
      if fs[j].oneof.Some? { FillingTyped(S, fs[j]); }
    }
  }

  /** The first field of `f`'s oneof. */
  lemma {:induction false} FirstIn(fs: seq<Field>, i: nat) returns (k: nat)
    requires i < |fs| && fs[i].oneof.Some?
    ensures k <= i && FirstOfGroup(fs, k) && SameGroup(fs[k], fs[i])
  {
    if FirstOfGroup(fs, i) { return i; }
    var j :| 0 <= j < i && SameGroup(fs[j], fs[i]);
    k := FirstIn(fs, j);
  }

  /** Every oneof but that of `g` is set. */
  ghost predicate OthersSet(fs: seq<Field>, slots: seq<Slot>, g: Field)
    requires |fs| == |slots|
  {
    forall j | 0 <= j < |fs| && fs[j].oneof.Some? && !SameGroup(fs[j], g) :: !GroupFree(fs, slots, fs[j])
  }

  lemma WithOthers(S: Schema, fs: seq<Field>, g: Field, i: nat, s: Slot)
    requires i < |fs| && SameGroup(fs[i], g)
    ensures OthersSet(fs, With(S, fs, g, i, s).slots, g)
  {
    hide With, FirstOfGroup, Filling;
    forall j | 0 <= j < |fs| && fs[j].oneof.Some? && !SameGroup(fs[j], g)
      ensures !GroupFree(fs, With(S, fs, g, i, s).slots, fs[j])
    {
      var k := FirstIn(fs, j);
      WithAt(S, fs, g, i, s, k);
      assert SameGroup(fs[k], fs[j]) && !With(S, fs, g, i, s).slots[k].Unset?;
    }
  }

  /** Nothing is set outside oneofs. */
  ghost predicate Plain(fs: seq<Field>, slots: seq<Slot>)
    requires |fs| == |slots|
  {
    forall j | 0 <= j < |fs| && fs[j].oneof.None? :: slots[j] == Blank(fs[j])
  }

  lemma WithPlain(S: Schema, fs: seq<Field>, g: Field, i: nat, s: Slot)
    requires i < |fs| && fs[i].oneof.Some?
    ensures Plain(fs, With(S, fs, g, i, s).slots)
  {
  }

  lemma StaysInBounds(S: Schema, d: nat, e: Message, l: Message, g: Field)
    requires d < |S| && |S[d].fields| == |e.slots| == |l.slots|
    requires Plain(S[d].fields, e.slots) || Plain(S[d].fields, l.slots)
    requires OthersSet(S[d].fields, e.slots, g) || OthersSet(S[d].fields, l.slots, g)
    requires !GroupFree(S[d].fields, e.slots, g) || !GroupFree(S[d].fields, l.slots, g)
    ensures InBounds(S, d, e, l)
  {
    hide GroupFree;
    var fs := S[d].fields;
    forall j | 0 <= j < |fs| && SameGroup(fs[j], g) && fs[j].oneof.Some?
      ensures GroupFree(fs, e.slots, fs[j]) == GroupFree(fs, e.slots, g)
      ensures GroupFree(fs, l.slots, fs[j]) == GroupFree(fs, l.slots, g)
    {
      GroupOf(fs, e.slots, fs[j], g);
      GroupOf(fs, l.slots, fs[j], g);
    }
  }

  lemma CaseOptional(S: Schema, d: nat, i: nat)
    requires SchemaOk(S) && d < |S| && i < |S[d].fields| && S[d].fields[i].oneof.Some?
    ensures !S[d].fields[i].rule.REPEATED? && !S[d].fields[i].rule.REQUIRED? && SlotTyped(S, S[d].fields[i], Unset)
  {
    assert DescOk(S, S[d]) && FieldOk(S, S[d].fields[i]);
  }

  lemma WithFacts(S: Schema, d: nat, g: Field, i: nat, s: Slot)
    requires SchemaOk(S) && d < |S| && i < |S[d].fields| && SameGroup(S[d].fields[i], g) && SlotTyped(S, S[d].fields[i], s)
    ensures var fs := S[d].fields; var r := With(S, fs, g, i, s);
      Typed(S, d, r) && |r.slots| == |fs| && Plain(fs, r.slots) && OthersSet(fs, r.slots, g)
  {
    hide *;
    WithTyped(S, d, g, i, s);
    WithOthers(S, S[d].fields, g, i, s);
    InGroup(S[d].fields[i], g);
    WithPlain(S, S[d].fields, g, i, s);
  }

  lemma InGroup(f: Field, g: Field)
    ensures SameGroup(f, g) ==> f.oneof.Some? && g.oneof.Some? && SameGroup(g, f)
  {
  }

  lemma WithCase(S: Schema, d: nat, g: Field, i: nat, s: Slot, k: nat)
    requires SchemaOk(S) && d < |S| && i < |S[d].fields| && k < |S[d].fields| && SameGroup(S[d].fields[k], g)
    ensures |With(S, S[d].fields, g, i, s).slots| == |S[d].fields|
    ensures With(S, S[d].fields, g, i, s).slots[k] == if k == i then s else Unset
  {
    CaseOptional(S, d, k);
    WithAt(S, S[d].fields, g, i, s, k);
  }

  /** The oneof is set in `b` and not in `c`; what is set in `b` stays there. */
  lemma WitnessCase(S: Schema, d: nat, a: Message, q: nat, stays: Value, k: nat)
    requires SchemaOk(S) && d < |S| && q < |S[d].fields| && k < |S[d].fields| && SameGroup(S[d].fields[k], S[d].fields[q])
    requires |a.slots| == |S[d].fields| && Stays(S[d].fields[q], One(stays))
    ensures var fs, g := S[d].fields, S[d].fields[q];
      var b, c := With(S, fs, g, q, One(stays)), With(S, fs, g, q, Unset);
      && b.slots[k] == (if k == q then One(stays) else Unset) && c.slots[k] == Unset
      && MergeMessages(S, d, a, b).slots[k] == b.slots[k] && MergeMessages(S, d, b, c).slots[k] == Unset
  {
    hide With, SchemaOk, MergeMessages;
    var fs, g := S[d].fields, S[d].fields[q];
    var b, c := With(S, fs, g, q, One(stays)), With(S, fs, g, q, Unset);
    InGroup(fs[k], g);
    WithCase(S, d, g, q, One(stays), k);
    WithCase(S, d, g, q, One(stays), q);
    assert !GroupFree(fs, b.slots, fs[k]);
    forall j | 0 <= j < |fs| && SameGroup(fs[j], fs[k]) ensures c.slots[j].Unset? { WithCase(S, d, g, q, Unset, j); }
    CaseOptional(S, d, k);
    MergedSlot(S, d, a, b, k);
    MergedSlot(S, d, b, c, k);
  }

  ghost predicate BothOrders(S: Schema, d: nat, a: Message, b: Message, c: Message) {
    && InBounds(S, d, a, b) && InBounds(S, d, MergeMessages(S, d, a, b), c)
    && InBounds(S, d, b, c) && InBounds(S, d, a, MergeMessages(S, d, b, c))
  }

  /** The messages of `MergeAssocFails` are merged inside the descriptor. */
  lemma WitnessInBounds(S: Schema, d: nat, m: nat, q: nat, moves: Value, stays: Value)
    requires SchemaOk(S) && d < |S| && m < |S[d].fields| && q < |S[d].fields| && SameGroup(S[d].fields[m], S[d].fields[q])
    requires SlotTyped(S, S[d].fields[m], One(moves))
    requires SlotTyped(S, S[d].fields[q], One(stays)) && Stays(S[d].fields[q], One(stays))
    ensures var fs, g := S[d].fields, S[d].fields[q];
      BothOrders(S, d, With(S, fs, g, m, One(moves)), With(S, fs, g, q, One(stays)), With(S, fs, g, q, Unset))
  {
    var fs, g := S[d].fields, S[d].fields[q];
    var a, b, c := With(S, fs, g, m, One(moves)), With(S, fs, g, q, One(stays)), With(S, fs, g, q, Unset);
    var ab, bc := MergeMessages(S, d, a, b), MergeMessages(S, d, b, c);
    assert !GroupFree(fs, a.slots, g) && !GroupFree(fs, b.slots, g) && !GroupFree(fs, ab.slots, g) by {
      hide With, SchemaOk, MergeMessages;
      InGroup(fs[m], g);
      WithCase(S, d, g, m, One(moves), m);
      WitnessCase(S, d, a, q, stays, q);
    }
    hide *;
    InGroup(fs[m], g);
    InGroup(g, g);
    CaseOptional(S, d, q);
    WithFacts(S, d, g, m, One(moves));
    WithFacts(S, d, g, q, One(stays));
    WithFacts(S, d, g, q, Unset);
    StaysInBounds(S, d, a, b, g);
    StaysInBounds(S, d, ab, c, g);
    StaysInBounds(S, d, b, c, g);
    StaysInBounds(S, d, a, bc, g);
    BothOrdersOf(S, d, a, b, c);
  }

  lemma BothOrdersOf(S: Schema, d: nat, a: Message, b: Message, c: Message)
    requires InBounds(S, d, a, b) && InBounds(S, d, MergeMessages(S, d, a, b), c)
    requires InBounds(S, d, b, c) && InBounds(S, d, a, MergeMessages(S, d, b, c))
    ensures BothOrders(S, d, a, b, c)
  {
  }

  /**
   A value that moves, one that stays, and nothing: the order of merging decides whether the first survives.
   What else the messages hold only serves to keep the merges inside the descriptor.
   */
  lemma MergeAssocFails(S: Schema, d: nat, m: nat, q: nat, moves: Value, stays: Value) returns (a: Message, b: Message, c: Message)
    requires SchemaOk(S) && d < |S| && m < |S[d].fields| && q < |S[d].fields| && SameGroup(S[d].fields[m], S[d].fields[q])
    requires SlotTyped(S, S[d].fields[m], One(moves)) && !Stays(S[d].fields[m], One(moves))
    requires SlotTyped(S, S[d].fields[q], One(stays)) && Stays(S[d].fields[q], One(stays))
    ensures Typed(S, d, a) && Typed(S, d, b) && Typed(S, d, c) && BothOrders(S, d, a, b, c)
    ensures MergeMessages(S, d, MergeMessages(S, d, a, b), c) != MergeMessages(S, d, a, MergeMessages(S, d, b, c))
  {
    var fs, g := S[d].fields, S[d].fields[q];
    a, b, c := With(S, fs, g, m, One(moves)), With(S, fs, g, q, One(stays)), With(S, fs, g, q, Unset);
    var ab, bc := MergeMessages(S, d, a, b), MergeMessages(S, d, b, c);
    WitnessInBounds(S, d, m, q, moves, stays);
    CaseOptional(S, d, q);
    CaseOptional(S, d, m);
    hide Typed, With, SchemaOk, MergeMessages, BothOrders;
    WithFacts(S, d, g, m, One(moves));
    WithFacts(S, d, g, q, One(stays));
    WithFacts(S, d, g, q, Unset);
    forall k | 0 <= k < |fs| && SameGroup(fs[k], fs[m]) ensures c.slots[k].Unset? && bc.slots[k].Unset? {
      WitnessCase(S, d, a, q, stays, k);
    }
    WitnessCase(S, d, a, q, stays, m);
    WithCase(S, d, g, m, One(moves), m);
    MergedSlot(S, d, ab, c, m);
    MergedSlot(S, d, a, bc, m);
  }

  /** Wherever both orders stay inside the descriptor they agree. */
  ghost predicate Associative(S: Schema) {
    forall d, a, b, c | Typed(S, d, a) && Typed(S, d, b) && Typed(S, d, c) && BothOrders(S, d, a, b, c) ::
      MergeMessages(S, d, MergeMessages(S, d, a, b), c) == MergeMessages(S, d, a, MergeMessages(S, d, b, c))
  }

  /** A schema that is not as `OneofsMove` says has a oneof with a value that moves and one that stays. */
  lemma MovesAndStays(S: Schema, d: nat, i: nat) returns (m: nat, moves: Value, stays: Value)
    requires SchemaOk(S) && d < |S| && i < |S[d].fields| && !GroupMoves(S[d].fields, i)
    ensures m < |S[d].fields| && SameGroup(S[d].fields[m], S[d].fields[i])
    ensures SlotTyped(S, S[d].fields[m], One(moves)) && !Stays(S[d].fields[m], One(moves))
    ensures SlotTyped(S, S[d].fields[i], One(stays)) && Stays(S[d].fields[i], One(stays))
  {
    var fs := S[d].fields;
    assert DescOk(S, S[d]) && FieldOk(S, fs[i]);
    m := i;
    if fs[i].typ.BYTES? {
      stays := Bin([]);
    } else {
      stays := Str([]);
      m :| 0 <= m < |fs| && SameGroup(fs[m], fs[i]) && !KeepsString(fs[m]);
    }
    assert FieldOk(S, fs[m]);
    FillingTyped(S, fs[m]);
    moves := Filling(S, fs[m].typ);
  }

  /**
   Merging is associative, wherever it is defined, exactly for the schemas in which no oneof has a `bytes` case, nor
   a string case with a default beside a case that is none.
   */
  lemma MergeAssocIff(S: Schema)
    requires SchemaOk(S)
    ensures Associative(S) <==> OneofsMove(S)
  {
    hide SchemaOk, Typed, MergeMessages, BothOrders, GroupMoves;
    if OneofsMove(S) {
      forall d, a, b, c | Typed(S, d, a) && Typed(S, d, b) && Typed(S, d, c) && BothOrders(S, d, a, b, c)
        ensures MergeMessages(S, d, MergeMessages(S, d, a, b), c) == MergeMessages(S, d, a, MergeMessages(S, d, b, c))
      {
        MergeAssoc(S, d, a, b, c);
      }
    } else {
      var d, i :| 0 <= d < |S| && 0 <= i < |S[d].fields| && !GroupMoves(S[d].fields, i);
      var m, moves, stays := MovesAndStays(S, d, i);
      var a, b, c := MergeAssocFails(S, d, m, i, moves, stays);
    }
  }

  // ---------------------------------------------------------------------------------------------
  // Last One Wins
  // ---------------------------------------------------------------------------------------------

  /** The specification's merge: repeated fields append, sub-messages merge, otherwise the last value set wins. */
  function LastWinsSlot(S: Schema, f: Field, e: Slot, l: Slot, groupFree: bool): Slot
    decreases e, 0
  {
    if f.rule.REPEATED? then (if e.Many? && l.Many? then Many(e.vs + l.vs) else l)
    else if f.oneof.Some? then (if groupFree then e else l)
    else if f.typ.MESSAGE? && e.One? && e.v.Msg? && l.One? && l.v.Msg?
    then One(Msg(LastWins(S, f.typ.sub, e.v.m, l.v.m)))
    else if l.Unset? then e else l
  }

  function LastWins(S: Schema, d: nat, e: Message, l: Message): (r: Message)
    ensures |r.slots| == |l.slots|
    decreases e, 1
  {
    if d < |S| && |S[d].fields| == |e.slots| == |l.slots| then
      Message(seq(|e.slots|, i requires 0 <= i < |e.slots| =>
                LastWinsSlot(S, S[d].fields[i], e.slots[i], l.slots[i], GroupFree(S[d].fields, l.slots, S[d].fields[i]))),
              e.unknown + l.unknown)
    else l
  }

  /** The later message overrides everything the earlier one has. */
  ghost predicate CoveredSlot(S: Schema, f: Field, e: Slot, l: Slot, groupFree: bool)
    decreases e, 0
  {
    if f.rule.REPEATED? then e == Many([])
    else if f.oneof.Some? then groupFree ==> e == l
    else if f.typ.MESSAGE? && e.One? && e.v.Msg? && l.One? && l.v.Msg? then Covered(S, f.typ.sub, e.v.m, l.v.m)
    else l.Unset? ==> e.Unset?
  }

  ghost predicate Covered(S: Schema, d: nat, e: Message, l: Message)
    decreases e, 1
  {
    && e.unknown == []
    && |e.slots| == |l.slots| && d < |S| && |S[d].fields| == |e.slots|
    && forall i | 0 <= i < |e.slots| ::
      CoveredSlot(S, S[d].fields[i], e.slots[i], l.slots[i], GroupFree(S[d].fields, l.slots, S[d].fields[i]))
  }

  /**
   What `merge_messages` needs in order to lose nothing: it drops the earlier message's unknown fields, its
   required fields, its unlabeled scalars, byte strings where one of the two is empty, and oneof cases that stay.
   */
  ghost predicate KeptSlot(S: Schema, f: Field, e: Slot, l: Slot, groupFree: bool)
    decreases e, 0
  {
    if f.rule.REQUIRED? then CoveredSlot(S, f, e, l, groupFree)
    else if f.rule.REPEATED? then true
    else if f.oneof.Some? then groupFree ==> !Stays(f, e)
    else if f.typ.MESSAGE? then (e.One? && e.v.Msg? && l.One? && l.v.Msg? ==> Kept(S, f.typ.sub, e.v.m, l.v.m))
    else if f.typ.BYTES? then !(EmptyBytes(l) && e.One? && !EmptyBytes(e)) && !(l.Unset? && EmptyBytes(e))
    else if f.typ.STRING? || f.rule.OPTIONAL? then true
    else l.Unset? ==> e.Unset?
  }

  ghost predicate Kept(S: Schema, d: nat, e: Message, l: Message)
    decreases e, 1
  {
    && e.unknown == []
    && |e.slots| == |l.slots| && d < |S| && |S[d].fields| == |e.slots|
    && forall i | 0 <= i < |e.slots| ::
      KeptSlot(S, S[d].fields[i], e.slots[i], l.slots[i], GroupFree(S[d].fields, l.slots, S[d].fields[i]))
  }

  lemma LastWinsAt(S: Schema, d: nat, e: Message, l: Message, i: nat)
    requires d < |S| && |S[d].fields| == |e.slots| == |l.slots| && i < |e.slots|
    ensures LastWins(S, d, e, l).slots[i]
      == LastWinsSlot(S, S[d].fields[i], e.slots[i], l.slots[i], GroupFree(S[d].fields, l.slots, S[d].fields[i]))
  {
  }

  lemma CoveredSlotIff(S: Schema, f: Field, e: Slot, l: Slot, groupFree: bool)
    requires SlotTyped(S, f, e) && SlotTyped(S, f, l)
    ensures LastWinsSlot(S, f, e, l, groupFree) == l <==> CoveredSlot(S, f, e, l, groupFree)
    decreases e, 0
  {
    hide Typed, Covered, LastWins;
    if f.rule.REPEATED? {
      if e.vs + l.vs == l.vs { assert |e.vs| == 0; }
    } else if f.typ.MESSAGE? && f.oneof.None? && e.One? && l.One? {
      CoveredIff(S, f.typ.sub, e.v.m, l.v.m);
    }
  }

  lemma CoveredIff(S: Schema, d: nat, e: Message, l: Message)
    requires Typed(S, d, e) && Typed(S, d, l)
    ensures LastWins(S, d, e, l) == l <==> Covered(S, d, e, l)
    decreases e, 1
  {
    var fs, r := S[d].fields, LastWins(S, d, e, l);
    forall i | 0 <= i < |fs|
      ensures r.slots[i] == l.slots[i]
        <==> CoveredSlot(S, fs[i], e.slots[i], l.slots[i], GroupFree(fs, l.slots, fs[i]))
    {
      assert e.slots[i] < e;
      TypedSlot(S, d, e, i);
      TypedSlot(S, d, l, i);
      LastWinsAt(S, d, e, l, i);
      CoveredSlotIff(S, fs[i], e.slots[i], l.slots[i], GroupFree(fs, l.slots, fs[i]));
    }
    assert r.unknown == l.unknown ==> |e.unknown| == 0;
    if Covered(S, d, e, l) {
      assert r.slots == l.slots && r.unknown == l.unknown;
    }
  }

  lemma KeptSlotIff(S: Schema, f: Field, e: Slot, l: Slot, groupFree: bool)
    requires SlotTyped(S, f, e) && SlotTyped(S, f, l) && (f.oneof.Some? && groupFree ==> l.Unset?)
    ensures MergeSlot(S, f, e, l, groupFree) == LastWinsSlot(S, f, e, l, groupFree) <==> KeptSlot(S, f, e, l, groupFree)
    decreases e, 0
  {
    hide Typed, Covered, Kept, LastWins, MergeMessages;
    if f.rule.REQUIRED? {
      CoveredSlotIff(S, f, e, l, groupFree);
    } else if f.typ.MESSAGE? && f.oneof.None? && e.One? && l.One? {
      KeptValues(S, f.typ.sub, e.v.m, l.v.m);
    }
  }

  lemma KeptValues(S: Schema, d: nat, e: Message, l: Message)
    requires Typed(S, d, e) && Typed(S, d, l)
    ensures MergeMessages(S, d, e, l) == LastWins(S, d, e, l) <==> Kept(S, d, e, l)
    decreases e, 1
  {
    var fs, r, s := S[d].fields, MergeMessages(S, d, e, l), LastWins(S, d, e, l);
    forall i | 0 <= i < |fs|
      ensures r.slots[i] == s.slots[i] <==> KeptSlot(S, fs[i], e.slots[i], l.slots[i], GroupFree(fs, l.slots, fs[i]))
    {
      assert e.slots[i] < e;
      TypedSlot(S, d, e, i);
      TypedSlot(S, d, l, i);
      MergedSlot(S, d, e, l, i);
      LastWinsAt(S, d, e, l, i);
      assert SameGroup(fs[i], fs[i]) <==> fs[i].oneof.Some?;
      KeptSlotIff(S, fs[i], e.slots[i], l.slots[i], GroupFree(fs, l.slots, fs[i]));
    }
    assert r.unknown == s.unknown ==> |e.unknown| == 0;
    if Kept(S, d, e, l) {
      assert r.slots == s.slots && r.unknown == s.unknown;
    }
  }

  lemma LostSlot(S: Schema, f: Field, e: Slot, l: Slot, groupFree: bool)
    requires SlotTyped(S, f, e) && SlotTyped(S, f, l) && (f.oneof.Some? && groupFree ==> l.Unset?)
    requires !KeptSlot(S, f, e, l, groupFree) && !(f.typ.MESSAGE? && !f.rule.REQUIRED? && f.oneof.None? && e.One? && l.One?)
    ensures MergeSlot(S, f, e, l, groupFree) == if LastWinsSlot(S, f, e, l, groupFree) == l then e else l
  {
    hide Typed, Covered, Kept, LastWins, MergeMessages;
    CoveredSlotIff(S, f, e, l, groupFree);
  }

  /**
   Every field of a merged message: sub-messages that both have are merged in turn; any other field is what the
   specification calls for where it is kept, and otherwise the one of the two that the specification does not call for.
   */
  lemma MergedFields(S: Schema, d: nat, e: Message, l: Message, i: nat)
    requires Typed(S, d, e) && Typed(S, d, l) && i < |l.slots|
    ensures d < |S| && |S[d].fields| == |e.slots| == |l.slots| == |MergeMessages(S, d, e, l).slots|
    ensures var f, x, y, r := S[d].fields[i], e.slots[i], l.slots[i], MergeMessages(S, d, e, l).slots[i];
      if f.typ.MESSAGE? && f.rule != REQUIRED && f.oneof == None && x.One? && y.One? then
        x.v.Msg? && y.v.Msg? && r == One(Msg(MergeMessages(S, f.typ.sub, x.v.m, y.v.m)))
      else
        var groupFree := GroupFree(S[d].fields, l.slots, f);
        var last := LastWinsSlot(S, f, x, y, groupFree);
        r == if KeptSlot(S, f, x, y, groupFree) then last else if last == y then x else y
  {
    var fs := S[d].fields;
    TypedSlot(S, d, e, i);
    TypedSlot(S, d, l, i);
    MergedSlot(S, d, e, l, i);
    hide Typed, Covered, Kept, LastWins, MergeMessages, KeptSlot, LastWinsSlot, CoveredSlot;
    var f, x, y, groupFree := fs[i], e.slots[i], l.slots[i], GroupFree(fs, l.slots, fs[i]);
    assert SameGroup(f, f) <==> f.oneof.Some?;
    if f.typ.MESSAGE? && f.rule != REQUIRED && f.oneof == None && x.One? && y.One? {
    } else {
      hide MergeSlot, Stays;
      KeptSlotIff(S, f, x, y, groupFree);
      if !KeptSlot(S, f, x, y, groupFree) { LostSlot(S, f, x, y, groupFree); }
    }
  }

  /** `merge_messages` agrees with the specification exactly where it stays inside the descriptor and loses nothing. */
  lemma KeptIff(S: Schema, d: nat, e: Message, l: Message)
    requires Typed(S, d, e) && Typed(S, d, l)
    ensures Merge(S, d, e, l) == Some(LastWins(S, d, e, l)) <==> InBounds(S, d, e, l) && Kept(S, d, e, l)
  {
    hide *;
    KeptValues(S, d, e, l);
    MergeIs(S, d, e, l);
  }

  lemma MergeIs(S: Schema, d: nat, e: Message, l: Message)
    ensures Merge(S, d, e, l) == if InBounds(S, d, e, l) then Some(MergeMessages(S, d, e, l)) else None
  {
  }
}
