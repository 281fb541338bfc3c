/**
 `merge_messages` with its allocations: it moves blocks from the earlier message to the later one, and may be
 refused the memory for a longer array half-way.  Whatever happens, the two messages own disjoint blocks
 afterwards and no block is lost; when nothing is refused, the later message is what `Decoding.MergeMessages` says.
 */
module HeapMerge {
  import opened Seqs
  import opened Wire
  import opened Schema
  import opened Encoding
  import opened Decoding
  import opened Merging
  import opened Memory

  // ---------------------------------------------------------------------------------------------
  // Messages as unpacking leaves them
  // ---------------------------------------------------------------------------------------------

  predicate TightValue(S: Schema, t: FieldType, v: HValue)
    decreases v, 0
  {
    match v
    case HStr(block, _) => block.Some?
    case HBin(block, bytes) => block.Some? <==> bytes != []
    case HMsg(m) => t.MESSAGE? && Tight(S, t.sub, m)
    case _ => true
  }

  /** Something is owned exactly where there is something to own; only a required field can still hold its default. */
  predicate TightSlot(S: Schema, f: Field, s: HSlot)
    decreases s, 0
  {
    match s
    case HUnset => true
    case HOne(v) => (f.rule.REQUIRED? && !v.HMsg?) || TightValue(S, f.typ, v)
    case HMany(block, _, vs) => (block.Some? <==> vs != []) && forall k | 0 <= k < |vs| :: TightValue(S, f.typ, vs[k])
  }

  predicate Tight(S: Schema, d: nat, m: HMessage)
    decreases m, 1
  {
    && d < |S|
    && |m.slots| == |S[d].fields|
    && forall i | 0 <= i < |m.slots| :: TightSlot(S, S[d].fields[i], m.slots[i])
  }

  /** A slot fit for merging. */
  ghost predicate SlotReady(S: Schema, f: Field, s: HSlot) {
    f.oneof.None? && TightSlot(S, f, s) && SlotTyped(S, f, SlotOf(s))
  }

  ghost predicate Ready(S: Schema, d: nat, m: HMessage) {
    NoOneofs(S) && Tight(S, d, m) && Typed(S, d, MessageOf(m))
  }

  lemma ReadySlot(S: Schema, d: nat, m: HMessage, i: nat)
    requires Ready(S, d, m) && i < |m.slots|
    ensures d < |S| && |m.slots| == |S[d].fields| && SlotReady(S, S[d].fields[i], m.slots[i])
    ensures MessageOf(m).slots[i] == SlotOf(m.slots[i])
  {
    TypedSlot(S, d, MessageOf(m), i);
  }

  lemma ReadyShape(S: Schema, d: nat, m: HMessage)
    requires Ready(S, d, m)
    ensures d < |S| && |m.slots| == |S[d].fields| && |MessageOf(m).slots| == |m.slots|
  {
  }

  lemma ReadySub(S: Schema, f: Field, v: HValue)
    requires NoOneofs(S) && f.typ.MESSAGE? && SlotReady(S, f, HOne(v))
    ensures v.HMsg? && Ready(S, f.typ.sub, v.m)
  {
    hide Tight, Typed, MessageOf;
    assert SlotOf(HOne(v)) == One(ValueOf(v));
    assert ValueTyped(S, f.typ, ValueOf(v));
    assert TightValue(S, f.typ, v);
  }

  // ---------------------------------------------------------------------------------------------
  // One field
  // ---------------------------------------------------------------------------------------------

  lemma ManyBlocks(block: Option<nat>, capacity: nat, vs: seq<HValue>)
    ensures SlotBlocks(HMany(block, capacity, vs)) == Opt(block) + ElementBlocks(vs, 0)
    ensures SlotBlocks(HMany(None, capacity, [])) == multiset{} && SlotBlocks(HUnset) == multiset{}
  {
  }

  lemma NewArray(rest: multiset<nat>, old1: Option<nat>, old2: Option<nat>, new1: nat, a: seq<HValue>, b: seq<HValue>, live: multiset<nat>)
    requires live == rest + (Opt(old1) + ElementBlocks(a, 0)) + (Opt(old2) + ElementBlocks(b, 0)) + multiset{new1}
    ensures live == rest + multiset{} + (Opt(Some(new1)) + ElementBlocks(a + b, 0)) + Opt(old1) + Opt(old2)
  {
    ElementsConcat(a, b, 0);
    hide ElementBlocks;
  }

  lemma ValuesConcat(a: seq<HValue>, b: seq<HValue>)
    ensures ValuesOf(a + b) == ValuesOf(a) + ValuesOf(b)
  {
    hide ValueOf;
    assert forall k | 0 <= k < |a| + |b| :: (a + b)[k] == if k < |a| then a[k] else b[k - |a|];
  }

  /** The repeated case: concatenating needs a new array, moving the earlier one does not. */
  method MergeRepeated(S: Schema, heap: Heap, f: Field, e: HSlot, l: HSlot, ghost rest: multiset<nat>)
    returns (ok: bool, e': HSlot, l': HSlot)
    requires f.rule.REPEATED? && SlotReady(S, f, e) && SlotReady(S, f, l)
    requires heap.Valid() && heap.live == rest + SlotBlocks(e) + SlotBlocks(l)
    modifies heap
    ensures heap.Valid() && heap.live == rest + SlotBlocks(e') + SlotBlocks(l')
    ensures heap.refusals >= old(heap.refusals) && (ok <==> heap.refusals == old(heap.refusals))
    ensures ok ==> TightSlot(S, f, l') && SlotOf(l') == Many(SlotOf(e).vs + SlotOf(l).vs)
  {
    hide *;
    ok, e', l' := true, e, l;
    ReadyTight(S, f, e);
    ReadyTight(S, f, l);
    RepeatedShape(S, f, e);
    RepeatedShape(S, f, l);
    if |e.vs| == 0 {
      EmptyFirst(SlotOf(e).vs, SlotOf(l).vs);
      return;
    }
    if |l.vs| > 0 {
      ManyBlocks(e.block, e.capacity, e.vs);
      ManyBlocks(l.block, l.capacity, l.vs);
      var newField := heap.Alloc();
      if newField.None? { return false, e, l; }
      var all := e.vs + l.vs;
      ManyBlocks(newField, |all|, all);
      OptSome(newField.value);
      NewArray(rest, e.block, l.block, newField.value, e.vs, l.vs, heap.live);
      FreeBlock(heap, l.block, rest + multiset{} + (Opt(newField) + ElementBlocks(all, 0)) + Opt(e.block));
      FreeBlock(heap, e.block, rest + multiset{} + (Opt(newField) + ElementBlocks(all, 0)));
      l' := HMany(newField, |all|, all);
      e' := HMany(None, 0, []);
      ManyBlocks(None, 0, []);
      ConcatReady(S, f, e, l, newField);
    } else {
      EmptyOwnsNothing(S, f, l);
      EmptySecond(SlotOf(e).vs, SlotOf(l).vs);
      ManyBlocks(None, 0, []);
      l' := e;
      e' := HMany(None, 0, []);
      assert rest + SlotBlocks(e) + multiset{} == rest + multiset{} + SlotBlocks(e);
    }
  }

  lemma RepeatedShape(S: Schema, f: Field, s: HSlot)
    requires SlotReady(S, f, s) && f.rule.REPEATED?
    ensures s.HMany? && SlotOf(s) == Many(ValuesOf(s.vs)) && |SlotOf(s).vs| == |s.vs|
  {
    hide ValueOf, TightValue, ValueTyped;
  }

  lemma EmptyFirst<T>(a: seq<T>, b: seq<T>)
    requires a == []
    ensures a + b == b
  {
  }

  lemma EmptySecond<T>(a: seq<T>, b: seq<T>)
    requires b == []
    ensures a + b == a
  {
  }

  /** An empty repeated field has no array: this is where the two passes' agreement on counts is needed. */
  lemma EmptyOwnsNothing(S: Schema, f: Field, s: HSlot)
    requires TightSlot(S, f, s) && s.HMany? && s.vs == []
    ensures SlotBlocks(s) == multiset{}
  {
  }

  lemma ConcatReady(S: Schema, f: Field, e: HSlot, l: HSlot, block: Option<nat>)
    requires e.HMany? && l.HMany? && TightSlot(S, f, e) && TightSlot(S, f, l) && block.Some? && e.vs != []
    ensures var r := HMany(block, |e.vs + l.vs|, e.vs + l.vs);
      TightSlot(S, f, r) && SlotOf(r) == Many(ValuesOf(e.vs) + ValuesOf(l.vs))
  {
    hide TightValue, ValueOf;
    var all := e.vs + l.vs;
    ValuesConcat(e.vs, l.vs);
    assert forall k | 0 <= k < |all| :: all[k] == if k < |e.vs| then e.vs[k] else l.vs[k - |e.vs|];
  }

  /** Whether an unset later field takes over the earlier one's value (`need_to_merge`). */
  predicate Moves(f: Field, e: HSlot, l: HSlot) {
    && e.HOne?
    && match f.typ
       case MESSAGE(_) => l.HUnset?
       case BYTES => e.v.HBin? && e.v.bytes != [] && (l.HUnset? || (l.HOne? && l.v.HBin? && l.v.bytes == []))
       case STRING => l.HUnset?
       case _ => f.rule.OPTIONAL? && l.HUnset?
  }

  lemma MovedSlot(S: Schema, f: Field, e: HSlot, l: HSlot, groupFree: bool)
    requires SlotReady(S, f, e) && SlotReady(S, f, l) && !f.rule.REQUIRED? && !f.rule.REPEATED?
    requires !(f.typ.MESSAGE? && e.HOne? && l.HOne?)
    ensures MergeSlot(S, f, SlotOf(e), SlotOf(l), groupFree) == SlotOf(if Moves(f, e, l) then e else l)
    ensures Moves(f, e, l) ==> SlotBlocks(l) == multiset{}
  {
    hide Tight, Typed, MergeMessages, MessageOf, BlocksOf;
    if e.HOne? { OneTyped(S, f, e.v); }
    if l.HOne? { OneTyped(S, f, l.v); }
  }

  lemma MergedMessageSlot(S: Schema, f: Field, e: HSlot, l: HSlot, groupFree: bool)
    requires SlotReady(S, f, e) && SlotReady(S, f, l) && !f.rule.REQUIRED? && !f.rule.REPEATED?
    requires f.typ.MESSAGE? && e.HOne? && l.HOne?
    ensures e.v.HMsg? && l.v.HMsg?
    ensures MergeSlot(S, f, SlotOf(e), SlotOf(l), groupFree)
      == One(Msg(MergeMessages(S, f.typ.sub, MessageOf(e.v.m), MessageOf(l.v.m))))
  {
    hide Tight, Typed, MergeMessages, MessageOf;
    OneTyped(S, f, e.v);
    OneTyped(S, f, l.v);
  }

  /** A set slot holds a value of the field's kind. */
  lemma OneTyped(S: Schema, f: Field, v: HValue)
    requires SlotReady(S, f, HOne(v))
    ensures !f.rule.REPEATED? && SlotOf(HOne(v)) == One(ValueOf(v)) && KindOk(f.typ, ValueOf(v))
    ensures v.HMsg? ==> ValueOf(v) == Msg(MessageOf(v.m)) && SlotBlocks(HOne(v)) == BlocksOf(v.m)
    ensures v.HMsg? <==> f.typ.MESSAGE?
    ensures v.HBin? <==> f.typ.BYTES?
    ensures v.HBin? ==> ValueOf(v) == Bin(v.bytes) && SlotBlocks(HOne(v)) == Opt(v.block)
    ensures v.HBin? && !f.rule.REQUIRED? ==> (v.block.Some? <==> v.bytes != [])
    ensures v.HStr? <==> f.typ.STRING?
  {
    hide Tight, Typed, MessageOf, BlocksOf;
    assert ValueTyped(S, f.typ, ValueOf(v));
    assert !f.rule.REQUIRED? ==> TightValue(S, f.typ, v);
  }

  lemma MessageSlot(m: HMessage)
    ensures SlotBlocks(HOne(HMsg(m))) == BlocksOf(m) && SlotOf(HOne(HMsg(m))) == One(Msg(MessageOf(m)))
  {
    hide BlocksOf, MessageOf;
  }

  lemma MessageTight(S: Schema, f: Field, m: HMessage)
    requires f.typ.MESSAGE? && Tight(S, f.typ.sub, m)
    ensures TightSlot(S, f, HOne(HMsg(m)))
  {
    hide Tight;
  }

  lemma RepeatedMerge(S: Schema, f: Field, e: HSlot, l: HSlot, groupFree: bool)
    requires SlotReady(S, f, e) && SlotReady(S, f, l) && f.rule.REPEATED?
    ensures e.HMany? && l.HMany? && MergeSlot(S, f, SlotOf(e), SlotOf(l), groupFree) == Many(SlotOf(e).vs + SlotOf(l).vs)
  {
    hide ValueTyped, TightValue, ValuesOf;
  }

  lemma RequiredMerge(S: Schema, f: Field, e: Slot, l: Slot, groupFree: bool)
    requires f.rule.REQUIRED?
    ensures MergeSlot(S, f, e, l, groupFree) == l
  {
  }

  lemma ReadyTight(S: Schema, f: Field, s: HSlot)
    requires SlotReady(S, f, s)
    ensures TightSlot(S, f, s)
  {
  }

  method MergeField(S: Schema, heap: Heap, f: Field, e: HSlot, l: HSlot, ghost groupFree: bool, ghost rest: multiset<nat>)
    returns (ok: bool, e': HSlot, l': HSlot)
    requires NoOneofs(S) && SlotReady(S, f, e) && SlotReady(S, f, l)
    requires heap.Valid() && heap.live == rest + SlotBlocks(e) + SlotBlocks(l)
    modifies heap
    ensures heap.Valid() && heap.live == rest + SlotBlocks(e') + SlotBlocks(l')
    ensures heap.refusals >= old(heap.refusals) && (ok <==> heap.refusals == old(heap.refusals))
    ensures ok ==> TightSlot(S, f, l') && SlotOf(l') == MergeSlot(S, f, SlotOf(e), SlotOf(l), groupFree)
    decreases e, 0
  {
    hide *;
    ReadyTight(S, f, l);
    ReadyTight(S, f, e);
    ok, e', l' := true, e, l;
    if f.rule.REPEATED? {
      RepeatedMerge(S, f, e, l, groupFree);
      ok, e', l' := MergeRepeated(S, heap, f, e, l, rest);
    } else if f.rule.REQUIRED? {
      RequiredMerge(S, f, SlotOf(e), SlotOf(l), groupFree);
    } else if f.typ.MESSAGE? && e.HOne? && l.HOne? {
      MergedMessageSlot(S, f, e, l, groupFree);
      ReadySub(S, f, e.v);
      ReadySub(S, f, l.v);
      MessageSlot(e.v.m);
      MessageSlot(l.v.m);
      var em, lm;
      ok, em, lm := MergeInto(S, heap, f.typ.sub, e.v.m, l.v.m, rest);
      MessageSlot(em);
      MessageSlot(lm);
      if ok { MessageTight(S, f, lm); }
      e', l' := HOne(HMsg(em)), HOne(HMsg(lm));
    } else {
      MovedSlot(S, f, e, l, groupFree);
      if Moves(f, e, l) {
        UnsetBlocks();
        e', l' := HUnset, e;
      }
    }
  }

  lemma UnsetBlocks()
    ensures SlotBlocks(HUnset) == multiset{}
  {
  }

  // ---------------------------------------------------------------------------------------------
  // Whole messages
  // ---------------------------------------------------------------------------------------------

  function WithSlots(m: HMessage, slots: seq<HSlot>): (r: HMessage)
    ensures r.slots == slots
  {
    m.(slots := slots)
  }

  lemma Regroup(rest: multiset<nat>, a: multiset<nat>, x: multiset<nat>, b: multiset<nat>, y: multiset<nat>)
    ensures rest + (a + x) + (b + y) == rest + a + b + x + y
  {
  }

  /** Exchanging one slot in each message exchanges those slots' blocks. */
  lemma ExchangeSlots(rest: multiset<nat>, e: HMessage, es: seq<HSlot>, l: HMessage, ls: seq<HSlot>, i: nat, s: HSlot, t: HSlot)
    requires i < |es| == |ls|
    ensures rest + BlocksOf(WithSlots(e, es)) + BlocksOf(WithSlots(l, ls))
      == rest + Except(WithSlots(e, es), i) + Except(WithSlots(l, ls), i) + SlotBlocks(es[i]) + SlotBlocks(ls[i])
    ensures rest + BlocksOf(WithSlots(e, es[i := s])) + BlocksOf(WithSlots(l, ls[i := t]))
      == rest + Except(WithSlots(e, es), i) + Except(WithSlots(l, ls), i) + SlotBlocks(s) + SlotBlocks(t)
  {
    ExceptSlot(WithSlots(e, es), i, s);
    ExceptSlot(WithSlots(l, ls), i, t);
    hide BlocksOf, Except, SlotBlocks;
    var a, b := Except(WithSlots(e, es), i), Except(WithSlots(l, ls), i);
    Regroup(rest, a, SlotBlocks(es[i]), b, SlotBlocks(ls[i]));
    Regroup(rest, a, SlotBlocks(s), b, SlotBlocks(t));
    assert WithSlots(e, es).(slots := es[i := s]) == WithSlots(e, es[i := s]);
    assert WithSlots(l, ls).(slots := ls[i := t]) == WithSlots(l, ls[i := t]);
  }

  lemma MergedInto(S: Schema, d: nat, e: HMessage, l: HMessage, ls: seq<HSlot>)
    requires d < |S| && |S[d].fields| == |e.slots| == |l.slots| == |ls|
    requires forall i | 0 <= i < |ls| :: SlotOf(ls[i]) == MergeMessages(S, d, MessageOf(e), MessageOf(l)).slots[i]
    requires forall i | 0 <= i < |ls| :: TightSlot(S, S[d].fields[i], ls[i])
    ensures MessageOf(WithSlots(l, ls)) == MergeMessages(S, d, MessageOf(e), MessageOf(l)) && Tight(S, d, WithSlots(l, ls))
  {
    hide SlotOf, MergeSlot, TightSlot;
    var m, r := MessageOf(WithSlots(l, ls)), MergeMessages(S, d, MessageOf(e), MessageOf(l));
    assert forall i | 0 <= i < |ls| :: m.slots[i] == SlotOf(ls[i]);
    assert m.slots == r.slots;
    assert m.unknown == MessageOf(l).unknown;
  }

  lemma SameSlots(m: HMessage)
    ensures WithSlots(m, m.slots) == m
  {
  }

  lemma NoOneofsOf(S: Schema, d: nat, m: HMessage)
    requires Ready(S, d, m)
    ensures NoOneofs(S)
  {
  }

  /**
   Merges `e` into `l`.  Both are returned: the earlier message keeps what was not moved and is to be freed,
   the later one is the result if `ok`, and still owns everything it must if not.
   */
  method MergeInto(S: Schema, heap: Heap, d: nat, e: HMessage, l: HMessage, ghost rest: multiset<nat>)
    returns (ok: bool, e': HMessage, l': HMessage)
    requires Ready(S, d, e) && Ready(S, d, l)
    requires heap.Valid() && heap.live == rest + BlocksOf(e) + BlocksOf(l)
    modifies heap
    ensures heap.Valid() && heap.live == rest + BlocksOf(e') + BlocksOf(l')
    ensures heap.refusals >= old(heap.refusals) && (ok <==> heap.refusals == old(heap.refusals))
    ensures ok ==> Tight(S, d, l') && MessageOf(l') == MergeMessages(S, d, MessageOf(e), MessageOf(l))
    decreases e, 1
  {
    hide *;
    ReadyShape(S, d, e);
    ReadyShape(S, d, l);
    NoOneofsOf(S, d, e);
    SameSlots(e);
    SameSlots(l);
    var es, ls := e.slots, l.slots;
    var fs := S[d].fields;
    ghost var merged := MergeMessages(S, d, MessageOf(e), MessageOf(l));
    for i := 0 to |fs|
      invariant |es| == |ls| == |fs| && es[i..] == e.slots[i..] && ls[i..] == l.slots[i..]
      invariant heap.Valid() && heap.live == rest + BlocksOf(WithSlots(e, es)) + BlocksOf(WithSlots(l, ls))
      invariant heap.refusals == old(heap.refusals)
      invariant forall k | 0 <= k < i :: SlotOf(ls[k]) == merged.slots[k] && TightSlot(S, fs[k], ls[k])
    {
      assert es[i] == es[i..][0] == e.slots[i] && ls[i] == ls[i..][0] == l.slots[i];
      ReadySlot(S, d, e, i);
      ReadySlot(S, d, l, i);
      MergedSlot(S, d, MessageOf(e), MessageOf(l), i);
      ghost var free := GroupFree(fs, MessageOf(l).slots, fs[i]);
      ghost var others := rest + Except(WithSlots(e, es), i) + Except(WithSlots(l, ls), i);
      assert e.slots[i] < e;
      ExchangeSlots(rest, e, es, l, ls, i, es[i], ls[i]);
      var done, s, t := MergeField(S, heap, fs[i], es[i], ls[i], free, others);
      ExchangeSlots(rest, e, es, l, ls, i, s, t);
      es, ls := es[i := s], ls[i := t];
      if !done { return false, WithSlots(e, es), WithSlots(l, ls); }
      assert es[i + 1..] == e.slots[i + 1..] by { assert es[i + 1..] == es[i..][1..]; assert e.slots[i + 1..] == e.slots[i..][1..]; }
      assert ls[i + 1..] == l.slots[i + 1..] by { assert ls[i + 1..] == ls[i..][1..]; assert l.slots[i + 1..] == l.slots[i..][1..]; }
    }
    MergedInto(S, d, e, l, ls);
    return true, WithSlots(e, es), WithSlots(l, ls);
  }
}
