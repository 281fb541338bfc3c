/**
 Giving resources to a child process: capabilities are copied into consecutive slots of its CNode and recorded in
 lists.  Every allocation and every copy may fail; what has been done by then is undone by code that is entered
 in the middle of a loop.
 */
module Grant {
  import opened Schema
  import opened Memory
  import opened Lists

  const CAP_NULL: nat := 0

  /** A list entry that is itself a block, with the kernel object behind it. */
  datatype UntypedObject = UntypedObject(block: nat, obj: nat)

  /** What the child is told: the entry's block, the size and the slot. */
  datatype UntypedData = UntypedData(block: nat, sizeBits: nat, cap: nat)

  datatype DevmemData = DevmemData(block: nat, name: Option<nat>, capsBlock: Option<nat>, caps: seq<nat>)

  datatype IrqData = IrqData(block: nat, name: Option<nat>, irqCap: nat, epCap: nat, number: nat)

  /** The parts of a process handle that grants touch, lists most recent first, and the child's CNode: slot to capability. */
  datatype View = View(
    objects: seq<UntypedObject>, data: seq<UntypedData>, devmem: seq<DevmemData>, irqs: seq<IrqData>,
    next: nat, cnode: map<nat, nat>)

  lemma NullSlot()
    ensures CAP_NULL == 0
  {
  }

  lemma HasNodes<T>(list: List<T>)
    ensures list.Values() != [] ==> list.nodes != []
  {
  }

  class Handle {
    /** How many slots the child's CNode has. */
    const size: nat
    /** Which copies the kernel carries out, if the slot allows them; it may decide as it likes. */
    const copies: nat -> bool
    var attempts: nat
    var cnodeNextFree: nat
    var cnode: map<nat, nat>
    const untypedObjects: List<UntypedObject>
    const untypedData: List<UntypedData>
    const devmem: List<DevmemData>
    const irqs: List<IrqData>

    ghost predicate Valid()
      reads this, untypedObjects, untypedObjects.nodes, untypedData, untypedData.nodes, devmem, devmem.nodes, irqs, irqs.nodes
    {
      0 < cnodeNextFree <= size && untypedObjects.Valid() && untypedData.Valid() && devmem.Valid() && irqs.Valid()
    }

    ghost function State(): View
      reads this, untypedObjects, untypedData, devmem, irqs
    {
      View(untypedObjects.Values(), untypedData.Values(), devmem.Values(), irqs.Values(), cnodeNextFree, cnode)
    }

    lemma Unfold()
      ensures Valid() <==>
        0 < cnodeNextFree <= size && untypedObjects.Valid() && untypedData.Valid() && devmem.Valid() && irqs.Valid()
      ensures State() == View(untypedObjects.Values(), untypedData.Values(), devmem.Values(), irqs.Values(), cnodeNextFree, cnode)
    {
    }

    constructor (firstFree: nat, size: nat, copies: nat -> bool)
      requires 0 < firstFree <= size
      ensures this.size == size && this.copies == copies && attempts == 0 && Valid() && State() == View([], [], [], [], firstFree, map[])
      ensures fresh(untypedObjects) && fresh(untypedData) && fresh(devmem) && fresh(irqs)
    {
      this.size, this.copies, attempts := size, copies, 0;
      cnodeNextFree, cnode := firstFree, map[];
      untypedObjects := new List();
      untypedData := new List();
      devmem := new List();
      irqs := new List();
    }

    /** `libprocess_copy_cap_next_slot`: the copy succeeds if the kernel agrees, the slot is free and the CNode is not full. */
    method CopyCapNextSlot(cap: nat) returns (slot: nat)
      requires Valid()
      modifies this
      ensures Valid() && attempts == old(attempts) + 1
      ensures slot != CAP_NULL <==>
        copies(old(attempts)) && old(State()).next != size && old(State()).next !in old(State()).cnode
      ensures slot == CAP_NULL ==> State() == old(State())
      ensures slot != CAP_NULL ==>
        && slot == old(State()).next
        && State() == old(State()).(next := slot + 1, cnode := old(State()).cnode[slot := cap])
    {
      hide *;
      NullSlot();
      Unfold();
      var copied := copies(attempts);
      attempts := attempts + 1;
      if !copied || cnodeNextFree == size || cnodeNextFree in cnode {
        Unfold();
        return 0;
      }
      slot := cnodeNextFree;
      cnode := cnode[slot := cap];
      cnodeNextFree := cnodeNextFree + 1;
      Unfold();
    }

    /** `libprocess_delete_cap_last_slot` */
    method DeleteCapLastSlot()
      requires Valid() && cnodeNextFree > 1
      modifies this
      ensures Valid()
      ensures State() == old(State()).(next := old(State()).next - 1, cnode := old(State()).cnode - {old(State()).next - 1})
    {
      hide *;
      Unfold();
      cnodeNextFree := cnodeNextFree - 1;
      cnode := cnode - {cnodeNextFree};
      Unfold();
    }

    /** The two prepends of an untyped grant. */
    method PushUntyped(u: UntypedObject, d: UntypedData)
      requires Valid()
      modifies untypedObjects, untypedData
      ensures Valid() && State() == old(State()).(objects := [u] + old(State()).objects, data := [d] + old(State()).data)
    {
      hide *;
      Unfold();
      var dataNode := new Node(d);
      untypedData.Prepend(dataNode);
      var node := new Node(u);
      untypedObjects.Prepend(node);
      Unfold();
    }

    /** The two pops of its rollback. */
    method PopUntyped() returns (u: UntypedObject, d: UntypedData)
      requires Valid() && State().objects != [] && State().data != []
      modifies untypedObjects, untypedData
      ensures Valid() && u == old(State()).objects[0] && d == old(State()).data[0]
      ensures State() == old(State()).(objects := old(State()).objects[1..], data := old(State()).data[1..])
    {
      hide *;
      Unfold();
      HasNodes(untypedObjects);
      HasNodes(untypedData);
      var node := untypedObjects.Pop();
      var dataNode := untypedData.Pop();
      u, d := node.value, dataNode.value;
      Unfold();
    }

    method PushDevmem(d: DevmemData)
      requires Valid()
      modifies devmem
      ensures Valid() && State() == old(State()).(devmem := [d] + old(State()).devmem)
    {
      hide *;
      Unfold();
      var node := new Node(d);
      devmem.Prepend(node);
      Unfold();
    }

    method PushIrq(d: IrqData)
      requires Valid()
      modifies irqs
      ensures Valid() && State() == old(State()).(irqs := [d] + old(State()).irqs)
    {
      hide *;
      Unfold();
      var node := new Node(d);
      irqs.Prepend(node);
      Unfold();
    }
  }

  // ---------------------------------------------------------------------------------------------
  // Slots
  // ---------------------------------------------------------------------------------------------

  /** `caps` in consecutive slots from `first` on. */
  function Filled(cnode: map<nat, nat>, first: nat, caps: seq<nat>): map<nat, nat>
    decreases |caps|
  {
    if caps == [] then cnode else Filled(cnode, first, caps[..|caps| - 1])[first + |caps| - 1 := caps[|caps| - 1]]
  }

  /** No slot of the range was in use. */
  ghost predicate Free(cnode: map<nat, nat>, first: nat, n: nat) {
    forall k | first <= k < first + n :: k !in cnode
  }

  /** The next `n` copies succeed: the kernel agrees, and the slots are there and free. */
  ghost predicate CanCopy(h: Handle, v: View, attempt: nat, n: nat) {
    v.next + n <= h.size && Free(v.cnode, v.next, n) && forall k | attempt <= k < attempt + n :: h.copies(k)
  }

  /** The allocator grants `n` requests from number `first` on. */
  ghost predicate GrantsAll(heap: Heap, first: nat, n: nat) {
    forall k | first <= k < first + n :: heap.grants(k)
  }

  /** Both, for `n` untyped objects: three requests and one copy each. */
  ghost predicate CanGive(h: Handle, heap: Heap, v: View, request: nat, attempt: nat, n: nat) {
    GrantsAll(heap, request, 3 * n) && CanCopy(h, v, attempt, n)
  }

  lemma FilledSnoc(cnode: map<nat, nat>, first: nat, caps: seq<nat>, cap: nat)
    ensures Filled(cnode, first, caps + [cap]) == Filled(cnode, first, caps)[first + |caps| := cap]
  {
    assert (caps + [cap])[..|caps|] == caps;
  }

  lemma {:induction false} FilledKeys(cnode: map<nat, nat>, first: nat, caps: seq<nat>, k: nat)
    ensures k in Filled(cnode, first, caps) <==> k in cnode || first <= k < first + |caps|
    decreases |caps|
  {
    if caps != [] { FilledKeys(cnode, first, caps[..|caps| - 1], k); }
  }

  /** Deleting the last slot undoes the last copy. */
  lemma FilledUndo(cnode: map<nat, nat>, first: nat, caps: seq<nat>, cap: nat)
    requires Free(cnode, first, |caps| + 1)
    ensures Filled(cnode, first, caps + [cap]) - {first + |caps|} == Filled(cnode, first, caps)
  {
    FilledSnoc(cnode, first, caps, cap);
    FilledKeys(cnode, first, caps, first + |caps|);
  }

  // ---------------------------------------------------------------------------------------------
  // Untyped memory
  // ---------------------------------------------------------------------------------------------

  /** The blocks behind the objects and data pushed so far. */
  function GrantBlocks(uts: seq<UntypedObject>, ds: seq<UntypedData>): multiset<nat>
    requires |uts| == |ds|
  {
    if uts == [] then multiset{} else GrantBlocks(uts[1..], ds[1..]) + multiset{uts[0].block, uts[0].obj, ds[0].block}
  }

  /** The capabilities of the objects, oldest first. */
  function CapsOf(uts: seq<UntypedObject>): (r: seq<nat>)
    ensures |r| == |uts|
  {
    if uts == [] then [] else CapsOf(uts[1..]) + [uts[0].obj]
  }

  /** The data entries are for slots `first`, `first + 1`, ..., most recent first. */
  ghost predicate Consecutive(ds: seq<UntypedData>, first: nat, sizeBits: nat) {
    forall k | 0 <= k < |ds| :: ds[k].cap == first + (|ds| - 1 - k) && ds[k].sizeBits == sizeBits
  }

  /** `v` and `live` are `v0` and `live0` with `uts` and `ds` granted. */
  ghost predicate Pushed(v: View, live: multiset<nat>, uts: seq<UntypedObject>, ds: seq<UntypedData>, sizeBits: nat, v0: View, live0: multiset<nat>) {
    && |uts| == |ds| && Consecutive(ds, v0.next, sizeBits) && Free(v0.cnode, v0.next, |uts|)
    && live == live0 + GrantBlocks(uts, ds)
    && v == v0.(objects := uts + v0.objects, data := ds + v0.data, next := v0.next + |uts|, cnode := Filled(v0.cnode, v0.next, CapsOf(uts)))
  }

  lemma PushedNone(v0: View, live0: multiset<nat>, sizeBits: nat)
    ensures Pushed(v0, live0, [], [], sizeBits, v0, live0)
  {
    assert [] + v0.objects == v0.objects && [] + v0.data == v0.data;
  }

  lemma PushedNone2(v: View, live: multiset<nat>, sizeBits: nat, v0: View, live0: multiset<nat>)
    requires Pushed(v, live, [], [], sizeBits, v0, live0)
    ensures v == v0 && live == live0
  {
    assert [] + v0.objects == v0.objects && [] + v0.data == v0.data;
  }

  lemma PushedLengths(v: View, live: multiset<nat>, uts: seq<UntypedObject>, ds: seq<UntypedData>, sizeBits: nat, v0: View, live0: multiset<nat>)
    requires Pushed(v, live, uts, ds, sizeBits, v0, live0)
    ensures |uts| == |ds| && v.next == v0.next + |uts| && |v.objects| >= |uts| && |v.data| >= |ds|
  {
    hide Consecutive, Free, GrantBlocks, Filled, CapsOf;
  }

  lemma PushedParts(v: View, live: multiset<nat>, uts: seq<UntypedObject>, ds: seq<UntypedData>, sizeBits: nat, v0: View, live0: multiset<nat>)
    ensures Pushed(v, live, uts, ds, sizeBits, v0, live0) <==>
      && |uts| == |ds| && Consecutive(ds, v0.next, sizeBits) && Free(v0.cnode, v0.next, |uts|)
      && live == live0 + GrantBlocks(uts, ds)
      && v == v0.(objects := uts + v0.objects, data := ds + v0.data, next := v0.next + |uts|, cnode := Filled(v0.cnode, v0.next, CapsOf(uts)))
  {
    hide Consecutive, Free, GrantBlocks, Filled, CapsOf;
  }

  lemma GrantCons(uts: seq<UntypedObject>, ds: seq<UntypedData>, u: UntypedObject, d: UntypedData, first: nat, sizeBits: nat, live0: multiset<nat>)
    requires |uts| == |ds|
    ensures CapsOf([u] + uts) == CapsOf(uts) + [u.obj]
    ensures live0 + GrantBlocks([u] + uts, [d] + ds) == live0 + GrantBlocks(uts, ds) + multiset{u.block, u.obj, d.block}
    ensures Consecutive([d] + ds, first, sizeBits) <==> Consecutive(ds, first, sizeBits) && d.cap == first + |ds| && d.sizeBits == sizeBits
  {
    hide *;
    CapsCons(uts, u);
    BlocksCons(uts, ds, u, d);
    ConsecutiveCons(ds, d, first, sizeBits);
    var x, y := GrantBlocks(uts, ds), multiset{u.block, u.obj, d.block};
    assert live0 + (x + y) == live0 + x + y;
  }

  lemma CapsCons(uts: seq<UntypedObject>, u: UntypedObject)
    ensures CapsOf([u] + uts) == CapsOf(uts) + [u.obj]
  {
    assert ([u] + uts)[1..] == uts;
  }

  lemma BlocksCons(uts: seq<UntypedObject>, ds: seq<UntypedData>, u: UntypedObject, d: UntypedData)
    requires |uts| == |ds|
    ensures GrantBlocks([u] + uts, [d] + ds) == GrantBlocks(uts, ds) + multiset{u.block, u.obj, d.block}
  {
    assert ([u] + uts)[1..] == uts && ([d] + ds)[1..] == ds;
  }

  lemma ConsecutiveCons(ds: seq<UntypedData>, d: UntypedData, first: nat, sizeBits: nat)
    ensures Consecutive([d] + ds, first, sizeBits) <==> Consecutive(ds, first, sizeBits) && d.cap == first + |ds| && d.sizeBits == sizeBits
  {
    var es := [d] + ds;
    assert es[0] == d && forall k | 0 <= k < |ds| :: es[k + 1] == ds[k];
    if Consecutive(es, first, sizeBits) {
      forall k | 0 <= k < |ds| ensures ds[k].cap == first + (|ds| - 1 - k) && ds[k].sizeBits == sizeBits { assert es[k + 1] == ds[k]; }
    }
  }

  lemma FreeCons(cnode: map<nat, nat>, first: nat, caps: seq<nat>)
    ensures Free(cnode, first, |caps| + 1) <==> Free(cnode, first, |caps|) && first + |caps| !in Filled(cnode, first, caps)
  {
    FilledKeys(cnode, first, caps, first + |caps|);
    hide Filled;
  }

  lemma PushedNext(v: View, live: multiset<nat>, uts: seq<UntypedObject>, ds: seq<UntypedData>, sizeBits: nat, v0: View, live0: multiset<nat>,
                   u: UntypedObject, block: nat)
    requires Pushed(v, live, uts, ds, sizeBits, v0, live0) && v.next !in v.cnode
    ensures var d := UntypedData(block, sizeBits, v.next);
      Pushed(v.(objects := [u] + v.objects, data := [d] + v.data, next := v.next + 1, cnode := v.cnode[v.next := u.obj]),
             live + multiset{u.block, u.obj, block}, [u] + uts, [d] + ds, sizeBits, v0, live0)
  {
    hide *;
    var d := UntypedData(block, sizeBits, v.next);
    var v' := v.(objects := [u] + v.objects, data := [d] + v.data, next := v.next + 1, cnode := v.cnode[v.next := u.obj]);
    PushedParts(v, live, uts, ds, sizeBits, v0, live0);
    PushedParts(v', live + multiset{u.block, u.obj, block}, [u] + uts, [d] + ds, sizeBits, v0, live0);
    GrantCons(uts, ds, u, d, v0.next, sizeBits, live0);
    FreeCons(v0.cnode, v0.next, CapsOf(uts));
    FilledSnoc(v0.cnode, v0.next, CapsOf(uts), u.obj);
    ConsAppend(u, uts, v0.objects);
    ConsAppend(d, ds, v0.data);
  }

  lemma ConsAppend<T>(x: T, a: seq<T>, b: seq<T>)
    ensures [x] + a + b == [x] + (a + b) && ([x] + (a + b))[1..] == a + b && ([x] + a)[1..] == a
  {
  }

  lemma Uncons<T>(a: seq<T>)
    requires a != []
    ensures a == [a[0]] + a[1..]
  {
  }

  lemma PushedPop(v: View, live: multiset<nat>, uts: seq<UntypedObject>, ds: seq<UntypedData>, sizeBits: nat, v0: View, live0: multiset<nat>)
    requires Pushed(v, live, uts, ds, sizeBits, v0, live0) && uts != []
    ensures |ds| == |uts| && |v.objects| > 0 && |v.data| > 0 && v.objects[0] == uts[0] && v.data[0] == ds[0] && v.next > v0.next
    ensures var live' := live0 + GrantBlocks(uts[1..], ds[1..]);
      && live == live' + multiset{uts[0].block, uts[0].obj, ds[0].block}
      && Pushed(v.(objects := v.objects[1..], data := v.data[1..], next := v.next - 1, cnode := v.cnode - {v.next - 1}),
                live', uts[1..], ds[1..], sizeBits, v0, live0)
  {
    hide *;
    PushedParts(v, live, uts, ds, sizeBits, v0, live0);
    var us', es', u, d := uts[1..], ds[1..], uts[0], ds[0];
    Uncons(uts);
    Uncons(ds);
    ConsAppend(u, us', v0.objects);
    ConsAppend(d, es', v0.data);
    GrantCons(us', es', u, d, v0.next, sizeBits, live0);
    FreeCons(v0.cnode, v0.next, CapsOf(us'));
    FilledUndo(v0.cnode, v0.next, CapsOf(us'), u.obj);
    PushedParts(v.(objects := v.objects[1..], data := v.data[1..], next := v.next - 1, cnode := v.cnode - {v.next - 1}),
                live0 + GrantBlocks(us', es'), us', es', sizeBits, v0, live0);
  }

  /** Where the rollback is entered: at the top of its loop, or at one of the labels inside the loop's body. */
  datatype Label = LoopTop | FailedCapCopy | FailedDataMalloc | FailedVka

  /** What has been allocated for the object being granted when a label is jumped to. */
  function Partial(entry: Label, ut: nat, obj: nat, data: nat): multiset<nat> {
    match entry
    case LoopTop => multiset{}
    case FailedVka => multiset{ut}
    case FailedDataMalloc => multiset{ut, obj}
    case FailedCapCopy => multiset{ut, obj, data}
  }

  /** The rest of the loop body from a label on: frees what the label says is there. */
  method FreeFrom(heap: Heap, entry: Label, ut: nat, obj: nat, data: nat, ghost rest: multiset<nat>)
    requires heap.Valid()
    requires heap.live == rest + Partial(if entry == LoopTop then FailedCapCopy else entry, ut, obj, data)
    modifies heap
    ensures heap.Valid() && heap.live == rest && heap.refusals == old(heap.refusals)
  {
    if entry == LoopTop || entry == FailedCapCopy {
      assert heap.live == rest + multiset{ut, obj} + Opt(Some(data));
      FreeBlock(heap, Some(data), rest + multiset{ut, obj});
    }
    if entry != FailedVka {
      assert heap.live == rest + multiset{ut} + Opt(Some(obj));
      FreeBlock(heap, Some(obj), rest + multiset{ut});
    }
    assert heap.live == rest + Opt(Some(ut));
    FreeBlock(heap, Some(ut), rest);
  }

  /** One round of the rollback loop, begun at its top or at a label inside. */
  method RollbackOne(h: Handle, heap: Heap, entry: Label, ut0: nat, obj0: nat, data0: nat,
                     ghost us: seq<UntypedObject>, ghost es: seq<UntypedData>, ghost sizeBits: nat, ghost v0: View, ghost live0: multiset<nat>,
                     ghost live: multiset<nat>)
    returns (ut: nat, obj: nat, data: nat, ghost us': seq<UntypedObject>, ghost es': seq<UntypedData>, ghost live': multiset<nat>)
    requires (entry == LoopTop ==> us != []) && v0.next > 0
    requires heap.Valid() && heap.live == live + Partial(entry, ut0, obj0, data0)
    requires h.Valid() && Pushed(h.State(), live, us, es, sizeBits, v0, live0)
    modifies heap, h, h.untypedObjects, h.untypedData
    ensures heap.Valid() && heap.live == live'
    ensures h.Valid() && Pushed(h.State(), live', us', es', sizeBits, v0, live0)
    ensures |us'| == if entry == LoopTop then |us| - 1 else |us|
  {
    hide *;
    ut, obj, data, us', es', live' := ut0, obj0, data0, us, es, live;
    if entry == LoopTop {
      PartialNone(live, ut, obj, data);
      ut, obj, data, us', es', live' := PopOne(h, live, us, es, sizeBits, v0, live0);
      PartialThree(ut, obj, data);
    }
    FreeFrom(heap, entry, ut, obj, data, live');
  }

  /** The jump into the rollback loop and the loop itself. The loop's test is skipped when it is entered inside. */
  method Rollback(h: Handle, heap: Heap, start: Label, i0: nat, ut0: nat, obj0: nat, data0: nat,
                  ghost uts: seq<UntypedObject>, ghost ds: seq<UntypedData>, ghost sizeBits: nat, ghost v0: View, ghost live0: multiset<nat>,
                  ghost pushed: multiset<nat>)
    requires i0 == |uts| && v0.next > 0
    requires heap.Valid() && heap.live == pushed + Partial(start, ut0, obj0, data0)
    requires h.Valid() && Pushed(h.State(), pushed, uts, ds, sizeBits, v0, live0)
    modifies heap, h, h.untypedObjects, h.untypedData
    ensures heap.Valid() && heap.live == live0
    ensures h.Valid() && h.State() == v0
  {
    hide *;
    var entry, ut, obj, data := start, ut0, obj0, data0;
    var i: int := i0;
    if start == LoopTop { i := i - 1; }
    ghost var us, es, live := uts, ds, pushed;
    while entry != LoopTop || i >= 0
      invariant i == (if entry == LoopTop then |us| - 1 else |us|)
      invariant heap.Valid() && heap.live == live + Partial(entry, ut, obj, data)
      invariant h.Valid() && Pushed(h.State(), live, us, es, sizeBits, v0, live0)
      decreases i, entry != LoopTop
    {
      ut, obj, data, us, es, live := RollbackOne(h, heap, entry, ut, obj, data, us, es, sizeBits, v0, live0, live);
      PartialNone(live, ut, obj, data);
      entry := LoopTop;
      i := i - 1;
    }
    PartialNone(live, ut, obj, data);
    PushedLengths(h.State(), live, us, es, sizeBits, v0, live0);
    PushedNone2(h.State(), live, sizeBits, v0, live0);
  }

  /** The top of the loop body: the two pops and the deletion of the last slot. */
  method PopOne(h: Handle, ghost live: multiset<nat>, ghost us: seq<UntypedObject>, ghost es: seq<UntypedData>,
                ghost sizeBits: nat, ghost v0: View, ghost live0: multiset<nat>)
    returns (ut: nat, obj: nat, data: nat, ghost us': seq<UntypedObject>, ghost es': seq<UntypedData>, ghost live': multiset<nat>)
    requires h.Valid() && us != [] && v0.next > 0 && Pushed(h.State(), live, us, es, sizeBits, v0, live0)
    modifies h, h.untypedObjects, h.untypedData
    ensures h.Valid() && |us'| == |us| - 1 && Pushed(h.State(), live', us', es', sizeBits, v0, live0)
    ensures live == live' + multiset{ut, obj, data}
  {
    hide *;
    PushedPop(h.State(), live, us, es, sizeBits, v0, live0);
    NextIs(h);
    var u, d := h.PopUntyped();
    h.DeleteCapLastSlot();
    ut, obj, data := u.block, u.obj, d.block;
    us', es', live' := us[1..], es[1..], live0 + GrantBlocks(us[1..], es[1..]);
  }

  lemma NextIs(h: Handle)
    requires h.Valid()
    ensures h.State().next == h.cnodeNextFree
  {
  }

  datatype Status = Success | MallocError | VkaError | CapCopyError

  /**
   `process_give_untyped_resources`: either grants all the objects, in fresh consecutive slots and at the head
   of both lists, or leaves the lists, the CNode, the slot counter and the heap as they were.
   */
  method GiveUntypedResources(h: Handle, heap: Heap, sizeBits: nat, numObjects: nat)
    returns (status: Status, ghost uts: seq<UntypedObject>, ghost ds: seq<UntypedData>)
    requires h.Valid() && heap.Valid()
    modifies heap, h, h.untypedObjects, h.untypedData
    ensures h.Valid() && heap.Valid()
    ensures status.Success? ==> |uts| == numObjects && Pushed(h.State(), heap.live, uts, ds, sizeBits, old(h.State()), old(heap.live))
    ensures !status.Success? ==> h.State() == old(h.State()) && heap.live == old(heap.live)
    ensures status.Success? <==> CanGive(h, heap, old(h.State()), old(heap.requests), old(h.attempts), numObjects)
  {
    NextPositive(h);
    hide *;
    ghost var v0, live0 := h.State(), heap.live;
    ghost var request0, attempt0 := heap.requests, h.attempts;
    NoneToGrant(h, heap, v0, request0, attempt0);
    uts, ds := [], [];
    PushedNone(v0, live0, sizeBits);
    var i := 0;
    while i < numObjects
      invariant i == |uts| <= numObjects && heap.Valid() && h.Valid()
      invariant Pushed(h.State(), heap.live, uts, ds, sizeBits, v0, live0)
      invariant heap.requests == request0 + 3 * i && h.attempts == attempt0 + i
      invariant CanGive(h, heap, v0, request0, attempt0, i)
    {
      ghost var pushed := heap.live;
      var label0, ut, obj, data;
      ghost var u, d;
      status, label0, ut, obj, data, u, d := GrantNext(h, heap, sizeBits, uts, ds, v0, live0, request0, attempt0);
      if status != Success {
        NotAll(h, heap, v0, request0, attempt0, i + 1, numObjects);
        Rollback(h, heap, label0, i, ut, obj, data, uts, ds, sizeBits, v0, live0, pushed);
        return;
      }
      uts, ds := [u] + uts, [d] + ds;
      i := i + 1;
    }
    status := Success;
  }

  lemma NoneToGrant(h: Handle, heap: Heap, v0: View, request: nat, attempt: nat)
    requires h.Valid() && v0 == h.State()
    ensures CanGive(h, heap, v0, request, attempt, 0)
  {
  }

  /** What the next iteration needs, when the ones before have had theirs. */
  lemma OneMore(h: Handle, heap: Heap, v: View, live: multiset<nat>, uts: seq<UntypedObject>, ds: seq<UntypedData>, sizeBits: nat,
                v0: View, live0: multiset<nat>, request: nat, attempt: nat)
    requires Pushed(v, live, uts, ds, sizeBits, v0, live0)
    requires CanGive(h, heap, v0, request, attempt, |uts|)
    ensures var i := |uts|;
      CanGive(h, heap, v0, request, attempt, i + 1) <==>
        GrantsAll(heap, request + 3 * i, 3) && h.copies(attempt + i) && v.next < h.size && v.next !in v.cnode
  {
    PushedParts(v, live, uts, ds, sizeBits, v0, live0);
    hide Pushed, Filled, Free, CapsOf, GrantBlocks, Consecutive;
    FreeCons(v0.cnode, v0.next, CapsOf(uts));
  }

  lemma NotAll(h: Handle, heap: Heap, v0: View, request: nat, attempt: nat, i: nat, n: nat)
    requires i <= n
    ensures CanGive(h, heap, v0, request, attempt, n) ==> CanGive(h, heap, v0, request, attempt, i)
  {
  }

  /** The three allocations of an iteration; if one is refused, `entry` is where it jumps to. */
  method AllocThree(heap: Heap) returns (status: Status, entry: Label, ut: nat, obj: nat, data: nat)
    requires heap.Valid()
    modifies heap
    ensures heap.Valid()
    ensures status == Success ==> heap.live == old(heap.live) + multiset{ut, obj, data}
    ensures status != Success ==> heap.live == old(heap.live) + Partial(entry, ut, obj, data) && entry != FailedCapCopy
    ensures status ==
      if !heap.grants(old(heap.requests)) then MallocError
      else if !heap.grants(old(heap.requests) + 1) then VkaError
      else if !heap.grants(old(heap.requests) + 2) then MallocError
      else Success
    ensures status == Success ==> heap.requests == old(heap.requests) + 3
  {
    hide *;
    ghost var live := heap.live;
    ut, obj, data := 0, 0, 0;
    var utBlock := heap.Alloc();
    if utBlock.None? {
      PartialNone(live, 0, 0, 0);
      return MallocError, LoopTop, ut, obj, data;
    }
    ut := utBlock.value;
    var objBlock := heap.Alloc();
    if objBlock.None? {
      PartialOne(ut);
      return VkaError, FailedVka, ut, obj, data;
    }
    obj := objBlock.value;
    var dataBlock := heap.Alloc();
    if dataBlock.None? {
      PartialTwo(live, ut, obj);
      return MallocError, FailedDataMalloc, ut, obj, data;
    }
    data := dataBlock.value;
    AllThree(live, ut, obj, data);
    return Success, LoopTop, ut, obj, data;
  }

  lemma PartialNone(live: multiset<nat>, ut: nat, obj: nat, data: nat)
    ensures live + Partial(LoopTop, ut, obj, data) == live
  {
  }

  lemma PartialOne(ut: nat)
    ensures Partial(FailedVka, ut, 0, 0) == multiset{ut}
  {
  }

  lemma PartialTwo(live: multiset<nat>, ut: nat, obj: nat)
    ensures live + multiset{ut} + multiset{obj} == live + Partial(FailedDataMalloc, ut, obj, 0)
  {
  }

  lemma AllThree(live: multiset<nat>, ut: nat, obj: nat, data: nat)
    ensures live + multiset{ut} + multiset{obj} + multiset{data} == live + multiset{ut, obj, data}
  {
  }

  lemma PartialThree(ut: nat, obj: nat, data: nat)
    ensures Partial(FailedCapCopy, ut, obj, data) == multiset{ut, obj, data}
  {
  }

  /** One iteration; if it fails, `entry` is where it jumps to. */
  method GrantOne(h: Handle, heap: Heap, sizeBits: nat, ghost uts: seq<UntypedObject>, ghost ds: seq<UntypedData>, ghost v0: View, ghost live0: multiset<nat>)
    returns (status: Status, entry: Label, ut: nat, obj: nat, data: nat, ghost u: UntypedObject, ghost d: UntypedData)
    requires h.Valid() && heap.Valid() && Pushed(h.State(), heap.live, uts, ds, sizeBits, v0, live0)
    modifies heap, h, h.untypedObjects, h.untypedData
    ensures h.Valid() && heap.Valid()
    ensures status == Success ==> Pushed(h.State(), heap.live, [u] + uts, [d] + ds, sizeBits, v0, live0)
    ensures status != Success ==> h.State() == old(h.State()) && heap.live == old(heap.live) + Partial(entry, ut, obj, data)
    ensures status ==
      if !heap.grants(old(heap.requests)) then MallocError
      else if !heap.grants(old(heap.requests) + 1) then VkaError
      else if !heap.grants(old(heap.requests) + 2) then MallocError
      else if h.copies(old(h.attempts)) && old(h.State()).next != h.size && old(h.State()).next !in old(h.State()).cnode then Success
      else CapCopyError
    ensures status == Success ==> heap.requests == old(heap.requests) + 3 && h.attempts == old(h.attempts) + 1
  {
    hide *;
    ghost var v, pushed := h.State(), heap.live;
    u, d := UntypedObject(0, 0), UntypedData(0, 0, 0);
    status, entry, ut, obj, data := AllocThree(heap);
    if status != Success { return; }
    NullSlot();
    var cap := h.CopyCapNextSlot(obj);
    if cap == 0 {
      PartialThree(ut, obj, data);
      status, entry := CapCopyError, FailedCapCopy;
      return;
    }
    u, d := UntypedObject(ut, obj), UntypedData(data, sizeBits, cap);
    PushedNext(v, pushed, uts, ds, sizeBits, v0, live0, u, data);
    h.PushUntyped(UntypedObject(ut, obj), UntypedData(data, sizeBits, cap));
  }

  lemma ThreeGranted(heap: Heap, request: nat)
    ensures GrantsAll(heap, request, 3) <==> heap.grants(request) && heap.grants(request + 1) && heap.grants(request + 2)
  {
  }

  /** The same, with what has been needed since the call began. */
  method GrantNext(h: Handle, heap: Heap, sizeBits: nat, ghost uts: seq<UntypedObject>, ghost ds: seq<UntypedData>, ghost v0: View, ghost live0: multiset<nat>,
                   ghost request: nat, ghost attempt: nat)
    returns (status: Status, entry: Label, ut: nat, obj: nat, data: nat, ghost u: UntypedObject, ghost d: UntypedData)
    requires h.Valid() && heap.Valid() && Pushed(h.State(), heap.live, uts, ds, sizeBits, v0, live0)
    requires heap.requests == request + 3 * |uts| && h.attempts == attempt + |uts| && CanGive(h, heap, v0, request, attempt, |uts|)
    modifies heap, h, h.untypedObjects, h.untypedData
    ensures h.Valid() && heap.Valid()
    ensures status == Success ==> Pushed(h.State(), heap.live, [u] + uts, [d] + ds, sizeBits, v0, live0)
    ensures status != Success ==> h.State() == old(h.State()) && heap.live == old(heap.live) + Partial(entry, ut, obj, data)
    ensures status == Success <==> CanGive(h, heap, v0, request, attempt, |uts| + 1)
    ensures status == Success ==> heap.requests == request + 3 * (|uts| + 1) && h.attempts == attempt + |uts| + 1
  {
    NextIsInside(h);
    hide *;
    OneMore(h, heap, h.State(), heap.live, uts, ds, sizeBits, v0, live0, request, attempt);
    ThreeGranted(heap, heap.requests);
    status, entry, ut, obj, data, u, d := GrantOne(h, heap, sizeBits, uts, ds, v0, live0);
  }

  lemma NextPositive(h: Handle)
    requires h.Valid()
    ensures h.State().next > 0
  {
  }

  // ---------------------------------------------------------------------------------------------
  // Device memory and interrupts
  // ---------------------------------------------------------------------------------------------

  /** `v0` with `caps` copied into its next slots. */
  function Copied(v0: View, caps: seq<nat>): View {
    v0.(next := v0.next + |caps|, cnode := Filled(v0.cnode, v0.next, caps))
  }

  lemma CopiedNext(v0: View, caps: seq<nat>, k: nat)
    requires k < |caps| && Free(v0.cnode, v0.next, k) && Copied(v0, caps[..k]).next !in Copied(v0, caps[..k]).cnode
    ensures var v := Copied(v0, caps[..k]);
      v.(next := v.next + 1, cnode := v.cnode[v.next := caps[k]]) == Copied(v0, caps[..k + 1])
    ensures Free(v0.cnode, v0.next, k + 1)
  {
    assert caps[..k + 1] == caps[..k] + [caps[k]];
    FilledSnoc(v0.cnode, v0.next, caps[..k], caps[k]);
    FreeCons(v0.cnode, v0.next, caps[..k]);
  }

  lemma CopiedUndo(v0: View, caps: seq<nat>, k: nat)
    requires 0 < k <= |caps| && Free(v0.cnode, v0.next, k)
    ensures var v := Copied(v0, caps[..k]);
      v.(next := v.next - 1, cnode := v.cnode - {v.next - 1}) == Copied(v0, caps[..k - 1])
    ensures Free(v0.cnode, v0.next, k - 1)
  {
    assert caps[..k] == caps[..k - 1] + [caps[k - 1]];
    FilledUndo(v0.cnode, v0.next, caps[..k - 1], caps[k - 1]);
  }

  lemma CopiedNone(v0: View, caps: seq<nat>)
    ensures Copied(v0, caps[..0]) == v0 && Free(v0.cnode, v0.next, 0)
  {
  }

  /** The state when the first `k` of `caps` have been copied. */
  ghost predicate CopiedSoFar(h: Handle, v0: View, caps: seq<nat>, k: nat)
    reads h, h.untypedObjects, h.untypedObjects.nodes, h.untypedData, h.untypedData.nodes, h.devmem, h.devmem.nodes, h.irqs, h.irqs.nodes
  {
    h.Valid() && k <= |caps| && v0.next > 0 && Free(v0.cnode, v0.next, k) && h.State() == Copied(v0, caps[..k])
  }

  lemma CopiedStart(h: Handle, caps: seq<nat>)
    requires h.Valid()
    ensures CopiedSoFar(h, h.State(), caps, 0)
  {
    CopiedNone(h.State(), caps);
  }

  lemma CopiedParts(h: Handle, v0: View, caps: seq<nat>, k: nat)
    ensures CopiedSoFar(h, v0, caps, k) <==>
      h.Valid() && k <= |caps| && v0.next > 0 && Free(v0.cnode, v0.next, k) && h.State() == Copied(v0, caps[..k])
    ensures k <= |caps| ==> Copied(v0, caps[..k]).next == v0.next + k && Copied(v0, caps[..k]).cnode == Filled(v0.cnode, v0.next, caps[..k])
  {
  }

  lemma FreeNext(cnode: map<nat, nat>, first: nat, n: nat)
    ensures Free(cnode, first, n + 1) <==> Free(cnode, first, n) && first + n !in cnode
  {
  }

  lemma NextIsInside(h: Handle)
    ensures h.Valid() ==> h.State().next <= h.size
  {
  }

  /** Copies one more. */
  method CopyOneMore(h: Handle, caps: seq<nat>, k: nat, ghost v0: View) returns (slot: nat)
    requires k < |caps| && CopiedSoFar(h, v0, caps, k)
    modifies h
    ensures slot != CAP_NULL ==> slot == v0.next + k && CopiedSoFar(h, v0, caps, k + 1)
    ensures slot == CAP_NULL ==> CopiedSoFar(h, v0, caps, k)
    ensures h.attempts == old(h.attempts) + 1
    ensures slot != CAP_NULL <==> h.copies(old(h.attempts)) && v0.next + k < h.size && v0.next + k !in v0.cnode
  {
    NextIsInside(h);
    hide *;
    CopiedParts(h, v0, caps, k);
    FreeCons(v0.cnode, v0.next, caps[..k]);
    FreeNext(v0.cnode, v0.next, k);
    slot := h.CopyCapNextSlot(caps[k]);
    if slot != CAP_NULL { CopiedNext(v0, caps, k); }
    CopiedParts(h, v0, caps, k);
    CopiedParts(h, v0, caps, k + 1);
  }

  /** Deletes the last one again. */
  method DeleteOne(h: Handle, ghost caps: seq<nat>, ghost k: nat, ghost v0: View)
    requires k > 0 && CopiedSoFar(h, v0, caps, k)
    modifies h
    ensures CopiedSoFar(h, v0, caps, k - 1)
  {
    hide *;
    CopiedParts(h, v0, caps, k);
    CopiedUndo(v0, caps, k);
    NextIs(h);
    h.DeleteCapLastSlot();
    CopiedParts(h, v0, caps, k - 1);
  }

  /** `uncopy_caps`: deletes the last `k` slots. */
  method UncopyCaps(h: Handle, k: nat, ghost caps: seq<nat>, ghost v0: View)
    requires CopiedSoFar(h, v0, caps, k)
    modifies h
    ensures h.Valid() && h.State() == v0
  {
    hide *;
    var current := k - 1;
    while current >= 0
      invariant -1 <= current < k && CopiedSoFar(h, v0, caps, current + 1)
    {
      DeleteOne(h, caps, current + 1, v0);
      current := current - 1;
    }
    CopiedParts(h, v0, caps, 0);
    CopiedNone(v0, caps);
  }

  lemma NothingToCopy(h: Handle, v0: View, attempt: nat)
    requires h.Valid() && v0 == h.State()
    ensures CanCopy(h, v0, attempt, 0)
  {
  }

  lemma OneMoreCopy(h: Handle, v0: View, attempt: nat, k: nat)
    ensures CanCopy(h, v0, attempt, k + 1) <==>
      CanCopy(h, v0, attempt, k) && h.copies(attempt + k) && v0.next + k < h.size && v0.next + k !in v0.cnode
  {
  }

  lemma NotAllCopies(h: Handle, v0: View, attempt: nat, k: nat, n: nat)
    requires k <= n
    ensures CanCopy(h, v0, attempt, n) ==> CanCopy(h, v0, attempt, k)
  {
  }

  /** The loop that copies the frames; on failure it has already been undone. */
  method CopyCaps(h: Handle, caps: seq<nat>) returns (ok: bool, slots: seq<nat>)
    requires h.Valid()
    modifies h
    ensures h.Valid()
    ensures ok ==> h.State() == Copied(old(h.State()), caps) && Free(old(h.State()).cnode, old(h.State()).next, |caps|)
    ensures ok ==> |slots| == |caps| && forall k | 0 <= k < |slots| :: slots[k] == old(h.State()).next + k
    ensures !ok ==> h.State() == old(h.State())
    ensures ok <==> CanCopy(h, old(h.State()), old(h.attempts), |caps|)
  {
    hide *;
    ghost var v0, attempt0 := h.State(), h.attempts;
    NothingToCopy(h, v0, attempt0);
    CopiedStart(h, caps);
    slots := [];
    for current := 0 to |caps|
      invariant CopiedSoFar(h, v0, caps, current)
      invariant |slots| == current && forall k | 0 <= k < current :: slots[k] == v0.next + k
      invariant h.attempts == attempt0 + current && CanCopy(h, v0, attempt0, current)
    {
      OneMoreCopy(h, v0, attempt0, current);
      var slot := CopyOneMore(h, caps, current, v0);
      if slot == CAP_NULL {
        NotAllCopies(h, v0, attempt0, current + 1, |caps|);
        UncopyCaps(h, current, caps, v0);
        return false, slots;
      }
      slots := slots + [slot];
    }
    CopiedParts(h, v0, caps, |caps|);
    assert caps[..|caps|] == caps;
    ok := true;
  }

  lemma OptOf(live: multiset<nat>, block: Option<nat>)
    ensures block.Some? ==> live + Opt(block) == live + multiset{block.value}
    ensures block.None? ==> live + Opt(block) == live
  {
  }

  /** The list entry and a copy of the name for it. The latter may be missing; nobody checks. */
  method AllocEntry(heap: Heap) returns (entry: Option<nat>, name: Option<nat>)
    requires heap.Valid()
    modifies heap
    ensures heap.Valid() && heap.live == old(heap.live) + Opt(name) + Opt(entry)
    ensures entry.None? ==> name.None?
    ensures entry.Some? <==> heap.grants(old(heap.requests))
    ensures name.Some? <==> heap.grants(old(heap.requests)) && heap.grants(old(heap.requests) + 1)
    ensures entry.Some? ==> heap.requests == old(heap.requests) + 2
  {
    hide *;
    ghost var live := heap.live;
    OptOf(live, None);
    name := None;
    entry := heap.Alloc();
    OptOf(live, entry);
    if entry.None? { return; }
    name := heap.Alloc();
    OptOf(heap.live, None);
    EntryAndName(live, entry, name);
  }

  lemma EntryAndName(live: multiset<nat>, entry: Option<nat>, name: Option<nat>)
    requires entry.Some?
    ensures name.Some? ==> live + multiset{entry.value} + multiset{name.value} == live + Opt(name) + Opt(entry)
    ensures name.None? ==> live + multiset{entry.value} == live + Opt(name) + Opt(entry)
  {
  }

  lemma NothingThere(live: multiset<nat>)
    ensures live + Opt(None) + Opt(None) == live + Opt(None)
  {
  }

  lemma CopiedLists(v0: View, caps: seq<nat>)
    ensures Copied(v0, caps).devmem == v0.devmem && Copied(v0, caps).irqs == v0.irqs
  {
  }

  /** The capabilities to copy; NULL stands for none. */
  function CapsIn(caps: Option<seq<nat>>): seq<nat> {
    match caps case None => [] case Some(cs) => cs
  }

  lemma NoCaps(v0: View, caps: Option<seq<nat>>)
    ensures caps.None? ==> CapsIn(caps) == [] && Copied(v0, CapsIn(caps)) == v0 && Free(v0.cnode, v0.next, 0)
    ensures caps.Some? ==> CapsIn(caps) == caps.value
  {
    CopiedNone(v0, []);
  }

  /** The middle of `copy_devmem_to_proc`: the array of new slots and the copies, if there are capabilities. */
  method CopyOptCaps(h: Handle, heap: Heap, caps: Option<seq<nat>>) returns (ok: bool, capsBlock: Option<nat>, slots: seq<nat>)
    requires h.Valid() && heap.Valid()
    modifies heap, h
    ensures h.Valid() && heap.Valid()
    ensures ok ==>
      && h.State() == Copied(old(h.State()), CapsIn(caps)) && heap.live == old(heap.live) + Opt(capsBlock)
      && (capsBlock.Some? <==> caps.Some?)
      && Free(old(h.State()).cnode, old(h.State()).next, |slots|)
      && |slots| == |CapsIn(caps)| && forall k | 0 <= k < |slots| :: slots[k] == old(h.State()).next + k
    ensures !ok ==> h.State() == old(h.State()) && heap.live == old(heap.live)
    ensures ok <==> caps.None? || (heap.grants(old(heap.requests)) && CanCopy(h, old(h.State()), old(h.attempts), |caps.value|))
  {
    hide *;
    ghost var live := heap.live;
    capsBlock, slots := None, [];
    OptOf(live, None);
    NoCaps(h.State(), caps);
    if caps.None? { return true, capsBlock, slots; }
    capsBlock := heap.Alloc();
    OptOf(live, capsBlock);
    if capsBlock.None? { return false, capsBlock, slots; }
    ok, slots := CopyCaps(h, caps.value);
    if !ok { FreeBlock(heap, capsBlock, live); }
  }

  /**
   `copy_devmem_to_proc`.  On failure the child's CNode and lists are as before.  The heap is exactly if the request
   for the entry or the one for the name was refused; otherwise the name, block `leaked`, is not freed.
   */
  method CopyDevmemToProc(h: Handle, heap: Heap, caps: Option<seq<nat>>) returns (ok: bool, ghost d: DevmemData, ghost leaked: Option<nat>)
    requires h.Valid() && heap.Valid()
    modifies heap, h, h.devmem
    ensures h.Valid() && heap.Valid()
    ensures ok ==>
      && h.State() == Copied(old(h.State()), CapsIn(caps)).(devmem := [d] + old(h.State()).devmem)
      && heap.live == old(heap.live) + Opt(d.name) + Opt(Some(d.block)) + Opt(d.capsBlock)
      && (d.capsBlock.Some? <==> caps.Some?)
      && Free(old(h.State()).cnode, old(h.State()).next, |d.caps|)
      && |d.caps| == |CapsIn(caps)| && forall k | 0 <= k < |d.caps| :: d.caps[k] == old(h.State()).next + k
    ensures !ok ==> h.State() == old(h.State()) && heap.live == old(heap.live) + Opt(leaked)
    ensures !ok ==> (heap.live == old(heap.live) <==>
      !(heap.grants(old(heap.requests)) && heap.grants(old(heap.requests) + 1)))
    ensures ok <==>
      && heap.grants(old(heap.requests))
      && (caps.None? || (heap.grants(old(heap.requests) + 2) && CanCopy(h, old(h.State()), old(h.attempts), |caps.value|)))
  {
    hide *;
    ghost var v0, live := h.State(), heap.live;
    d := DevmemData(0, None, None, []);
    var entry, name := AllocEntry(heap);
    leaked := name;
    Adds(live, name);
    if entry.None? {
      NothingThere(live);
      return false, d, leaked;
    }
    var copied, capsBlock, slots := CopyOptCaps(h, heap, caps);
    if !copied {
      FreeBlock(heap, entry, live + Opt(name));
      return false, d, leaked;
    }
    d := DevmemData(entry.value, name, capsBlock, slots);
    h.PushDevmem(DevmemData(entry.value, name, capsBlock, slots));
    CopiedLists(v0, CapsIn(caps));
    ok := true;
  }

  /** The two copies of `copy_irq_to_proc`; the first is undone if the second fails. */
  method CopyTwo(h: Handle, irqCap: nat, epCap: nat) returns (ok: bool, irqSlot: nat, epSlot: nat)
    requires h.Valid()
    modifies h
    ensures h.Valid()
    ensures ok ==> h.State() == Copied(old(h.State()), [irqCap, epCap]) && irqSlot == old(h.State()).next && epSlot == irqSlot + 1
    ensures ok ==> Free(old(h.State()).cnode, old(h.State()).next, 2)
    ensures !ok ==> h.State() == old(h.State())
    ensures ok <==> CanCopy(h, old(h.State()), old(h.attempts), 2)
  {
    hide *;
    var caps := [irqCap, epCap];
    ghost var v0 := h.State();
    NothingToCopy(h, v0, h.attempts);
    OneMoreCopy(h, v0, h.attempts, 0);
    OneMoreCopy(h, v0, h.attempts, 1);
    CopiedStart(h, caps);
    epSlot := 0;
    irqSlot := CopyOneMore(h, caps, 0, v0);
    if irqSlot == CAP_NULL {
      CopiedParts(h, v0, caps, 0);
      CopiedNone(v0, caps);
      return false, irqSlot, epSlot;
    }
    epSlot := CopyOneMore(h, caps, 1, v0);
    if epSlot == CAP_NULL {
      DeleteOne(h, caps, 1, v0);
      CopiedParts(h, v0, caps, 0);
      CopiedNone(v0, caps);
      return false, irqSlot, epSlot;
    }
    CopiedParts(h, v0, caps, 2);
    assert caps[..2] == caps;
    ok := true;
  }

  /** `copy_irq_to_proc`: as for device memory, with two slots. */
  method CopyIrqToProc(h: Handle, heap: Heap, epCap: nat, irqCap: nat, number: nat)
    returns (ok: bool, ghost d: IrqData, ghost leaked: Option<nat>)
    requires h.Valid() && heap.Valid()
    modifies heap, h, h.irqs
    ensures h.Valid() && heap.Valid()
    ensures ok ==>
      && h.State() == Copied(old(h.State()), [irqCap, epCap]).(irqs := [d] + old(h.State()).irqs)
      && heap.live == old(heap.live) + Opt(d.name) + Opt(Some(d.block))
      && d.irqCap == old(h.State()).next && d.epCap == d.irqCap + 1 && d.number == number
      && Free(old(h.State()).cnode, old(h.State()).next, 2)
    ensures !ok ==> h.State() == old(h.State()) && heap.live == old(heap.live) + Opt(leaked)
    ensures !ok ==> (heap.live == old(heap.live) <==>
      !(heap.grants(old(heap.requests)) && heap.grants(old(heap.requests) + 1)))
    ensures ok <==> heap.grants(old(heap.requests)) && CanCopy(h, old(h.State()), old(h.attempts), 2)
  {
    hide *;
    ghost var v0, live := h.State(), heap.live;
    d := IrqData(0, None, 0, 0, 0);
    var entry, name := AllocEntry(heap);
    leaked := name;
    Adds(live, name);
    if entry.None? {
      NothingThere(live);
      return false, d, leaked;
    }
    var copied, irqSlot, epSlot := CopyTwo(h, irqCap, epCap);
    if !copied {
      FreeBlock(heap, entry, live + Opt(name));
      return false, d, leaked;
    }
    d := IrqData(entry.value, name, irqSlot, epSlot, number);
    h.PushIrq(IrqData(entry.value, name, irqSlot, epSlot, number));
    CopiedLists(v0, [irqCap, epCap]);
    ok := true;
  }

  lemma Adds(live: multiset<nat>, block: Option<nat>)
    ensures live + Opt(block) == live <==> block.None?
  {
    if block.Some? { assert (live + Opt(block))[block.value] == live[block.value] + 1; }
  }

  /** A call that leaks: it begins with an empty heap, all it asks for is granted, and the child's CNode has one slot left. */
  method LeakingCall() returns (ok: bool, heap: Heap)
    ensures fresh(heap) && (forall n :: heap.grants(n)) && !ok && |heap.live| == 1
  {
    heap := new Heap(_ => true);
    var h := new Handle(1, 2, _ => true);
    ghost var d, leaked;
    ok, d, leaked := CopyIrqToProc(h, heap, 2, 3, 4);
    Adds(multiset{}, leaked);
  }
}
