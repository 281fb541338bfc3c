/**
 Connection objects: what a parent shares with its children.  Each object counts the handles' list entries that
 refer to it, and may be freed only when there are none.  The counts are spread over `process_connect` and
 `process_destroy`; nothing in one handle says who else shares an object.
 */
module Connections {
  import opened Schema
  import opened Memory
  import opened Lists

  // ---------------------------------------------------------------------------------------------
  // The state of all handles and objects
  // ---------------------------------------------------------------------------------------------

  datatype Kind = Endpoint | Notification | SharedMemory(numPages: nat)

  class ConnObj {
    const kind: Kind
    const block: nat
    const name: nat
    /** The array that names the frames of shared memory. */
    const table: Option<nat>
    /** The frames, or the one endpoint or notification. */
    const kernelObjects: seq<nat>
    /** A machine word: decrementing it at zero would wrap, so every decrement has to be shown not to. */
    var refCount: nat

    constructor (kind: Kind, block: nat, name: nat, table: Option<nat>, kernelObjects: seq<nat>)
      ensures this.kind == kind && this.block == block && this.name == name && this.table == table
      ensures this.kernelObjects == kernelObjects && refCount == 0
    {
      this.kind, this.block, this.name, this.table, this.kernelObjects := kind, block, name, table, kernelObjects;
      refCount := 0;
    }

    /** Everything allocated for it. */
    function Owned(): multiset<nat> {
      Opt(Some(block)) + Opt(Some(name)) + Opt(table) + multiset(kernelObjects)
    }
  }

  /** An entry of `shared_objects`, or a record of the child's initial data: a block about an object. */
  datatype Ref = Ref(block: nat, conn: ConnObj)

  /** The capability slots of the parent that name a CNode at present. */
  class CSpace {
    var cnodes: set<nat>
  }

  class Process {
    var destroyed: bool
    /** The parent's slot that names the child's CNode.  It is kept when the CNode is freed and the slot may be in other use. */
    const root: nat
    const shared: List<Ref>
    /** What the child will be told about: the three lists of `init_data` as one, the latest first. */
    var records: seq<Ref>

    constructor (root: nat)
      ensures !destroyed && this.root == root && shared.Valid() && shared.nodes == [] && shared.Values() == [] && fresh(shared) && records == []
    {
      destroyed, records := false, [];
      this.root := root;
      shared := new List();
    }
  }

  /** Per handle its entries, whether it is destroyed, and the slot of its CNode; per object that is not freed its count. */
  datatype Sys = Sys(lists: seq<seq<Ref>>, destroyed: seq<bool>, roots: seq<nat>, counts: map<ConnObj, nat>)

  function Count(refs: seq<Ref>, o: ConnObj): nat {
    if refs == [] then 0 else (if refs[0].conn == o then 1 else 0) + Count(refs[1..], o)
  }

  function Total(lists: seq<seq<Ref>>, o: ConnObj): nat {
    if lists == [] then 0 else Count(lists[0], o) + Total(lists[1..], o)
  }

  /** The slots that name a CNode: those of the handles that are not destroyed. */
  function CNodes(s: Sys): set<nat> {
    set i | 0 <= i < |s.roots| && i < |s.destroyed| && !s.destroyed[i] :: s.roots[i]
  }

  /** Counts are occurrences, every entry is for an object that is not freed, and CNodes that exist have slots of their own. */
  ghost predicate Inv(s: Sys) {
    && |s.lists| == |s.destroyed| == |s.roots|
    && (forall i, j | 0 <= i < j < |s.roots| && !s.destroyed[i] && !s.destroyed[j] :: s.roots[i] != s.roots[j])
    && (forall o | o in s.counts :: s.counts[o] == Total(s.lists, o))
    && (forall i, k | 0 <= i < |s.lists| && 0 <= k < |s.lists[i]| :: s.lists[i][k].conn in s.counts)
  }

  function Released(counts: map<ConnObj, nat>, refs: seq<Ref>): (r: map<ConnObj, nat>)
    requires forall o | o in counts :: Count(refs, o) <= counts[o]
  {
    map o | o in counts :: counts[o] - Count(refs, o)
  }

  /** What the calls may do to the state of all handles and objects. */
  ghost predicate NewObject(s: Sys, t: Sys, o: ConnObj) {
    o !in s.counts && t == s.(counts := s.counts[o := 0])
  }

  /** The slot of the new CNode is one that names none, but it may be the slot of a handle that is destroyed. */
  ghost predicate NewProcess(s: Sys, t: Sys) {
    && |t.roots| == |s.roots| + 1 && t.roots[|s.roots|] !in CNodes(s)
    && t == s.(lists := s.lists + [[]], destroyed := s.destroyed + [false], roots := s.roots + [t.roots[|s.roots|]])
  }

  /**
   Whether an object can get to a child.  The handle's state is not looked at, but a capability is copied into a CNode,
   so the slot has to name one; and pages are mapped into an address space, which goes with the handle.
   */
  predicate Reaches(s: Sys, i: nat, kind: Kind) {
    i < |s.destroyed| && i < |s.roots| && if kind.SharedMemory? then !s.destroyed[i] else s.roots[i] in CNodes(s)
  }

  ghost predicate Connected(s: Sys, t: Sys, i: nat, r: Ref) {
    && i < |s.lists| && r.conn in s.counts && Reaches(s, i, r.conn.kind)
    && t == s.(lists := s.lists[i := [r] + s.lists[i]], counts := s.counts[r.conn := s.counts[r.conn] + 1])
  }

  ghost predicate Destroyed(s: Sys, t: Sys, i: nat) {
    && i < |s.lists| && i < |s.destroyed| && !s.destroyed[i]
    && (forall o | o in s.counts :: Count(s.lists[i], o) <= s.counts[o])
    && t == Sys(s.lists[i := []], s.destroyed[i := true], s.roots, Released(s.counts, s.lists[i]))
  }

  ghost predicate Freed(s: Sys, t: Sys, o: ConnObj) {
    o in s.counts && s.counts[o] == 0 && t == s.(counts := s.counts - {o})
  }

  ghost predicate Next(s: Sys, t: Sys) {
    || s == t
    || (exists o | o in t.counts :: NewObject(s, t, o))
    || NewProcess(s, t)
    || (exists i | 0 <= i < |t.lists| :: exists r | r in t.lists[i] :: Connected(s, t, i, r))
    || (exists i :: Destroyed(s, t, i))
    || (exists o | o in s.counts :: Freed(s, t, o))
  }

  // ---------------------------------------------------------------------------------------------
  // Counting
  // ---------------------------------------------------------------------------------------------

  lemma {:induction false} TotalUpdate(lists: seq<seq<Ref>>, i: nat, l: seq<Ref>, o: ConnObj)
    requires i < |lists|
    ensures Total(lists[i := l], o) == Total(lists, o) - Count(lists[i], o) + Count(l, o)
  {
    if i == 0 {
      assert lists[0 := l][1..] == lists[1..];
    } else {
      TotalUpdate(lists[1..], i - 1, l, o);
      assert lists[i := l][1..] == lists[1..][i - 1 := l];
    }
  }

  lemma {:induction false} TotalSnoc(lists: seq<seq<Ref>>, l: seq<Ref>, o: ConnObj)
    ensures Total(lists + [l], o) == Total(lists, o) + Count(l, o)
  {
    if lists == [] {
      assert [l][1..] == [];
    } else {
      TotalSnoc(lists[1..], l, o);
      assert (lists + [l])[1..] == lists[1..] + [l];
    }
  }

  lemma {:induction false} CountIsZero(refs: seq<Ref>, o: ConnObj)
    ensures Count(refs, o) == 0 <==> forall k | 0 <= k < |refs| :: refs[k].conn != o
  {
    if refs != [] { CountIsZero(refs[1..], o); }
  }

  lemma {:induction false} CountIsInTotal(lists: seq<seq<Ref>>, i: nat, o: ConnObj)
    requires i < |lists|
    ensures Count(lists[i], o) <= Total(lists, o)
  {
    if i > 0 { CountIsInTotal(lists[1..], i - 1, o); }
  }

  lemma {:induction false} TotalIsZero(lists: seq<seq<Ref>>, o: ConnObj)
    ensures Total(lists, o) == 0 <==> forall i | 0 <= i < |lists| :: Count(lists[i], o) == 0
  {
    if lists != [] { TotalIsZero(lists[1..], o); }
  }

  // ---------------------------------------------------------------------------------------------
  // Runs
  // ---------------------------------------------------------------------------------------------

  /** An object can be freed exactly when no list holds it. */
  lemma CanBeFreed(s: Sys, o: ConnObj)
    requires Inv(s) && o in s.counts
    ensures s.counts[o] == 0 <==> forall i, k | 0 <= i < |s.lists| && 0 <= k < |s.lists[i]| :: s.lists[i][k].conn != o
  {
    TotalIsZero(s.lists, o);
    forall i | 0 <= i < |s.lists|
      ensures Count(s.lists[i], o) == 0 <==> forall k | 0 <= k < |s.lists[i]| :: s.lists[i][k].conn != o
    {
      CountIsZero(s.lists[i], o);
    }
  }

  /** The lists and the objects determine the counts. */
  lemma ListsDetermine(s: Sys, t: Sys)
    requires Inv(s) && Inv(t) && s.lists == t.lists && s.destroyed == t.destroyed && s.roots == t.roots && s.counts.Keys == t.counts.Keys
    ensures s == t
  {
    assert s.counts == t.counts;
  }

  lemma ConnectedInv(s: Sys, t: Sys, i: nat, r: Ref)
    requires Inv(s) && Connected(s, t, i, r)
    ensures Inv(t)
  {
    forall o | o in t.counts ensures t.counts[o] == Total(t.lists, o) {
      TotalUpdate(s.lists, i, [r] + s.lists[i], o);
      assert ([r] + s.lists[i])[1..] == s.lists[i];
    }
  }

  /** No count is too small for what is about to be released. */
  lemma NoUnderflow(s: Sys, i: nat)
    requires Inv(s) && i < |s.lists|
    ensures forall o | o in s.counts :: Count(s.lists[i], o) <= s.counts[o]
  {
    forall o | o in s.counts ensures Count(s.lists[i], o) <= s.counts[o] {
      CountIsInTotal(s.lists, i, o);
    }
  }

  lemma DestroyedInv(s: Sys, t: Sys, i: nat)
    requires Inv(s) && Destroyed(s, t, i)
    ensures Inv(t)
  {
    forall o | o in t.counts ensures t.counts[o] == Total(t.lists, o) {
      TotalUpdate(s.lists, i, [], o);
    }
  }

  lemma FreedInv(s: Sys, t: Sys, o: ConnObj)
    requires Inv(s) && Freed(s, t, o)
    ensures Inv(t)
  {
    CanBeFreed(s, o);
  }

  lemma NewInv(s: Sys, t: Sys)
    requires Inv(s)
    ensures NewProcess(s, t) ==> Inv(t)
    ensures forall o | o in t.counts && NewObject(s, t, o) :: Inv(t)
  {
    if NewProcess(s, t) {
      forall o | o in t.counts ensures t.counts[o] == Total(t.lists, o) { TotalSnoc(s.lists, [], o); }
    }
    forall o | o in t.counts && NewObject(s, t, o) ensures Inv(t) {
      forall i | 0 <= i < |s.lists| ensures Count(s.lists[i], o) == 0 { CountIsZero(s.lists[i], o); }
      TotalIsZero(s.lists, o);
    }
  }

  lemma StepInv(s: Sys, t: Sys)
    requires Inv(s) && Next(s, t)
    ensures Inv(t)
  {
    hide Inv, NewObject, NewProcess, Connected, Destroyed, Freed;
    NewInv(s, t);
    if i, r :| Connected(s, t, i, r) { ConnectedInv(s, t, i, r); }
    if i :| Destroyed(s, t, i) { DestroyedInv(s, t, i); }
    if o :| Freed(s, t, o) { FreedInv(s, t, o); }
  }

  ghost predicate Run(run: seq<Sys>) {
    forall k | 0 < k < |run| :: Next(run[k - 1], run[k])
  }

  /** In every run the counts stay equal to the occurrences, and no list ever holds a freed object. */
  lemma {:induction false} RunInv(run: seq<Sys>, k: nat)
    requires Run(run) && k < |run| && Inv(run[0])
    ensures Inv(run[k])
  {
    hide Inv, Next;
    if k > 0 {
      RunInv(run, k - 1);
      StepInv(run[k - 1], run[k]);
    }
  }

  /** An entry made on a destroyed handle stays. */
  ghost predicate Stuck(s: Sys, i: nat, r: Ref) {
    i < |s.lists| && i < |s.destroyed| && s.destroyed[i] && r in s.lists[i]
  }

  lemma StaysStuck(s: Sys, t: Sys, i: nat, r: Ref)
    requires Stuck(s, i, r) && Next(s, t)
    ensures Stuck(t, i, r)
  {
    if j, q :| Connected(s, t, j, q) {
      assert j != i ==> t.lists[i] == s.lists[i];
      if j == i { assert t.lists[i] == [q] + s.lists[i]; }
    }
  }

  /** A handle is destroyed once only, so an object in the list of a destroyed handle is never released. */
  lemma {:induction false} SharedTooLate(run: seq<Sys>, i: nat, r: Ref, k: nat)
    requires Run(run) && k < |run| && Inv(run[0]) && Stuck(run[0], i, r)
    ensures Stuck(run[k], i, r)
    ensures r.conn in run[k].counts && run[k].counts[r.conn] > 0
  {
    if k > 0 {
      SharedTooLate(run, i, r, k - 1);
      StaysStuck(run[k - 1], run[k], i, r);
    }
    RunInv(run, k);
    var j :| 0 <= j < |run[k].lists[i]| && run[k].lists[i][j] == r;
    assert run[k].lists[i][j].conn == r.conn;
    CanBeFreed(run[k], r.conn);
  }

  /** No destroyed handle's list holds the object. */
  ghost predicate Releasable(s: Sys, o: ConnObj) {
    forall i | 0 <= i < |s.lists| && i < |s.destroyed| && s.destroyed[i] :: Count(s.lists[i], o) == 0
  }

  /** A run that starts in `s` and ends by freeing `o`. */
  ghost predicate Frees(run: seq<Sys>, s: Sys, o: ConnObj) {
    |run| >= 2 && run[0] == s && Run(run) && Freed(run[|run| - 2], run[|run| - 1], o)
  }

  lemma RunCons(s: Sys, run: seq<Sys>)
    requires run != [] && Run(run) && Next(s, run[0])
    ensures Run([s] + run)
  {
    hide Next;
    assert forall k | 0 < k < |run| :: ([s] + run)[k] == run[k - 1] && Next(run[k - 1], run[k]);
  }

  /** The handles that share the object are destroyed one after the other, and then it is freed. */
  lemma {:induction false} WayToFree(s: Sys, o: ConnObj) returns (run: seq<Sys>)
    requires Inv(s) && o in s.counts && Releasable(s, o)
    ensures Frees(run, s, o)
    decreases s.counts[o]
  {
    if s.counts[o] == 0 {
      var t := s.(counts := s.counts - {o});
      assert Freed(s, t, o);
      return [s, t];
    }
    TotalIsZero(s.lists, o);
    var i :| 0 <= i < |s.lists| && Count(s.lists[i], o) > 0;
    NoUnderflow(s, i);
    var t := Sys(s.lists[i := []], s.destroyed[i := true], s.roots, Released(s.counts, s.lists[i]));
    assert Destroyed(s, t, i);
    DestroyedInv(s, t, i);
    assert Releasable(t, o);
    var rest := WayToFree(t, o);
    RunCons(s, rest);
    run := [s] + rest;
  }

  /**
   From any state, an object can still be freed in some run if and only if no destroyed handle's list holds it.
   */
  lemma CanStillBeFreed(s: Sys, o: ConnObj)
    requires Inv(s) && o in s.counts
    ensures (exists run :: Frees(run, s, o)) <==> Releasable(s, o)
  {
    if Releasable(s, o) {
      var run := WayToFree(s, o);
      assert Frees(run, s, o);
    } else {
      var i :| 0 <= i < |s.lists| && s.destroyed[i] && Count(s.lists[i], o) != 0;
      CountIsZero(s.lists[i], o);
      var k :| 0 <= k < |s.lists[i]| && s.lists[i][k].conn == o;
      if run :| Frees(run, s, o) {
        SharedTooLate(run, i, s.lists[i][k], |run| - 2);
        assert false;
      }
    }
  }

  lemma ConnectKeeps(s: Sys, t: Sys, i: nat, r: Ref, o: ConnObj)
    requires Inv(s) && Connected(s, t, i, r)
    ensures Releasable(t, o) <==> Releasable(s, o) && !(s.destroyed[i] && r.conn == o)
  {
    assert ([r] + s.lists[i])[1..] == s.lists[i];
    assert forall j | 0 <= j < |s.lists| && j != i :: t.lists[j] == s.lists[j];
  }

  /** A step connects `o` to a handle that is destroyed. */
  ghost predicate Pins(s: Sys, t: Sys, o: ConnObj) {
    exists i | 0 <= i < |t.lists| && i < |s.destroyed| :: exists r | r in t.lists[i] :: Connected(s, t, i, r) && s.destroyed[i] && r.conn == o
  }

  lemma DestroyedPins(s: Sys, t: Sys, i: nat, o: ConnObj)
    requires Inv(s) && Destroyed(s, t, i)
    ensures Releasable(t, o) <==> Releasable(s, o)
  {
    assert t.lists[i] == [] && Count([], o) == 0;
    assert forall j | 0 <= j < |s.lists| && j != i :: t.lists[j] == s.lists[j] && t.destroyed[j] == s.destroyed[j];
  }

  lemma NewProcessPins(s: Sys, t: Sys, o: ConnObj)
    requires Inv(s) && NewProcess(s, t)
    ensures Releasable(t, o) <==> Releasable(s, o)
  {
    assert t.lists[|s.lists|] == [] && forall j | 0 <= j < |s.lists| :: t.lists[j] == s.lists[j] && t.destroyed[j] == s.destroyed[j];
  }

  /** Connecting to a destroyed handle alone takes away the possibility to free an object, and no step gives it back. */
  lemma OnlyConnectPins(s: Sys, t: Sys, o: ConnObj)
    requires Inv(s) && Next(s, t)
    ensures Releasable(t, o) <==> Releasable(s, o) && !Pins(s, t, o)
  {
    hide Releasable, Destroyed, NewProcess, Reaches;
    if i, r :| 0 <= i < |t.lists| && r in t.lists[i] && Connected(s, t, i, r) {
      ConnectKeeps(s, t, i, r, o);
      if Pins(s, t, o) {
        var j, q :| 0 <= j < |t.lists| && j < |s.destroyed| && q in t.lists[j] && Connected(s, t, j, q) && s.destroyed[j] && q.conn == o;
        ConnectKeeps(s, t, j, q, o);
      }
    } else if NewProcess(s, t) {
      NewProcessPins(s, t, o);
    } else if i: nat :| Destroyed(s, t, i) {
      DestroyedPins(s, t, i, o);
    } else {
      assert s.lists == t.lists && s.destroyed == t.destroyed;
      SameLists(s, t, o);
    }
  }

  lemma SameLists(s: Sys, t: Sys, o: ConnObj)
    requires s.lists == t.lists && s.destroyed == t.destroyed
    ensures Releasable(t, o) <==> Releasable(s, o)
  {
  }

  // ---------------------------------------------------------------------------------------------
  // Slots in use again
  // ---------------------------------------------------------------------------------------------

  /** Another handle's CNode is where the one of handle `i` was. */
  ghost predicate Reused(s: Sys, i: nat) {
    i < |s.roots| == |s.destroyed| && exists j | 0 <= j < |s.roots| && j != i :: !s.destroyed[j] && s.roots[j] == s.roots[i]
  }

  /** An object can be connected to a destroyed handle exactly if it is no shared memory and the slot is in use again. */
  lemma ReachesDestroyed(s: Sys, i: nat, kind: Kind)
    requires Inv(s) && i < |s.lists| && s.destroyed[i]
    ensures Reaches(s, i, kind) <==> !kind.SharedMemory? && Reused(s, i)
  {
  }

  /** No slot has been used for two CNodes. */
  predicate SlotsUsedOnce(s: Sys) {
    forall i, j | 0 <= i < j < |s.roots| :: s.roots[i] != s.roots[j]
  }

  ghost predicate AllReleasable(s: Sys) { forall o | o in s.counts :: Releasable(s, o) }

  lemma RootsGrow(s: Sys, t: Sys)
    requires Next(s, t)
    ensures s.roots <= t.roots
  {
    hide Reaches, CNodes;
  }

  lemma {:induction false} UsedOnceBefore(run: seq<Sys>, k: nat, n: nat)
    requires Run(run) && k <= n < |run| && SlotsUsedOnce(run[n])
    ensures SlotsUsedOnce(run[k])
    decreases n - k
  {
    hide Next;
    if k < n {
      UsedOnceBefore(run, k + 1, n);
      RootsGrow(run[k], run[k + 1]);
    }
  }

  lemma StepReleasable(s: Sys, t: Sys)
    requires Inv(s) && Next(s, t) && SlotsUsedOnce(s) && AllReleasable(s)
    ensures AllReleasable(t)
  {
    hide Releasable;
    forall o | o in t.counts ensures Releasable(t, o) {
      if o !in s.counts { NewlyReleasable(s, o); }
      OnlyConnectPins(s, t, o);
      if Pins(s, t, o) {
        var i: nat, r :| i < |t.lists| && i < |s.destroyed| && r in t.lists[i] && Connected(s, t, i, r) && s.destroyed[i] && r.conn == o;
        ReachesDestroyed(s, i, o.kind);
        assert false;
      }
    }
  }

  lemma NewlyReleasable(s: Sys, o: ConnObj)
    requires Inv(s) && o !in s.counts
    ensures Releasable(s, o)
  {
    forall i | 0 <= i < |s.lists| ensures Count(s.lists[i], o) == 0 { CountIsZero(s.lists[i], o); }
  }

  /**
   As long as no slot is used for a second CNode, every object can still be freed, whatever was connected to what and
   destroyed when.
   */
  lemma {:induction false} FreeableWithoutReuse(run: seq<Sys>, n: nat, o: ConnObj)
    requires Run(run) && n < |run| && Inv(run[0]) && AllReleasable(run[0]) && SlotsUsedOnce(run[n]) && o in run[n].counts
    ensures exists more :: Frees(more, run[n], o)
  {
    hide *;
    ReleasableWithoutReuse(run, n);
    RunInv(run, n);
    ReleasableAt(run[n], o);
    CanStillBeFreed(run[n], o);
  }

  lemma ReleasableAt(s: Sys, o: ConnObj)
    requires AllReleasable(s) && o in s.counts
    ensures Releasable(s, o)
  {
    hide Releasable;
  }

  lemma {:induction false} ReleasableWithoutReuse(run: seq<Sys>, n: nat)
    requires Run(run) && n < |run| && Inv(run[0]) && AllReleasable(run[0]) && SlotsUsedOnce(run[n])
    ensures AllReleasable(run[n])
  {
    hide Inv, Next, AllReleasable, SlotsUsedOnce;
    if n > 0 {
      UsedOnceBefore(run, n - 1, n);
      ReleasableWithoutReuse(run, n - 1);
      RunInv(run, n - 1);
      StepReleasable(run[n - 1], run[n]);
    }
  }

  /**
   A handle and an object are created and the handle is destroyed; a second handle gets the slot of the first one's
   CNode; then the object is connected to the first.
   */
  function Pinning(r: Ref, slot: nat): seq<Sys> {
    [Sys([], [], [], map[]), Sys([[]], [false], [slot], map[]), Sys([[]], [false], [slot], map[r.conn := 0]),
     Sys([[]], [true], [slot], map[r.conn := 0]), Sys([[], []], [true, false], [slot, slot], map[r.conn := 0]),
     Sys([[r], []], [true, false], [slot, slot], map[r.conn := 1])]
  }

  lemma NothingReleased(counts: map<ConnObj, nat>)
    ensures Released(counts, []) == counts
  {
  }

  lemma PinningBegins(r: Ref, slot: nat)
    ensures Next(Pinning(r, slot)[0], Pinning(r, slot)[1]) && Next(Pinning(r, slot)[1], Pinning(r, slot)[2])
  {
    var run := Pinning(r, slot);
    assert CNodes(run[0]) == {};
    assert run[1].roots[0] == slot;
    assert NewProcess(run[0], run[1]);
    assert NewObject(run[1], run[2], r.conn);
  }

  lemma PinningGoesOn(r: Ref, slot: nat)
    ensures Next(Pinning(r, slot)[2], Pinning(r, slot)[3]) && Next(Pinning(r, slot)[3], Pinning(r, slot)[4])
  {
    var run := Pinning(r, slot);
    NothingReleased(run[2].counts);
    assert Destroyed(run[2], run[3], 0);
    assert CNodes(run[3]) == {};
    assert run[4].roots[1] == slot;
    assert NewProcess(run[3], run[4]);
  }

  lemma PinningConnects(r: Ref, slot: nat)
    requires !r.conn.kind.SharedMemory?
    ensures Next(Pinning(r, slot)[4], Pinning(r, slot)[5])
  {
    var run := Pinning(r, slot);
    assert run[4].roots[1] in CNodes(run[4]);
    assert [r] + [] == [r] && r in run[5].lists[0];
    assert Connected(run[4], run[5], 0, r);
  }

  lemma PinningEnds(r: Ref, slot: nat)
    ensures Pinning(r, slot)[0] == Sys([], [], [], map[]) && Inv(Pinning(r, slot)[0])
    ensures Stuck(Pinning(r, slot)[5], 0, r) && !Releasable(Pinning(r, slot)[5], r.conn)
  {
    var s := Sys([[r], []], [true, false], [slot, slot], map[r.conn := 1]);
    assert Pinning(r, slot)[5] == s;
    assert [r][1..] == [] && Count([r], r.conn) == 1;
    assert Stuck(s, 0, r) && !Releasable(s, r.conn);
  }

  lemma RunOfSix(s0: Sys, s1: Sys, s2: Sys, s3: Sys, s4: Sys, s5: Sys)
    requires Next(s0, s1) && Next(s1, s2) && Next(s2, s3) && Next(s3, s4) && Next(s4, s5)
    ensures Run([s0, s1, s2, s3, s4, s5])
  {
    hide Next;
  }

  /** With a slot used again, an endpoint or a notification can be kept for ever. */
  lemma PinningRun(r: Ref, slot: nat)
    requires !r.conn.kind.SharedMemory?
    ensures |Pinning(r, slot)| == 6 && Pinning(r, slot)[0] == Sys([], [], [], map[]) && Inv(Pinning(r, slot)[0]) && Run(Pinning(r, slot))
    ensures Stuck(Pinning(r, slot)[5], 0, r) && !Releasable(Pinning(r, slot)[5], r.conn)
  {
    PinningBegins(r, slot);
    PinningGoesOn(r, slot);
    PinningConnects(r, slot);
    PinningEnds(r, slot);
    var run := Pinning(r, slot);
    assert |run| == 6 && run == [run[0], run[1], run[2], run[3], run[4], run[5]];
    hide *;
    RunOfSix(run[0], run[1], run[2], run[3], run[4], run[5]);
  }

  /** Destroying the last handle that shares an object makes it possible to free it, and nothing less does. */
  lemma FreeableAfterDestroy(s: Sys, t: Sys, i: nat, o: ConnObj)
    requires Inv(s) && Destroyed(s, t, i) && o in s.counts
    ensures t.counts[o] == 0 <==> forall j | 0 <= j < |s.lists| && j != i :: Count(s.lists[j], o) == 0
  {
    DestroyedInv(s, t, i);
    TotalIsZero(t.lists, o);
    assert forall j | 0 <= j < |s.lists| && j != i :: t.lists[j] == s.lists[j];
    assert t.lists[i] == [];
  }

  // ---------------------------------------------------------------------------------------------
  // The same state in memory
  // ---------------------------------------------------------------------------------------------

  ghost function ListsOf(ps: seq<Process>): (r: set<List<Ref>>)
    ensures forall i | 0 <= i < |ps| :: ps[i].shared in r
  {
    set i | 0 <= i < |ps| :: ps[i].shared
  }

  ghost function NodesOf(ps: seq<Process>): (r: set<Node<Ref>>)
    reads ListsOf(ps)
    ensures forall i, n | 0 <= i < |ps| && n in ps[i].shared.nodes :: n in r
  {
    set i, n | 0 <= i < |ps| && n in ps[i].shared.nodes :: n
  }

  ghost function NodeSeqs(ps: seq<Process>): (r: seq<seq<Node<Ref>>>)
    reads ListsOf(ps)
  {
    seq(|ps|, i requires 0 <= i < |ps| reads ListsOf(ps) => ps[i].shared.nodes)
  }

  /** No node is in two lists. */
  ghost predicate Apart(nodes: seq<seq<Node<Ref>>>) {
    forall i, j, n | 0 <= i < j < |nodes| && n in nodes[i] :: n !in nodes[j]
  }

  ghost predicate AllValid(ps: seq<Process>)
    reads ListsOf(ps), NodesOf(ps)
  {
    forall i | 0 <= i < |ps| :: ps[i].shared.Valid()
  }

  ghost predicate Distinct(ps: seq<Process>) {
    forall i, j | 0 <= i < j < |ps| :: ps[i] != ps[j] && ps[i].shared != ps[j].shared
  }

  /** The handles and their lists are separate. */
  ghost predicate Shape(ps: seq<Process>)
    reads ListsOf(ps), NodesOf(ps)
  {
    AllValid(ps) && Distinct(ps) && Apart(NodeSeqs(ps))
  }

  lemma ApartGrows(nodes: seq<seq<Node<Ref>>>, i: nat, n: Node<Ref>)
    requires i < |nodes| && Apart(nodes) && forall j | 0 <= j < |nodes| :: n !in nodes[j]
    ensures Apart(nodes[i := [n] + nodes[i]])
  {
  }

  lemma ApartShrinks(nodes: seq<seq<Node<Ref>>>, i: nat)
    requires i < |nodes| && Apart(nodes) && nodes[i] != []
    ensures Apart(nodes[i := nodes[i][1..]])
  {
    assert forall n | n in nodes[i][1..] :: n in nodes[i];
  }

  ghost function SysOf(ps: seq<Process>, objs: set<ConnObj>): Sys
    reads ps, ListsOf(ps), objs
  {
    Sys(seq(|ps|, i requires 0 <= i < |ps| reads ListsOf(ps) => ps[i].shared.Values()),
        seq(|ps|, i requires 0 <= i < |ps| reads ps => ps[i].destroyed),
        seq(|ps|, i requires 0 <= i < |ps| => ps[i].root),
        map o | o in objs :: o.refCount)
  }

  /** The blocks of a handle's list. */
  function RefBlocks(refs: seq<Ref>): multiset<nat> {
    if refs == [] then multiset{} else multiset{refs[0].block} + RefBlocks(refs[1..])
  }

  method FreeRef(ghost ps: seq<Process>, ghost objs: set<ConnObj>, heap: Heap, r: Ref)
    requires Shape(ps) && heap.Valid() && r.block in heap.live
    modifies heap
    ensures Shape(ps) && SysOf(ps, objs) == old(SysOf(ps, objs))
    ensures heap.Valid() && heap.live == old(heap.live) - Opt(Some(r.block)) && heap.requests == old(heap.requests)
  {
    heap.Free(Some(r.block));
    assert NodeSeqs(ps) == old(NodeSeqs(ps));
  }

  method PopShared(ghost ps: seq<Process>, ghost objs: set<ConnObj>, ghost i: nat, h: Process) returns (r: Ref)
    requires i < |ps| && ps[i] == h && Shape(ps) && h.shared.nodes != []
    modifies h.shared
    ensures Shape(ps)
    ensures r == old(h.shared.Values())[0] && h.shared.Values() == old(h.shared.Values())[1..]
    ensures SysOf(ps, objs) == old(SysOf(ps, objs)).(lists := old(SysOf(ps, objs)).lists[i := h.shared.Values()])
  {
    ghost var was := NodeSeqs(ps);
    var node := h.shared.Pop();
    r := node.value;
    assert NodeSeqs(ps) == was[i := was[i][1..]];
    ApartShrinks(was, i);
  }

  method Decrement(ghost ps: seq<Process>, ghost objs: set<ConnObj>, o: ConnObj)
    requires Shape(ps) && o in objs && o.refCount > 0
    modifies o
    ensures Shape(ps)
    ensures SysOf(ps, objs) == old(SysOf(ps, objs)).(counts := old(SysOf(ps, objs)).counts[o := old(o.refCount) - 1])
  {
    o.refCount := o.refCount - 1;
    assert NodeSeqs(ps) == old(NodeSeqs(ps));
  }

  method Increment(ghost ps: seq<Process>, ghost objs: set<ConnObj>, o: ConnObj)
    requires Shape(ps) && o in objs
    modifies o
    ensures Shape(ps)
    ensures SysOf(ps, objs) == old(SysOf(ps, objs)).(counts := old(SysOf(ps, objs)).counts[o := old(o.refCount) + 1])
  {
    o.refCount := o.refCount + 1;
    assert NodeSeqs(ps) == old(NodeSeqs(ps));
  }

  method PushShared(ghost ps: seq<Process>, ghost objs: set<ConnObj>, ghost i: nat, h: Process, r: Ref)
    requires i < |ps| && ps[i] == h && Shape(ps)
    modifies h.shared
    ensures Shape(ps)
    ensures h.shared.Values() == [r] + old(h.shared.Values())
    ensures SysOf(ps, objs) == old(SysOf(ps, objs)).(lists := old(SysOf(ps, objs)).lists[i := h.shared.Values()])
  {
    ghost var was := NodeSeqs(ps);
    assert Apart(was);
    var node := new Node(r);
    h.shared.Prepend(node);
    assert NodeSeqs(ps) == was[i := [node] + was[i]];
    ApartGrows(was, i, node);
  }

  method MarkDestroyed(ghost ps: seq<Process>, ghost objs: set<ConnObj>, ghost i: nat, h: Process)
    requires i < |ps| && ps[i] == h && Shape(ps)
    modifies h`destroyed
    ensures Shape(ps) && h.destroyed
    ensures SysOf(ps, objs) == old(SysOf(ps, objs)).(destroyed := old(SysOf(ps, objs)).destroyed[i := true])
  {
    h.destroyed := true;
    assert NodeSeqs(ps) == old(NodeSeqs(ps));
  }

  method AddRecord(ghost ps: seq<Process>, ghost objs: set<ConnObj>, h: Process, record: Ref)
    requires Shape(ps)
    modifies h`records
    ensures Shape(ps) && SysOf(ps, objs) == old(SysOf(ps, objs))
    ensures h.records == [record] + old(h.records)
  {
    h.records := [record] + h.records;
    assert NodeSeqs(ps) == old(NodeSeqs(ps));
  }

  lemma SysParts(ps: seq<Process>, objs: set<ConnObj>)
    ensures |SysOf(ps, objs).lists| == |SysOf(ps, objs).destroyed| == |SysOf(ps, objs).roots| == |ps|
    ensures forall i | 0 <= i < |ps| :: SysOf(ps, objs).lists[i] == ps[i].shared.Values() && SysOf(ps, objs).destroyed[i] == ps[i].destroyed
    ensures forall i | 0 <= i < |ps| :: SysOf(ps, objs).roots[i] == ps[i].root
    ensures SysOf(ps, objs).counts.Keys == objs && forall o | o in objs :: SysOf(ps, objs).counts[o] == o.refCount
  {
  }

  /** Taking an entry out of a list and decrementing the object's count keeps the counts right. */
  lemma PoppedInv(s: Sys, t: Sys, i: nat)
    requires Inv(s) && i < |s.lists| && s.lists[i] != []
    requires t.lists == s.lists[i := s.lists[i][1..]] && t.destroyed == s.destroyed && t.roots == s.roots
    ensures s.lists[i][0].conn in s.counts && s.counts[s.lists[i][0].conn] > 0
    ensures t.counts == s.counts[s.lists[i][0].conn := s.counts[s.lists[i][0].conn] - 1] ==> Inv(t)
  {
    CountIsInTotal(s.lists, i, s.lists[i][0].conn);
    if t.counts == s.counts[s.lists[i][0].conn := s.counts[s.lists[i][0].conn] - 1] {
      forall o | o in t.counts ensures t.counts[o] == Total(t.lists, o) { TotalUpdate(s.lists, i, s.lists[i][1..], o); }
    }
  }

  lemma RefBlocksHead(refs: seq<Ref>, rest: multiset<nat>)
    requires refs != []
    ensures refs[0].block in rest + RefBlocks(refs)
    ensures rest + RefBlocks(refs) - Opt(Some(refs[0].block)) == rest + RefBlocks(refs[1..])
  {
  }

  lemma EmptyList(list: List<Ref>)
    requires list.Valid()
    ensures list.head == null <==> list.nodes == []
    ensures list.Values() == [] <==> list.nodes == []
  {
  }

  lemma ShapeLists(ps: seq<Process>, i: nat)
    requires i < |ps| && Shape(ps)
    ensures ps[i].shared.head == null <==> ps[i].shared.nodes == []
    ensures ps[i].shared.Values() == [] <==> ps[i].shared.nodes == []
  {
    EmptyList(ps[i].shared);
  }

  lemma NoRefBlocks(rest: multiset<nat>)
    ensures rest + RefBlocks([]) == rest
  {
  }

  lemma SameCounts(s: Sys, t: Sys, i: nat)
    requires Inv(s) && i < |s.destroyed| && t == s.(destroyed := s.destroyed[i := true])
    ensures Inv(t)
  {
  }

  /** Emptying the list with the counts kept right is what `Destroyed` says. */
  lemma DestroyedBy(s: Sys, t: Sys, i: nat)
    requires Inv(s) && Inv(t) && i < |s.lists| && !s.destroyed[i]
    requires t.lists == s.lists[i := []] && t.destroyed == s.destroyed[i := true] && t.roots == s.roots && t.counts.Keys == s.counts.Keys
    ensures Destroyed(s, t, i)
  {
    NoUnderflow(s, i);
    ghost var u := Sys(s.lists[i := []], s.destroyed[i := true], s.roots, Released(s.counts, s.lists[i]));
    DestroyedInv(s, u, i);
    ListsDetermine(t, u);
  }

  /** One round of the loop of `process_destroy`. */
  method ReleaseOne(ghost ps: seq<Process>, ghost objs: set<ConnObj>, ghost i: nat, h: Process, heap: Heap, ghost rest: multiset<nat>)
    requires i < |ps| && ps[i] == h && Shape(ps) && Inv(SysOf(ps, objs)) && h.shared.nodes != []
    requires heap.Valid() && heap.live == rest + RefBlocks(h.shared.Values())
    modifies heap, h.shared, objs
    ensures Shape(ps) && Inv(SysOf(ps, objs))
    ensures h.shared.Values() == old(h.shared.Values())[1..]
    ensures SysOf(ps, objs).lists == old(SysOf(ps, objs)).lists[i := h.shared.Values()]
    ensures SysOf(ps, objs).destroyed == old(SysOf(ps, objs)).destroyed && SysOf(ps, objs).roots == old(SysOf(ps, objs)).roots
    ensures heap.Valid() && heap.live == rest + RefBlocks(h.shared.Values())
  {
    hide *;
    ghost var s, refs := SysOf(ps, objs), h.shared.Values();
    SysParts(ps, objs);
    var r := PopShared(ps, objs, i, h);
    ghost var mid := SysOf(ps, objs);
    SysParts(ps, objs);
    PoppedInv(s, mid, i);
    Decrement(ps, objs, r.conn);
    PoppedInv(s, SysOf(ps, objs), i);
    RefBlocksHead(refs, rest);
    FreeRef(ps, objs, heap, r);
    SysParts(ps, objs);
  }

  lemma CNodesShrink(s: Sys, t: Sys, i: nat)
    requires Inv(s) && Destroyed(s, t, i)
    ensures CNodes(t) == CNodes(s) - {s.roots[i]}
  {
  }

  lemma CNodesGrow(s: Sys, t: Sys)
    requires Inv(s) && NewProcess(s, t)
    ensures CNodes(t) == CNodes(s) + {t.roots[|s.roots|]}
  {
    forall x | x in CNodes(s) ensures x in CNodes(t) {
      var i :| 0 <= i < |s.roots| && !s.destroyed[i] && s.roots[i] == x;
      assert t.roots[i] == x && !t.destroyed[i];
    }
    assert t.roots[|s.roots|] in CNodes(t) by { assert !t.destroyed[|s.roots|]; }
  }

  /**
   `process_destroy`, as far as connections are concerned.  The CNode is freed, and with it the parent's slot; every
   reference taken by this handle is given back.
   */
  method Destroy(ghost ps: seq<Process>, ghost objs: set<ConnObj>, ghost i: nat, h: Process, cspace: CSpace, heap: Heap, ghost rest: multiset<nat>)
    returns (ok: bool)
    requires i < |ps| && ps[i] == h && Shape(ps) && Inv(SysOf(ps, objs))
    requires cspace.cnodes == CNodes(SysOf(ps, objs))
    requires heap.Valid() && heap.live == rest + RefBlocks(h.shared.Values())
    modifies heap, cspace, h`destroyed, h.shared, objs
    ensures Shape(ps) && heap.Valid() && cspace.cnodes == CNodes(SysOf(ps, objs))
    ensures ok <==> !old(h.destroyed)
    ensures ok ==> Destroyed(old(SysOf(ps, objs)), SysOf(ps, objs), i) && heap.live == rest
    ensures !ok ==> SysOf(ps, objs) == old(SysOf(ps, objs)) && heap.live == old(heap.live)
  {
    hide *;
    if h.destroyed { return false; }
    ghost var s := SysOf(ps, objs);
    SysParts(ps, objs);
    MarkDestroyed(ps, objs, i, h);
    FreeCNode(ps, objs, cspace, h.root);
    SysParts(ps, objs);
    SameCounts(s, SysOf(ps, objs), i);
    ShapeLists(ps, i);
    while h.shared.head != null
      invariant Shape(ps) && Inv(SysOf(ps, objs))
      invariant cspace.cnodes == CNodes(s) - {h.root}
      invariant heap.Valid() && heap.live == rest + RefBlocks(h.shared.Values())
      invariant SysOf(ps, objs).lists == s.lists[i := h.shared.Values()]
      invariant SysOf(ps, objs).destroyed == s.destroyed[i := true] && SysOf(ps, objs).roots == s.roots
      decreases |h.shared.Values()|
    {
      ShapeLists(ps, i);
      ReleaseOne(ps, objs, i, h, heap, rest);
    }
    ShapeLists(ps, i);
    SysParts(ps, objs);
    DestroyedBy(s, SysOf(ps, objs), i);
    CNodesShrink(s, SysOf(ps, objs), i);
    NoRefBlocks(rest);
    ok := true;
  }

  method FreeCNode(ghost ps: seq<Process>, ghost objs: set<ConnObj>, cspace: CSpace, slot: nat)
    requires Shape(ps)
    modifies cspace
    ensures Shape(ps) && SysOf(ps, objs) == old(SysOf(ps, objs)) && cspace.cnodes == old(cspace.cnodes) - {slot}
  {
    cspace.cnodes := cspace.cnodes - {slot};
    assert NodeSeqs(ps) == old(NodeSeqs(ps));
  }

  // ---------------------------------------------------------------------------------------------
  // Creating, connecting and freeing objects
  // ---------------------------------------------------------------------------------------------

  lemma OptAdd(live: multiset<nat>, block: Option<nat>)
    ensures block.Some? ==> live + multiset{block.value} == live + Opt(block) && block.value in live + Opt(block)
    ensures live + Opt(None) == live && live + Opt(block) - Opt(block) == live
  {
  }

  lemma LastOf(live: multiset<nat>, blocks: seq<nat>, p: nat)
    ensures live + multiset(blocks + [p]) == live + multiset(blocks) + multiset{p}
    ensures live + multiset(blocks + [p]) - Opt(Some(p)) == live + multiset(blocks)
    ensures live + multiset([]) == live
  {
  }

  /** Free the blocks from the last to the first. */
  method FreeBlocks(heap: Heap, blocks: seq<nat>, ghost live: multiset<nat>)
    requires heap.Valid() && heap.live == live + multiset(blocks)
    modifies heap
    ensures heap.Valid() && heap.live == live && heap.refusals == old(heap.refusals)
  {
    hide *;
    var i := |blocks|;
    assert blocks[..i] == blocks;
    while i > 0
      invariant 0 <= i <= |blocks| && heap.Valid() && heap.live == live + multiset(blocks[..i]) && heap.refusals == old(heap.refusals)
    {
      i := i - 1;
      assert blocks[..i + 1] == blocks[..i] + [blocks[i]];
      LastOf(live, blocks[..i], blocks[i]);
      heap.Free(Some(blocks[i]));
    }
    LastOf(live, [], 0);
    assert blocks[..0] == [];
  }

  /** One round of the loop that allocates frames. */
  method AllocFrame(heap: Heap, frames: seq<nat>, ghost live: multiset<nat>) returns (ok: bool, more: seq<nat>)
    requires heap.Valid() && heap.live == live + multiset(frames)
    modifies heap
    ensures heap.Valid() && heap.live == live + multiset(more) && |more| == if ok then |frames| + 1 else |frames|
    ensures heap.refusals == if ok then old(heap.refusals) else old(heap.refusals) + 1
  {
    hide *;
    var frame := heap.Alloc();
    if frame.None? { return false, frames; }
    LastOf(live, frames, frame.value);
    return true, frames + [frame.value];
  }

  /** The label `failed_alloc_frame`. */
  method FailedAllocFrame(heap: Heap, frames: seq<nat>, table: Option<nat>, ghost live: multiset<nat>)
    requires heap.Valid() && heap.live == live + Opt(table) + multiset(frames)
    modifies heap
    ensures heap.Valid() && heap.live == live + Opt(None) + multiset([]) && heap.refusals == old(heap.refusals)
  {
    hide *;
    FreeBlocks(heap, frames, live + Opt(table));
    FreeBlock(heap, table, live);
    OptAdd(live, None);
    LastOf(live + Opt(None), [], 0);
  }

  /** `init_shmem_obj`: all frames or none; none only if a request was refused. */
  method InitShmem(heap: Heap, numPages: nat) returns (table: Option<nat>, frames: seq<nat>)
    requires heap.Valid()
    modifies heap
    ensures heap.Valid() && heap.live == old(heap.live) + Opt(table) + multiset(frames)
    ensures if table.Some? then |frames| == numPages else frames == []
    ensures table.Some? <==> heap.refusals == old(heap.refusals)
    ensures heap.refusals >= old(heap.refusals)
  {
    hide *;
    ghost var live, refused := heap.live, heap.refusals;
    table := heap.Alloc();
    frames := [];
    OptAdd(live, table);
    LastOf(live + Opt(table), [], 0);
    if table.None? { return; }
    var i := 0;
    while i < numPages
      invariant i == |frames| <= numPages
      invariant heap.Valid() && heap.live == live + Opt(table) + multiset(frames) && heap.refusals == refused
    {
      var ok;
      ok, frames := AllocFrame(heap, frames, live + Opt(table));
      if !ok {
        FailedAllocFrame(heap, frames, table, live);
        return None, [];
      }
      i := i + 1;
    }
  }

  /** `init_ep_obj` and `init_notif_obj`, or the above. */
  method InitKind(heap: Heap, kind: Kind) returns (ok: bool, table: Option<nat>, kernelObjects: seq<nat>)
    requires heap.Valid()
    modifies heap
    ensures heap.Valid() && heap.live == old(heap.live) + Opt(table) + multiset(kernelObjects)
    ensures !ok ==> table.None? && kernelObjects == []
    ensures ok ==> |kernelObjects| == (match kind case SharedMemory(numPages) => numPages case _ => 1)
    ensures ok ==> (table.Some? <==> kind.SharedMemory?)
    ensures ok <==> heap.refusals == old(heap.refusals)
    ensures heap.refusals >= old(heap.refusals)
  {
    hide *;
    ghost var live := heap.live;
    match kind
    case SharedMemory(numPages) =>
      table, kernelObjects := InitShmem(heap, numPages);
      ok := table.Some?;
    case _ =>
      table, kernelObjects := None, [];
      var kernelObject := heap.Alloc();
      OptAdd(live, None);
      LastOf(live + Opt(None), [], 0);
      ok := kernelObject.Some?;
      if ok {
        LastOf(live + Opt(None), [], kernelObject.value);
        kernelObjects := [] + [kernelObject.value];
      }
  }

  /** `process_create_conn_obj`: an object nobody refers to; or nothing at all, exactly if a request was refused. */
  method CreateConnObj(ghost ps: seq<Process>, ghost objs: set<ConnObj>, kind: Kind, heap: Heap) returns (o: ConnObj?)
    requires Shape(ps) && heap.Valid()
    modifies heap
    ensures Shape(ps) && heap.Valid()
    ensures o == null ==> SysOf(ps, objs) == old(SysOf(ps, objs)) && heap.live == old(heap.live)
    ensures o != null ==>
      && fresh(o) && o.kind == kind && heap.live == old(heap.live) + o.Owned()
      && NewObject(old(SysOf(ps, objs)), SysOf(ps, objs + {o}), o)
    ensures o != null <==> heap.refusals == old(heap.refusals)
  {
    hide *;
    o := AllocApart(ps, objs, kind, heap);
    if o != null {
      SysParts(ps, objs);
      SysWith(ps, objs, o);
      NewObjectBy(SysOf(ps, objs), SysOf(ps, objs + {o}), o);
    }
  }

  lemma SysWith(ps: seq<Process>, objs: set<ConnObj>, o: ConnObj)
    ensures SysOf(ps, objs + {o}) == SysOf(ps, objs).(counts := SysOf(ps, objs).counts[o := o.refCount])
    ensures SysOf(ps, objs - {o}) == SysOf(ps, objs).(counts := SysOf(ps, objs).counts - {o})
  {
  }

  lemma NewObjectBy(s: Sys, t: Sys, o: ConnObj)
    requires o !in s.counts && t == s.(counts := s.counts[o := 0])
    ensures NewObject(s, t, o)
  {
  }

  lemma FreedBy(s: Sys, t: Sys, o: ConnObj)
    requires o in s.counts && s.counts[o] == 0 && t == s.(counts := s.counts - {o})
    ensures Freed(s, t, o)
  {
  }

  method AllocApart(ghost ps: seq<Process>, ghost objs: set<ConnObj>, kind: Kind, heap: Heap) returns (o: ConnObj?)
    requires Shape(ps) && heap.Valid()
    modifies heap
    ensures Shape(ps) && SysOf(ps, objs) == old(SysOf(ps, objs)) && heap.Valid()
    ensures o == null ==> heap.live == old(heap.live)
    ensures o != null ==> fresh(o) && o.kind == kind && o.refCount == 0 && heap.live == old(heap.live) + o.Owned()
    ensures o != null <==> heap.refusals == old(heap.refusals)
  {
    hide ConnObj.Owned;
    o := AllocConnObj(kind, heap);
    assert NodeSeqs(ps) == old(NodeSeqs(ps));
  }

  method AllocConnObj(kind: Kind, heap: Heap) returns (o: ConnObj?)
    requires heap.Valid()
    modifies heap
    ensures heap.Valid()
    ensures o == null ==> heap.live == old(heap.live)
    ensures o != null ==> fresh(o) && o.kind == kind && o.refCount == 0 && heap.live == old(heap.live) + o.Owned()
    ensures o != null <==> heap.refusals == old(heap.refusals)
  {
    hide *;
    ghost var live := heap.live;
    var block := heap.Alloc();
    OptAdd(live, block);
    if block.None? { return null; }
    var name := heap.Alloc();
    OptAdd(live + Opt(block), name);
    if name.None? {
      FreeBlock(heap, block, live);
      return null;
    }
    var ok, table, kernelObjects := InitKind(heap, kind);
    if !ok {
      OptAdd(live + Opt(block) + Opt(name), None);
      LastOf(live + Opt(block) + Opt(name) + Opt(None), [], 0);
      FreeBlock(heap, name, live + Opt(block));
      FreeBlock(heap, block, live);
      return null;
    }
    o := new ConnObj(kind, block.value, name.value, table, kernelObjects);
    OwnedBy(o, live);
  }

  lemma OwnedBy(o: ConnObj, live: multiset<nat>)
    ensures live + o.Owned() == live + Opt(Some(o.block)) + Opt(Some(o.name)) + Opt(o.table) + multiset(o.kernelObjects)
  {
  }

  method TakeCNode(ghost ps: seq<Process>, ghost objs: set<ConnObj>, cspace: CSpace, slot: nat)
    requires Shape(ps)
    modifies cspace
    ensures Shape(ps) && SysOf(ps, objs) == old(SysOf(ps, objs)) && cspace.cnodes == old(cspace.cnodes) + {slot}
  {
    cspace.cnodes := cspace.cnodes + {slot};
    assert NodeSeqs(ps) == old(NodeSeqs(ps));
  }

  method AddProcess(ghost ps: seq<Process>, ghost objs: set<ConnObj>, slot: nat) returns (h: Process)
    requires Shape(ps) && slot !in CNodes(SysOf(ps, objs))
    ensures fresh(h) && fresh(h.shared) && h.root == slot && h.records == [] && Shape(ps + [h])
    ensures NewProcess(old(SysOf(ps, objs)), SysOf(ps + [h], objs)) && SysOf(ps + [h], objs).roots == old(SysOf(ps, objs)).roots + [slot]
  {
    ghost var s, nodes := SysOf(ps, objs), NodeSeqs(ps);
    hide CNodes;
    h := new Process(slot);
    assert NodeSeqs(ps + [h]) == nodes + [[]];
    assert SysOf(ps + [h], objs) == s.(lists := s.lists + [[]], destroyed := s.destroyed + [false], roots := s.roots + [slot]);
  }

  /** A new handle shares nothing.  The allocator has chosen a slot for its CNode that names no other at present. */
  method CreateProcess(ghost ps: seq<Process>, ghost objs: set<ConnObj>, cspace: CSpace, slot: nat) returns (h: Process)
    requires Shape(ps) && Inv(SysOf(ps, objs)) && cspace.cnodes == CNodes(SysOf(ps, objs)) && slot !in cspace.cnodes
    modifies cspace
    ensures fresh(h) && fresh(h.shared) && h.root == slot && h.records == [] && Shape(ps + [h])
    ensures NewProcess(old(SysOf(ps, objs)), SysOf(ps + [h], objs)) && cspace.cnodes == CNodes(SysOf(ps + [h], objs))
  {
    hide *;
    ghost var s := SysOf(ps, objs);
    h := AddProcess(ps, objs, slot);
    TakeCNode(ps + [h], objs, cspace, slot);
    CNodesGrow(s, SysOf(ps + [h], objs));
  }

  /** Requests for memory while an object is copied to a child: the record, and for shared memory an array of its pages. */
  function Requests(kind: Kind): nat { if kind.SharedMemory? then 2 else 1 }

  /** Whether those requests, from the `n`-th on, are granted. */
  predicate Granted(heap: Heap, kind: Kind, n: nat)
  {
    heap.grants(n) && (kind.SharedMemory? ==> heap.grants(n + 1))
  }

  /** The array of pages of `copy_shmem_generic`, which is given back in any case. */
  method PassPages(ghost ps: seq<Process>, ghost objs: set<ConnObj>, o: ConnObj, heap: Heap) returns (ok: bool)
    requires Shape(ps) && heap.Valid()
    modifies heap
    ensures Shape(ps) && SysOf(ps, objs) == old(SysOf(ps, objs)) && heap.Valid()
    ensures heap.live == old(heap.live) && heap.requests == old(heap.requests) + 1 && (ok <==> heap.grants(old(heap.requests)))
  {
    hide *;
    ghost var live := heap.live;
    var pages := AllocEntry(ps, objs, heap);
    OptAdd(live, pages);
    OptAdd(live, None);
    if pages.Some? { FreeRef(ps, objs, heap, Ref(pages.value, o)); }
    ok := pages.Some?;
  }

  /**
   `copy_cptr_to_proc` or `copy_shmem_to_proc`.  A record is allocated first, and given back if the kernel does not copy
   the capability or map the pages.  The array of pages is given back in any case.  `copies` is the kernel's answer
   where there is a CNode to copy to, or an address space to map to.
   */
  method AddToChild(ghost ps: seq<Process>, ghost objs: set<ConnObj>, ghost i: nat, h: Process, o: ConnObj, copies: bool, cspace: CSpace, heap: Heap)
    returns (record: Option<nat>)
    requires Shape(ps) && i < |ps| && ps[i] == h && heap.Valid() && cspace.cnodes == CNodes(SysOf(ps, objs))
    modifies heap, h`records
    ensures Shape(ps) && SysOf(ps, objs) == old(SysOf(ps, objs)) && heap.Valid()
    ensures heap.live == old(heap.live) + Opt(record)
    ensures record.Some? ==> heap.requests == old(heap.requests) + Requests(o.kind)
    ensures record.Some? <==> Granted(heap, o.kind, old(heap.requests)) && copies && Reaches(SysOf(ps, objs), i, o.kind)
    ensures h.records == (if record.Some? then [Ref(record.value, o)] else []) + old(h.records)
  {
    hide *;
    ghost var live, records := heap.live, h.records;
    ReachesIs(ps, objs, i, o.kind);
    RequestsAre(heap, o.kind, heap.requests);
    record := AllocEntry(ps, objs, heap);
    OptAdd(live, record);
    OptAdd(live, None);
    assert [] + records == records;
    if record.None? { return; }
    var mapped := true;
    if o.kind.SharedMemory? { mapped := PassPages(ps, objs, o, heap); }
    OptAdd(live + Opt(record), None);
    var reached := if o.kind.SharedMemory? then !h.destroyed else h.root in cspace.cnodes;
    if !(mapped && copies && reached) {
      FreeRef(ps, objs, heap, Ref(record.value, o));
      return None;
    }
    AddRecord(ps, objs, h, Ref(record.value, o));
  }

  lemma ReachesIs(ps: seq<Process>, objs: set<ConnObj>, i: nat, kind: Kind)
    requires i < |ps|
    ensures Reaches(SysOf(ps, objs), i, kind) <==> if kind.SharedMemory? then !ps[i].destroyed else ps[i].root in CNodes(SysOf(ps, objs))
  {
    SysParts(ps, objs);
    hide SysOf, CNodes;
  }

  lemma RequestsAre(heap: Heap, kind: Kind, n: nat)
    ensures Granted(heap, kind, n) <==> heap.grants(n) && (kind.SharedMemory? ==> heap.grants(n + 1))
    ensures Requests(kind) == if kind.SharedMemory? then 2 else 1
  {
  }

  /** The end of `process_connect`: the handle's reference, and the count. */
  method AddReference(ghost ps: seq<Process>, ghost objs: set<ConnObj>, ghost i: nat, h: Process, o: ConnObj, heap: Heap)
    returns (ref: Option<nat>)
    requires Shape(ps) && o in objs && i < |ps| && ps[i] == h && heap.Valid() && Reaches(SysOf(ps, objs), i, o.kind)
    modifies heap, o, h.shared
    ensures Shape(ps) && heap.Valid() && heap.live == old(heap.live) + Opt(ref)
    ensures ref.Some? <==> heap.grants(old(heap.requests))
    ensures ref.Some? ==> Connected(old(SysOf(ps, objs)), SysOf(ps, objs), i, Ref(ref.value, o))
    ensures ref.None? ==> SysOf(ps, objs) == old(SysOf(ps, objs))
  {
    hide *;
    ref := AllocEntry(ps, objs, heap);
    if ref.None? { return; }
    ghost var s := SysOf(ps, objs);
    SysParts(ps, objs);
    PushShared(ps, objs, i, h, Ref(ref.value, o));
    Increment(ps, objs, o);
    ConnectedBy(s, SysOf(ps, objs), i, Ref(ref.value, o));
  }

  /**
   `process_connect`; no handle stands for the parent itself.  If only the reference is refused, the child keeps a
   record of an object it does not refer to.
   */
  method Connect(ghost ps: seq<Process>, ghost objs: set<ConnObj>, ghost i: nat, h: Process?, o: ConnObj, copies: bool, cspace: CSpace, heap: Heap)
    returns (ok: bool, ghost record: Option<nat>, ghost ref: Option<nat>)
    requires Shape(ps) && o in objs && (h != null ==> i < |ps| && ps[i] == h) && heap.Valid() && cspace.cnodes == CNodes(SysOf(ps, objs))
    modifies heap, o, if h != null then {h.shared} else {}, if h != null then {h} else {}
    ensures Shape(ps) && heap.Valid()
    ensures heap.live == old(heap.live) + Opt(record) + Opt(ref)
    ensures h == null ==> (ok <==> copies) && record == ref == None
    ensures h != null ==>
      (record.Some? <==> Granted(heap, o.kind, old(heap.requests)) && copies && Reaches(old(SysOf(ps, objs)), i, o.kind))
    ensures h != null ==> (ok <==> ref.Some?) && (ref.Some? <==> record.Some? && heap.grants(old(heap.requests) + Requests(o.kind)))
    ensures h != null ==> h.records == (if record.Some? then [Ref(record.value, o)] else []) + old(h.records)
    ensures ref.Some? ==> Connected(old(SysOf(ps, objs)), SysOf(ps, objs), i, Ref(ref.value, o))
    ensures ref.None? ==> SysOf(ps, objs) == old(SysOf(ps, objs))
  {
    hide *;
    record, ref := None, None;
    OptAdd(heap.live, None);
    if h == null { return copies, record, ref; }
    var data := AddToChild(ps, objs, i, h, o, copies, cspace, heap);
    record := data;
    OptAdd(heap.live, None);
    if data.None? { return false, record, ref; }
    var block := AddReference(ps, objs, i, h, o, heap);
    ref := block;
    ok := block.Some?;
  }

  lemma ConnectedBy(s: Sys, t: Sys, i: nat, r: Ref)
    requires i < |s.lists| && r.conn in s.counts && Reaches(s, i, r.conn.kind)
    requires t == s.(lists := s.lists[i := [r] + s.lists[i]], counts := s.counts[r.conn := s.counts[r.conn] + 1])
    ensures Connected(s, t, i, r)
  {
  }

  method AllocEntry(ghost ps: seq<Process>, ghost objs: set<ConnObj>, heap: Heap) returns (block: Option<nat>)
    requires Shape(ps) && heap.Valid()
    modifies heap
    ensures Shape(ps) && SysOf(ps, objs) == old(SysOf(ps, objs)) && heap.Valid()
    ensures heap.requests == old(heap.requests) + 1 && (block.Some? <==> heap.grants(old(heap.requests)))
    ensures heap.live == old(heap.live) + Opt(block)
  {
    block := heap.Alloc();
    assert NodeSeqs(ps) == old(NodeSeqs(ps));
  }

  /** `process_free_conn_obj`: refused while a handle refers to the object; otherwise all that creating it took is given back. */
  method FreeConnObj(ghost ps: seq<Process>, ghost objs: set<ConnObj>, o: ConnObj, heap: Heap, ghost rest: multiset<nat>)
    returns (ok: bool)
    requires Shape(ps) && Inv(SysOf(ps, objs)) && o in objs && heap.Valid() && heap.live == rest + o.Owned()
    modifies heap
    ensures Shape(ps) && SysOf(ps, objs) == old(SysOf(ps, objs)) && heap.Valid()
    ensures ok <==> forall i, k | 0 <= i < |SysOf(ps, objs).lists| && 0 <= k < |SysOf(ps, objs).lists[i]| ::
      SysOf(ps, objs).lists[i][k].conn != o
    ensures ok ==> Freed(old(SysOf(ps, objs)), SysOf(ps, objs - {o}), o) && heap.live == rest
    ensures !ok ==> heap.live == old(heap.live)
  {
    hide *;
    SysParts(ps, objs);
    CanBeFreed(SysOf(ps, objs), o);
    if o.refCount > 0 { return false; }
    FreeApart(ps, objs, o, heap, rest);
    SysWith(ps, objs, o);
    FreedBy(SysOf(ps, objs), SysOf(ps, objs - {o}), o);
    ok := true;
  }

  method FreeApart(ghost ps: seq<Process>, ghost objs: set<ConnObj>, o: ConnObj, heap: Heap, ghost rest: multiset<nat>)
    requires Shape(ps) && heap.Valid() && heap.live == rest + o.Owned()
    modifies heap
    ensures Shape(ps) && SysOf(ps, objs) == old(SysOf(ps, objs)) && heap.Valid() && heap.live == rest
  {
    hide ConnObj.Owned;
    FreeAllOf(o, heap, rest);
    assert NodeSeqs(ps) == old(NodeSeqs(ps));
  }

  method FreeAllOf(o: ConnObj, heap: Heap, ghost rest: multiset<nat>)
    requires heap.Valid() && heap.live == rest + o.Owned()
    modifies heap
    ensures heap.Valid() && heap.live == rest
  {
    hide *;
    OwnedBy(o, rest);
    ghost var named := rest + Opt(Some(o.block)) + Opt(Some(o.name));
    FreeBlocks(heap, o.kernelObjects, named + Opt(o.table));
    FreeBlock(heap, o.table, named);
    FreeBlock(heap, Some(o.name), rest + Opt(Some(o.block)));
    FreeBlock(heap, Some(o.block), rest);
  }
}
