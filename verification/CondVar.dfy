/**
 Condition variables under every interleaving: any number of threads acquire and release the main lock, wait,
 signal and broadcast, one atomic access at a time.  A waiter's node is identified with its thread, and a
 thread's notification is a binary flag, as in seL4.  `WaitQueue` has the linked list itself.

 `queueHolder` says who took the queue lock's word; `enqueued` and `dequeued` record the traffic of the queue.
 No step reads the two records.
 */
module CondVar {
  const NOBODY := -1

  datatype PC =
    | Outside
    | AcquireMain
    // cond_wait
    | LockQueue | Enqueue | UnlockQueue | ReleaseMain | Sleep | ReacquireMain
    // cond_signal and, if `all`, cond_broadcast; `found` is the queue when its lock was taken, `sent` is who has been woken
    | WantQueue(all: bool)
    | Dequeue(all: bool, found: seq<nat>, sent: seq<nat>)
    | Notify(all: bool, found: seq<nat>, sent: seq<nat>, node: nat)
    | Finish(all: bool, found: seq<nat>, sent: seq<nat>)

  datatype State = State(
    mainHolder: int, queueHolder: int, queue: seq<nat>, notified: seq<bool>, pcs: seq<PC>,
    enqueued: seq<nat>, dequeued: seq<nat>)

  datatype Call = Acquire | Release | Wait | Signal | Broadcast

  function Init(n: nat): State { State(NOBODY, NOBODY, [], seq(n, i => false), seq(n, i => Outside), [], []) }

  predicate Shaped(s: State) { |s.pcs| == |s.notified| }

  function Move(s: State, t: nat, pc: PC): State
    requires t < |s.pcs|
  {
    s.(pcs := s.pcs[t := pc])
  }

  /** A call from outside; the main lock must be held to release it or to wait. */
  function Begin(s: State, t: nat, call: Call): State
    requires t < |s.pcs|
  {
    match call
    case Acquire => if s.mainHolder == t then s else Move(s, t, AcquireMain)
    case Release => if s.mainHolder == t then s.(mainHolder := NOBODY) else s
    case Wait => if s.mainHolder == t then Move(s, t, LockQueue) else s
    case Signal => Move(s, t, WantQueue(false))
    case Broadcast => Move(s, t, WantQueue(true))
  }

  /** Thread `t` makes its next access; a thread outside makes `call`. */
  function Step(s: State, t: nat, call: Call): State
    requires Shaped(s) && t < |s.pcs|
  {
    match s.pcs[t]
    case Outside => Begin(s, t, call)
    case AcquireMain => if s.mainHolder == NOBODY then Move(s, t, Outside).(mainHolder := t) else s
    case LockQueue => if s.queueHolder == NOBODY then Move(s, t, Enqueue).(queueHolder := t) else s
    case Enqueue => Move(s, t, UnlockQueue).(queue := s.queue + [t], enqueued := s.enqueued + [t])
    case UnlockQueue => Move(s, t, ReleaseMain).(queueHolder := NOBODY)
    case ReleaseMain => Move(s, t, Sleep).(mainHolder := NOBODY)
    case Sleep => if s.notified[t] then Move(s, t, ReacquireMain).(notified := s.notified[t := false]) else s
    case ReacquireMain => if s.mainHolder == NOBODY then Move(s, t, Outside).(mainHolder := t) else s
    case WantQueue(all) => if s.queueHolder == NOBODY then Move(s, t, Dequeue(all, s.queue, [])).(queueHolder := t) else s
    case Dequeue(all, found, sent) =>
      if s.queue == [] then Move(s, t, Finish(all, found, sent))
      else Move(s, t, Notify(all, found, sent, s.queue[0])).(queue := s.queue[1..], dequeued := s.dequeued + [s.queue[0]])
    case Notify(all, found, sent, node) =>
      Move(s, t, if all then Dequeue(all, found, sent + [node]) else Finish(all, found, sent + [node]))
      .(notified := if node < |s.notified| then s.notified[node := true] else s.notified)
    case Finish(_, _, _) => Move(s, t, Outside).(queueHolder := NOBODY)
  }

  function Run(s: State, schedule: seq<(nat, Call)>): State
    requires Shaped(s)
    decreases |schedule|
  {
    if schedule == [] then s
    else
      var (t, call) := schedule[0];
      Run(if t < |s.pcs| then Step(s, t, call) else s, schedule[1..])
  }

  // ---------------------------------------------------------------------------------------------
  // Invariant
  // ---------------------------------------------------------------------------------------------

  /** Past its enqueue and not yet through `seL4_Wait`. */
  predicate Waiting(pc: PC) { pc.UnlockQueue? || pc.ReleaseMain? || pc.Sleep? }

  predicate HoldsQueue(pc: PC) { pc.Enqueue? || pc.UnlockQueue? || pc.Dequeue? || pc.Notify? || pc.Finish? }

  predicate HoldsMain(pc: PC) { pc.LockQueue? || pc.Enqueue? || pc.UnlockQueue? || pc.ReleaseMain? }

  predicate Queued(s: State, t: nat) { t in s.queue }

  /** A signaller has taken the node off the queue and is about to notify its thread. */
  predicate InHand(s: State, t: nat) {
    0 <= s.queueHolder < |s.pcs| && s.pcs[s.queueHolder].Notify? && s.pcs[s.queueHolder].node == t
  }

  /** The three places a waiter can be found in. */
  function Places(s: State, t: nat): nat
    requires Shaped(s) && t < |s.pcs|
  {
    (if Queued(s, t) then 1 else 0) + (if InHand(s, t) then 1 else 0) + (if s.notified[t] then 1 else 0)
  }

  predicate ThreadOk(s: State, t: nat)
    requires Shaped(s) && t < |s.pcs|
  {
    && (HoldsQueue(s.pcs[t]) <==> s.queueHolder == t)
    && (HoldsMain(s.pcs[t]) ==> s.mainHolder == t)
    && (s.mainHolder == t ==> HoldsMain(s.pcs[t]) || s.pcs[t].Outside? || s.pcs[t].WantQueue? || s.pcs[t].Dequeue? || s.pcs[t].Notify? || s.pcs[t].Finish?)
    && Places(s, t) == (if Waiting(s.pcs[t]) then 1 else 0)
  }

  /** What a signaller has done so far. */
  predicate SignallerOk(s: State, pc: PC) {
    match pc
    case Dequeue(all, found, sent) => found == sent + s.queue && (!all ==> sent == [])
    case Notify(all, found, sent, node) => found == sent + [node] + s.queue && node < |s.pcs| && (!all ==> sent == [])
    case Finish(all, found, sent) =>
      found == sent + s.queue && (if all then s.queue == [] else sent == if found == [] then [] else [found[0]])
    case _ => true
  }

  ghost predicate Distinct(q: seq<nat>) { forall i, j | 0 <= i < j < |q| :: q[i] != q[j] }

  ghost predicate QueueOk(s: State) {
    && s.enqueued == s.dequeued + s.queue
    && Distinct(s.queue)
    && (forall k | 0 <= k < |s.queue| :: s.queue[k] < |s.pcs|)
    && -1 <= s.queueHolder < |s.pcs|
    && (s.queueHolder != NOBODY ==> SignallerOk(s, s.pcs[s.queueHolder]))
  }

  ghost predicate Inv(s: State) {
    Shaped(s) && QueueOk(s) && forall t | 0 <= t < |s.pcs| :: ThreadOk(s, t)
  }

  lemma EnqueueInv(s: State, t: nat, call: Call)
    requires Inv(s) && t < |s.pcs| && s.pcs[t].Enqueue?
    ensures Inv(Step(s, t, call))
  {
    var s' := Step(s, t, call);
    assert ThreadOk(s, t);
    assert t !in s.queue;
    assert s'.enqueued == s'.dequeued + s'.queue;
    forall u | 0 <= u < |s'.pcs| ensures ThreadOk(s', u) {
      assert ThreadOk(s, u);
      assert Queued(s', u) <==> Queued(s, u) || u == t;
    }
  }

  lemma DequeueInv(s: State, t: nat, call: Call)
    requires Inv(s) && t < |s.pcs| && s.pcs[t].Dequeue?
    ensures Inv(Step(s, t, call))
  {
    var s' := Step(s, t, call);
    if s.queue == [] { DequeueNone(s, t, call); } else { DequeueFirst(s, t, call); }
    hide QueueOk, ThreadOk, Step;
    forall u | 0 <= u < |s'.pcs| ensures ThreadOk(s', u) {
      if s.queue == [] { DequeueNoneThread(s, t, call, u); } else { DequeueFirstThread(s, t, call, u); }
    }
  }

  lemma DequeueNone(s: State, t: nat, call: Call)
    requires Inv(s) && t < |s.pcs| && s.pcs[t].Dequeue? && s.queue == []
    ensures var s' := Step(s, t, call); Shaped(s') && |s'.pcs| == |s.pcs| && QueueOk(s')
  {
    assert ThreadOk(s, t);
    assert s.pcs[t].sent + s.queue == s.pcs[t].sent;
  }

  lemma DequeueNoneThread(s: State, t: nat, call: Call, u: nat)
    requires Inv(s) && t < |s.pcs| && u < |s.pcs| && s.pcs[t].Dequeue? && s.queue == []
    ensures var s' := Step(s, t, call); Shaped(s') && |s'.pcs| == |s.pcs| && ThreadOk(s', u)
  {
    assert ThreadOk(s, t) && ThreadOk(s, u);
  }

  lemma DequeueFirst(s: State, t: nat, call: Call)
    requires Inv(s) && t < |s.pcs| && s.pcs[t].Dequeue? && s.queue != []
    ensures var s' := Step(s, t, call); Shaped(s') && |s'.pcs| == |s.pcs| && QueueOk(s')
  {
    var s', pc := Step(s, t, call), s.pcs[t];
    assert ThreadOk(s, t);
    var node, rest := s.queue[0], s.queue[1..];
    assert s.queue == [node] + rest;
    assert s'.enqueued == s'.dequeued + s'.queue;
    assert pc.found == pc.sent + [node] + rest;
    assert forall k | 0 <= k < |rest| :: rest[k] == s.queue[k + 1];
  }

  lemma DequeueFirstThread(s: State, t: nat, call: Call, u: nat)
    requires Inv(s) && t < |s.pcs| && u < |s.pcs| && s.pcs[t].Dequeue? && s.queue != []
    ensures var s' := Step(s, t, call); Shaped(s') && |s'.pcs| == |s.pcs| && ThreadOk(s', u)
  {
    assert ThreadOk(s, t) && ThreadOk(s, u);
    var node, rest := s.queue[0], s.queue[1..];
    assert s.queue == [node] + rest;
    FirstOnce(s.queue);
    hide QueueOk;
    assert u in s.queue <==> u == node || u in rest;
  }

  lemma FirstOnce(q: seq<nat>)
    requires Distinct(q) && q != []
    ensures q[0] !in q[1..]
  {
  }

  lemma NotifyInv(s: State, t: nat, call: Call)
    requires Inv(s) && t < |s.pcs| && s.pcs[t].Notify?
    ensures Inv(Step(s, t, call)) && s.pcs[t].node < |s.notified| && !s.notified[s.pcs[t].node]
  {
    var s' := Step(s, t, call);
    assert ThreadOk(s, t);
    var pc := s.pcs[t];
    assert ThreadOk(s, pc.node);
    assert InHand(s, pc.node);
    assert pc.found == (pc.sent + [pc.node]) + s.queue;
    forall u | 0 <= u < |s'.pcs| ensures ThreadOk(s', u) {
      assert ThreadOk(s, u);
      assert InHand(s, u) <==> u == pc.node;
    }
  }

  predicate Other(pc: PC) { !pc.Enqueue? && !pc.Dequeue? && !pc.Notify? }

  /** Everything but the queue operations leaves the queue and the other threads' state alone. */
  lemma OtherFrame(s: State, t: nat, call: Call)
    requires Shaped(s) && t < |s.pcs| && Other(s.pcs[t])
    ensures var s' := Step(s, t, call);
      && Shaped(s') && |s'.pcs| == |s.pcs|
      && s'.queue == s.queue && s'.enqueued == s.enqueued && s'.dequeued == s.dequeued
      && !s'.pcs[t].Notify?
      && (forall u | 0 <= u < |s.pcs| && u != t :: s'.pcs[u] == s.pcs[u] && s'.notified[u] == s.notified[u])
      && (s'.queueHolder == s.queueHolder || (s.queueHolder == NOBODY && s'.queueHolder == t)
          || ((s.pcs[t].UnlockQueue? || s.pcs[t].Finish?) && s'.queueHolder == NOBODY))
      && (s'.mainHolder == s.mainHolder || (s.mainHolder == NOBODY && s'.mainHolder == t)
          || ((s.pcs[t].ReleaseMain? || (s.pcs[t].Outside? && s.mainHolder == t)) && s'.mainHolder == NOBODY))
  {
  }

  lemma OtherQueue(s: State, t: nat, call: Call)
    requires Inv(s) && t < |s.pcs| && Other(s.pcs[t])
    ensures QueueOk(Step(s, t, call))
  {
    assert ThreadOk(s, t);
    assert [] + s.queue == s.queue;
    OtherFrame(s, t, call);
  }

  lemma OtherSelf(s: State, t: nat, call: Call)
    requires Inv(s) && t < |s.pcs| && Other(s.pcs[t])
    ensures Shaped(Step(s, t, call)) && |Step(s, t, call).pcs| == |s.pcs| && ThreadOk(Step(s, t, call), t)
  {
    assert ThreadOk(s, t);
    hide QueueOk;
  }

  lemma OtherThread(s: State, t: nat, call: Call, u: nat)
    requires Inv(s) && t < |s.pcs| && Other(s.pcs[t]) && u < |s.pcs| && u != t
    ensures Shaped(Step(s, t, call)) && |Step(s, t, call).pcs| == |s.pcs| && ThreadOk(Step(s, t, call), u)
  {
    assert ThreadOk(s, t) && ThreadOk(s, u);
    OtherFrame(s, t, call);
    hide Step, QueueOk;
  }

  lemma OtherInv(s: State, t: nat, call: Call)
    requires Inv(s) && t < |s.pcs| && Other(s.pcs[t])
    ensures Inv(Step(s, t, call))
  {
    OtherSelf(s, t, call);
    OtherQueue(s, t, call);
    var s' := Step(s, t, call);
    hide Step, ThreadOk, QueueOk;
    forall u | 0 <= u < |s'.pcs| ensures ThreadOk(s', u) {
      if u != t { OtherThread(s, t, call, u); }
    }
  }

  lemma StepInv(s: State, t: nat, call: Call)
    requires Inv(s) && t < |s.pcs|
    ensures Inv(Step(s, t, call))
  {
    hide *;
    InvShaped(s);
    match s.pcs[t]
    case Enqueue => EnqueueInv(s, t, call);
    case Dequeue(_, _, _) => DequeueInv(s, t, call);
    case Notify(_, _, _, _) => NotifyInv(s, t, call);
    case _ => IsOther(s.pcs[t]); OtherInv(s, t, call);
  }

  lemma IsOther(pc: PC)
    requires !pc.Enqueue? && !pc.Dequeue? && !pc.Notify?
    ensures Other(pc)
  {
  }

  lemma InvShaped(s: State)
    requires Inv(s)
    ensures Shaped(s)
  {
  }

  lemma InitInv(n: nat)
    ensures Inv(Init(n))
  {
  }

  lemma StepShape(s: State, t: nat, call: Call)
    requires Shaped(s) && t < |s.pcs|
    ensures Shaped(Step(s, t, call)) && |Step(s, t, call).pcs| == |s.pcs|
  {
  }

  /** Every reachable state, for any number of threads and any schedule. */
  lemma {:induction false} RunInv(s: State, schedule: seq<(nat, Call)>)
    requires Inv(s)
    ensures Shaped(s) && Inv(Run(s, schedule))
    decreases |schedule|
  {
    InvShaped(s);
    hide Inv, Step, Shaped;
    if schedule != [] {
      var (t, call) := schedule[0];
      if t < |s.pcs| {
        StepInv(s, t, call);
        StepShape(s, t, call);
        RunInv(Step(s, t, call), schedule[1..]);
      } else {
        RunInv(s, schedule[1..]);
      }
    }
  }

  ghost predicate Reachable(s: State) { exists n: nat, schedule :: Run(Init(n), schedule) == s }

  lemma ReachableInv(s: State)
    requires Reachable(s)
    ensures Inv(s)
  {
    var n: nat, schedule :| Run(Init(n), schedule) == s;
    InitInv(n);
    RunInv(Init(n), schedule);
  }

  // ---------------------------------------------------------------------------------------------
  // What condition variables promise
  // ---------------------------------------------------------------------------------------------

  /**
   No lost wake-up: a thread past its enqueue has its node in the queue, or in a signaller's hand, or has been
   notified, and never two of these; any other thread has none, so no node outlives its `cond_wait`.
   */
  lemma NoLostWakeup(s: State, t: nat)
    requires Reachable(s) && t < |s.pcs|
    ensures Shaped(s)
    ensures Waiting(s.pcs[t]) ==>
      && (Queued(s, t) || InHand(s, t) || s.notified[t])
      && !(Queued(s, t) && InHand(s, t)) && !(Queued(s, t) && s.notified[t]) && !(InHand(s, t) && s.notified[t])
    ensures !Waiting(s.pcs[t]) ==> !Queued(s, t) && !InHand(s, t) && !s.notified[t]
  {
    ReachableInv(s);
    assert ThreadOk(s, t);
  }

  /** Once its node has been dequeued and signalled, `seL4_Wait` lets the thread through; before, it does not. */
  lemma WakesWhenSignalled(s: State, t: nat, call: Call)
    requires Reachable(s) && t < |s.pcs| && s.pcs[t].Sleep?
    ensures Shaped(s)
    ensures Step(s, t, call).pcs[t].ReacquireMain? <==> !Queued(s, t) && !InHand(s, t)
    ensures Step(s, t, call).pcs[t].Sleep? <==> Queued(s, t) || InHand(s, t)
  {
    ReachableInv(s);
    assert ThreadOk(s, t);
  }

  /** Threads leave the queue in the order they entered it, and a signaller takes the one that has waited longest. */
  lemma WakesLongest(s: State, t: nat, call: Call)
    requires Reachable(s) && t < |s.pcs|
    ensures s.dequeued <= s.enqueued && s.enqueued[|s.dequeued|..] == s.queue
    ensures Shaped(s) && s.pcs[t].Dequeue? && s.queue != [] ==>
      var pc := Step(s, t, call).pcs[t]; pc.Notify? && pc.node == s.enqueued[|s.dequeued|]
  {
    ReachableInv(s);
    assert s.enqueued[|s.dequeued|..] == s.queue;
  }

  /**
   When a signaller is about to give the queue lock back: `cond_broadcast` has emptied the queue and woken all it
   found there, in order; `cond_signal` has woken the first it found, if any, and left the others.
   */
  lemma SignalsSent(s: State, t: nat)
    requires Reachable(s) && t < |s.pcs| && s.pcs[t].Finish?
    ensures var Finish(all, found, sent) := s.pcs[t];
      && (all ==> s.queue == [] && sent == found)
      && (!all ==> sent == (if found == [] then [] else [found[0]]) && s.queue == if found == [] then [] else found[1..])
  {
    ReachableInv(s);
    assert ThreadOk(s, t);
    var Finish(all, found, sent) := s.pcs[t];
    assert SignallerOk(s, s.pcs[t]);
    if all {
      assert sent + [] == sent;
    } else if found != [] {
      assert found[1..] == s.queue;
    }
  }

  /** A signal never lands on a flag that is already set, so the binary notification loses none. */
  lemma SignalNotAbsorbed(s: State, t: nat)
    requires Reachable(s) && t < |s.pcs| && s.pcs[t].Notify?
    ensures s.pcs[t].node < |s.notified| == |s.pcs| && !s.notified[s.pcs[t].node] && Waiting(s.pcs[s.pcs[t].node])
  {
    ReachableInv(s);
    NotifyInv(s, t, Wait);
    assert ThreadOk(s, t) && ThreadOk(s, s.pcs[t].node);
  }

  /** A waiter holds the main lock from its call to its release of it, by which time it is in the queue or already signalled. */
  lemma EnqueuedBeforeRelease(s: State, t: nat)
    requires Reachable(s) && t < |s.pcs|
    ensures Shaped(s)
    ensures HoldsMain(s.pcs[t]) ==> s.mainHolder == t
    ensures s.pcs[t].ReleaseMain? ==> Queued(s, t) || InHand(s, t) || s.notified[t]
  {
    ReachableInv(s);
    assert ThreadOk(s, t);
  }

  // ---------------------------------------------------------------------------------------------
  // What a call does
  // ---------------------------------------------------------------------------------------------

  /** `n` accesses of thread `t` in a row; when it is outside it makes `call`. */
  function Alone(s: State, t: nat, call: Call, n: nat): State
    requires Shaped(s) && t < |s.pcs|
    decreases n
  {
    if n == 0 then s else
      StepShape(s, t, call);
      Alone(Step(s, t, call), t, call, n - 1)
  }

  lemma AloneOnce(s: State, t: nat, call: Call, n: nat)
    requires Shaped(s) && t < |s.pcs| && n > 0
    ensures Shaped(Step(s, t, call)) && |Step(s, t, call).pcs| == |s.pcs|
    ensures Alone(s, t, call, n) == Alone(Step(s, t, call), t, call, n - 1)
  {
    StepShape(s, t, call);
    hide Step;
  }

  lemma AloneNone(s: State, t: nat, call: Call)
    requires Shaped(s) && t < |s.pcs|
    ensures Alone(s, t, call, 0) == s
  {
  }

  /** The threads whose nodes are in `q` have their flags set. */
  function Notified(notified: seq<bool>, q: seq<nat>): seq<bool> {
    seq(|notified|, j requires 0 <= j < |notified| => notified[j] || j in q)
  }

  /** The main lock is taken if it is free, and given back by its holder only. */
  lemma AcquireAlone(s: State, t: nat)
    requires Shaped(s) && t < |s.pcs| && s.pcs[t].Outside? && s.mainHolder == NOBODY
    ensures Alone(s, t, Acquire, 2) == s.(mainHolder := t)
  {
    var s1 := Move(s, t, AcquireMain);
    AloneOnce(s, t, Acquire, 2);
    AloneOnce(s1, t, Acquire, 1);
    AloneNone(Step(s1, t, Acquire), t, Acquire);
    assert Step(s1, t, Acquire).pcs == s.pcs;
    hide Alone;
  }

  lemma ReleaseAlone(s: State, t: nat)
    requires Shaped(s) && t < |s.pcs| && s.pcs[t].Outside?
    ensures Alone(s, t, Release, 1) == if s.mainHolder == t then s.(mainHolder := NOBODY) else s
  {
    AloneOnce(s, t, Release, 1);
    AloneNone(Step(s, t, Release), t, Release);
    hide Alone;
  }

  /** `cond_wait` gets the caller to the end of the queue, with the main lock given back, and to sleep. */
  lemma WaitAlone(s: State, t: nat)
    requires Shaped(s) && t < |s.pcs| && s.pcs[t].Outside? && s.mainHolder == t && s.queueHolder == NOBODY
    ensures Alone(s, t, Wait, 5) ==
      s.(mainHolder := NOBODY, queue := s.queue + [t], enqueued := s.enqueued + [t], pcs := s.pcs[t := Sleep])
  {
    hide Alone;
    var s1 := Move(s, t, LockQueue);
    var s2 := Move(s1, t, Enqueue).(queueHolder := t);
    var s3 := Move(s2, t, UnlockQueue).(queue := s.queue + [t], enqueued := s.enqueued + [t]);
    var s4 := Move(s3, t, ReleaseMain).(queueHolder := NOBODY);
    var s5 := Move(s4, t, Sleep).(mainHolder := NOBODY);
    AloneOnce(s, t, Wait, 5);
    AloneOnce(s1, t, Wait, 4);
    AloneOnce(s2, t, Wait, 3);
    AloneOnce(s3, t, Wait, 2);
    AloneOnce(s4, t, Wait, 1);
    AloneNone(s5, t, Wait);
    assert s5.pcs == s.pcs[t := Sleep];
  }

  /** A sleeper that has been notified comes back with the main lock, once that is free, and its flag cleared. */
  lemma WakeAlone(s: State, t: nat, call: Call)
    requires Shaped(s) && t < |s.pcs| && s.pcs[t].Sleep? && s.notified[t] && s.mainHolder == NOBODY
    ensures Alone(s, t, call, 2) == s.(mainHolder := t, notified := s.notified[t := false], pcs := s.pcs[t := Outside])
  {
    hide Alone;
    var s1 := Move(s, t, ReacquireMain).(notified := s.notified[t := false]);
    AloneOnce(s, t, call, 2);
    AloneOnce(s1, t, call, 1);
    AloneNone(Step(s1, t, call), t, call);
    assert Step(s1, t, call).pcs == s.pcs[t := Outside];
  }

  lemma QueueInside(s: State)
    requires Reachable(s)
    ensures Shaped(s) && forall k | 0 <= k < |s.queue| :: s.queue[k] < |s.pcs|
  {
    ReachableInv(s);
    hide Run, Reachable;
  }

  lemma FinishAlone(s: State, t: nat, call: Call)
    requires Shaped(s) && t < |s.pcs| && s.pcs[t].Finish?
    ensures Alone(s, t, call, 1) == s.(queueHolder := NOBODY, pcs := s.pcs[t := Outside])
  {
    AloneOnce(s, t, call, 1);
    AloneNone(Step(s, t, call), t, call);
    hide Alone;
  }

  lemma SignalNone(s: State, t: nat)
    requires Shaped(s) && t < |s.pcs| && s.pcs[t].Outside? && s.queueHolder == NOBODY && s.queue == []
    ensures Alone(s, t, Signal, 4) == s
  {
    hide Alone;
    var s1 := Move(s, t, WantQueue(false));
    var s2 := Move(s1, t, Dequeue(false, [], [])).(queueHolder := t);
    var s3 := Move(s2, t, Finish(false, [], []));
    AloneOnce(s, t, Signal, 4);
    AloneOnce(s1, t, Signal, 3);
    AloneOnce(s2, t, Signal, 2);
    FinishAlone(s3, t, Signal);
    assert s3.pcs[t := Outside] == s.pcs;
  }

  lemma SignalFirst(s: State, t: nat)
    requires Shaped(s) && t < |s.pcs| && s.pcs[t].Outside? && s.queueHolder == NOBODY && s.queue != [] && s.queue[0] < |s.pcs|
    ensures Alone(s, t, Signal, 5) ==
      s.(queue := s.queue[1..], notified := s.notified[s.queue[0] := true], dequeued := s.dequeued + [s.queue[0]])
  {
    hide Alone;
    var node := s.queue[0];
    var s1 := Move(s, t, WantQueue(false));
    var s2 := Move(s1, t, Dequeue(false, s.queue, [])).(queueHolder := t);
    var s3 := Move(s2, t, Notify(false, s.queue, [], node)).(queue := s.queue[1..], dequeued := s.dequeued + [node]);
    var s4 := Move(s3, t, Finish(false, s.queue, [] + [node])).(notified := s.notified[node := true]);
    AloneOnce(s, t, Signal, 5);
    AloneOnce(s1, t, Signal, 4);
    AloneOnce(s2, t, Signal, 3);
    AloneOnce(s3, t, Signal, 2);
    FinishAlone(s4, t, Signal);
    assert s4.pcs[t := Outside] == s.pcs;
  }

  /** `cond_signal` takes the first waiter off the queue, if there is one, and notifies it; the others stay as they are. */
  lemma SignalAlone(s: State, t: nat)
    requires Reachable(s) && t < |s.pcs| && s.pcs[t].Outside? && s.queueHolder == NOBODY
    ensures Shaped(s) && forall k | 0 <= k < |s.queue| :: s.queue[k] < |s.pcs|
    ensures s.queue == [] ==> Alone(s, t, Signal, 4) == s
    ensures s.queue != [] ==>
      Alone(s, t, Signal, 5) ==
        s.(queue := s.queue[1..], notified := s.notified[s.queue[0] := true], dequeued := s.dequeued + [s.queue[0]])
  {
    QueueInside(s);
    hide *;
    if s.queue == [] { SignalNone(s, t); } else { SignalFirst(s, t); }
  }

  /** The loop of `cond_broadcast`. */
  lemma {:induction false} Drain(s: State, t: nat, found: seq<nat>, sent: seq<nat>)
    requires Shaped(s) && t < |s.pcs| && s.pcs[t] == Dequeue(true, found, sent)
    requires forall k | 0 <= k < |s.queue| :: s.queue[k] < |s.pcs|
    ensures Alone(s, t, Broadcast, 2 * |s.queue| + 2) ==
      s.(queueHolder := NOBODY, queue := [], notified := Notified(s.notified, s.queue), dequeued := s.dequeued + s.queue, pcs := s.pcs[t := Outside])
    decreases |s.queue|
  {
    hide Alone;
    if s.queue == [] {
      AloneOnce(s, t, Broadcast, 2);
      var s1 := Move(s, t, Finish(true, found, sent));
      FinishAlone(s1, t, Broadcast);
      assert s1.pcs[t := Outside] == s.pcs[t := Outside];
      assert Notified(s.notified, s.queue) == s.notified && s.dequeued + s.queue == s.dequeued;
    } else {
      var node, rest := s.queue[0], s.queue[1..];
      var s1 := Move(s, t, Notify(true, found, sent, node)).(queue := rest, dequeued := s.dequeued + [node]);
      var s2 := Move(s1, t, Dequeue(true, found, sent + [node])).(notified := s.notified[node := true]);
      AloneOnce(s, t, Broadcast, 2 * |s.queue| + 2);
      AloneOnce(s1, t, Broadcast, 2 * |s.queue| + 1);
      Drain(s2, t, found, sent + [node]);
      assert s2.pcs[t := Outside] == s.pcs[t := Outside];
      assert s.queue == [node] + rest;
      assert Notified(s2.notified, rest) == Notified(s.notified, s.queue);
      assert s.dequeued + [node] + rest == s.dequeued + s.queue;
    }
  }

  /** `cond_broadcast` leaves the queue empty and has notified exactly those it found there. */
  lemma BroadcastAlone(s: State, t: nat)
    requires Reachable(s) && t < |s.pcs| && s.pcs[t].Outside? && s.queueHolder == NOBODY
    ensures Shaped(s)
    ensures Alone(s, t, Broadcast, 2 * |s.queue| + 4) ==
      s.(queue := [], notified := Notified(s.notified, s.queue), dequeued := s.dequeued + s.queue)
  {
    QueueInside(s);
    hide Alone, Reachable, Run, Inv;
    var s1 := Move(s, t, WantQueue(true));
    var s2 := Move(s1, t, Dequeue(true, s.queue, [])).(queueHolder := t);
    AloneOnce(s, t, Broadcast, 2 * |s.queue| + 4);
    AloneOnce(s1, t, Broadcast, 2 * |s.queue| + 3);
    Drain(s2, t, s.queue, []);
    assert s2.pcs[t := Outside] == s.pcs;
  }
}
