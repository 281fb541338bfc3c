/**
 Joining a thread.  One thread runs a routine that returns `result`; any number of others call `thread_join` on
 its handle, before it is started, while it runs or after it has finished.  The library lock is an owner
 (`RecursiveLock` has its implementation) and the queue operations are single steps under it (`CondVar`).
 */
module Join {
  datatype Handle = Init | Running | Destroyed

  const NOBODY := -1

  /** Where the joined thread is. */
  datatype WorkerPC =
    | NotStarted
    | AcquireFirst | InitCondition | ReleaseFirst
    | Routine
    | AcquireLast | MarkDestroyed | SignalAll | ReleaseLast
    | Finished

  /** Where a joiner is; `checked` and later have read the handle's state. */
  datatype JoinerPC =
    | Away
    | Acquire | InitQueue | CheckState
    | Enqueue | ReleaseAndWait | Wait | Reacquire
    | ReadValue | ReleaseLock(value: int)
    | Returned(value: int)

  /**
   `lock` is the owner of the library lock: a joiner's index, or |joiners| for the joined thread, or
   |joiners| + 1 for the thread that starts it.  `inits` counts the calls of `cond_attach`.
   */
  datatype State = State(
    handle: Handle, returned: int, initialized: bool, queue: seq<nat>, lock: int, inits: nat,
    worker: WorkerPC, starting: bool, joiners: seq<JoinerPC>, notified: seq<bool>)

  function Start(n: nat): State {
    State(Init, 0, false, [], NOBODY, 0, NotStarted, false, seq(n, i => Away), seq(n, i => false))
  }

  predicate Shaped(s: State) { |s.joiners| == |s.notified| }

  function Worker(s: State): int { |s.joiners| }

  function Starter(s: State): int { |s.joiners| + 1 }

  /** `libthread_condition_variable_init`: attaching empties the queue, so it must happen once. */
  function InitOnce(s: State): State {
    if s.initialized then s else s.(queue := [], initialized := true, inits := s.inits + 1)
  }

  /** `thread_start`: under the lock, RUNNING is stored before the registers that start the thread are written. */
  function StepStarter(s: State): State {
    if !s.starting then
      if s.lock == NOBODY then s.(lock := Starter(s), starting := true) else s
    else
      s.(lock := NOBODY, starting := false,
         handle := if s.handle.Init? then Running else s.handle,
         worker := if s.handle.Init? then AcquireFirst else s.worker)
  }

  function StepWorker(s: State, result: int): State {
    match s.worker
    case NotStarted => s
    case AcquireFirst => if s.lock == NOBODY then s.(lock := Worker(s), worker := InitCondition) else s
    case InitCondition => InitOnce(s).(worker := ReleaseFirst)
    case ReleaseFirst => s.(lock := NOBODY, worker := Routine)
    case Routine => s.(returned := result, worker := AcquireLast)
    case AcquireLast => if s.lock == NOBODY then s.(lock := Worker(s), worker := MarkDestroyed) else s
    case MarkDestroyed => s.(handle := if s.handle.Running? then Destroyed else s.handle, worker := SignalAll)
    case SignalAll =>
      s.(queue := [], worker := ReleaseLast,
         notified := seq(|s.notified|, j requires 0 <= j < |s.notified| => s.notified[j] || j in s.queue))
    case ReleaseLast => s.(lock := NOBODY, worker := Finished)
    case Finished => s
  }

  function MoveJoiner(s: State, j: nat, pc: JoinerPC): State
    requires j < |s.joiners|
  {
    s.(joiners := s.joiners[j := pc])
  }

  /** `thread_join`; the state is looked at once, before waiting. */
  function StepJoiner(s: State, j: nat): State
    requires Shaped(s) && j < |s.joiners|
  {
    match s.joiners[j]
    case Away => MoveJoiner(s, j, Acquire)
    case Acquire => if s.lock == NOBODY then MoveJoiner(s, j, InitQueue).(lock := j) else s
    case InitQueue => MoveJoiner(InitOnce(s), j, CheckState)
    case CheckState => MoveJoiner(s, j, if !s.handle.Destroyed? then Enqueue else ReadValue)
    case Enqueue => MoveJoiner(s, j, ReleaseAndWait).(queue := s.queue + [j])
    case ReleaseAndWait => MoveJoiner(s, j, Wait).(lock := NOBODY)
    case Wait => if s.notified[j] then MoveJoiner(s, j, Reacquire).(notified := s.notified[j := false]) else s
    case Reacquire => if s.lock == NOBODY then MoveJoiner(s, j, ReadValue).(lock := j) else s
    case ReadValue => MoveJoiner(s, j, ReleaseLock(s.returned))
    case ReleaseLock(value) => MoveJoiner(s, j, Returned(value)).(lock := NOBODY)
    case Returned(_) => s
  }

  /** The thread a step belongs to: a joiner, the joined thread, or the starter for anything above. */
  function Step(s: State, who: nat, result: int): State
    requires Shaped(s)
  {
    if who < |s.joiners| then StepJoiner(s, who) else if who == |s.joiners| then StepWorker(s, result) else StepStarter(s)
  }

  function Run(s: State, schedule: seq<nat>, result: int): State
    requires Shaped(s)
    decreases |schedule|
  {
    if schedule == [] then s else
      StepShape(s, schedule[0], result);
      Run(Step(s, schedule[0], result), schedule[1..], result)
  }

  lemma StepShape(s: State, who: nat, result: int)
    requires Shaped(s)
    ensures Shaped(Step(s, who, result)) && |Step(s, who, result).joiners| == |s.joiners|
  {
    hide StepStarter, StepWorker, StepJoiner;
    StarterShape(s);
    WorkerShape(s, result);
    if who < |s.joiners| { JoinerShape(s, who); }
  }

  lemma StarterShape(s: State)
    requires Shaped(s)
    ensures Shaped(StepStarter(s)) && |StepStarter(s).joiners| == |s.joiners|
  {
  }

  lemma WorkerShape(s: State, result: int)
    requires Shaped(s)
    ensures Shaped(StepWorker(s, result)) && |StepWorker(s, result).joiners| == |s.joiners|
  {
  }

  lemma JoinerShape(s: State, j: nat)
    requires Shaped(s) && j < |s.joiners|
    ensures Shaped(StepJoiner(s, j)) && |StepJoiner(s, j).joiners| == |s.joiners|
  {
  }

  // ---------------------------------------------------------------------------------------------
  // Invariant
  // ---------------------------------------------------------------------------------------------

  predicate WorkerHolds(w: WorkerPC) { w.InitCondition? || w.ReleaseFirst? || w.MarkDestroyed? || w.SignalAll? || w.ReleaseLast? }

  predicate JoinerHolds(pc: JoinerPC) {
    pc.InitQueue? || pc.CheckState? || pc.Enqueue? || pc.ReleaseAndWait? || pc.ReadValue? || pc.ReleaseLock?
  }

  /** The routine has returned and its value is stored. */
  predicate Stored(w: WorkerPC) { w.AcquireLast? || w.MarkDestroyed? || w.SignalAll? || w.ReleaseLast? || w.Finished? }

  predicate Signalled(w: WorkerPC) { w.ReleaseLast? || w.Finished? }

  predicate JoinerOk(s: State, j: nat, result: int)
    requires Shaped(s) && j < |s.joiners|
  {
    var pc := s.joiners[j];
    && (JoinerHolds(pc) <==> s.lock == j)
    && (j in s.queue || s.notified[j] <==> pc.ReleaseAndWait? || pc.Wait?)
    && (s.notified[j] ==> j !in s.queue && Signalled(s.worker))
    && (!pc.Away? && !pc.Acquire? && !pc.InitQueue? ==> s.initialized)
    && (pc.Enqueue? ==> !s.handle.Destroyed?)
    && (pc.Reacquire? || pc.ReadValue? ==> s.handle.Destroyed?)
    && (pc.ReleaseLock? || pc.Returned? ==> s.handle.Destroyed? && pc.value == result)
  }

  predicate WorkerOk(s: State, result: int) {
    && (WorkerHolds(s.worker) <==> s.lock == Worker(s))
    && (s.starting <==> s.lock == Starter(s))
    && (s.worker.NotStarted? <==> s.handle.Init?)
    && (s.handle.Destroyed? <==> s.worker.SignalAll? || Signalled(s.worker))
    && (Stored(s.worker) ==> s.returned == result)
    && (!s.worker.NotStarted? && !s.worker.AcquireFirst? && !s.worker.InitCondition? ==> s.initialized)
    && (Signalled(s.worker) ==> s.queue == [])
    && s.inits == (if s.initialized then 1 else 0)
    && (!s.initialized ==> s.queue == [])
    && -1 <= s.lock <= Starter(s)
  }

  ghost predicate Inv(s: State, result: int) {
    Shaped(s) && WorkerOk(s, result) && forall j | 0 <= j < |s.joiners| :: JoinerOk(s, j, result)
  }

  lemma StarterInv(s: State, result: int)
    requires Inv(s, result)
    ensures Inv(StepStarter(s), result)
  {
    var s' := StepStarter(s);
    forall j | 0 <= j < |s'.joiners| ensures JoinerOk(s', j, result) { assert JoinerOk(s, j, result); }
  }

  lemma WorkerInv(s: State, result: int)
    requires Inv(s, result)
    ensures Inv(StepWorker(s, result), result)
  {
    var s' := StepWorker(s, result);
    forall j | 0 <= j < |s'.joiners| ensures JoinerOk(s', j, result) { assert JoinerOk(s, j, result); }
  }

  lemma JoinerSelf(s: State, k: nat, result: int)
    requires Inv(s, result) && k < |s.joiners|
    ensures Shaped(StepJoiner(s, k)) && |StepJoiner(s, k).joiners| == |s.joiners|
    ensures JoinerOk(StepJoiner(s, k), k, result) && WorkerOk(StepJoiner(s, k), result)
  {
    assert JoinerOk(s, k, result);
  }

  lemma JoinerOther(s: State, k: nat, result: int, j: nat)
    requires Inv(s, result) && k < |s.joiners| && j < |s.joiners| && j != k
    ensures Shaped(StepJoiner(s, k)) && |StepJoiner(s, k).joiners| == |s.joiners| && JoinerOk(StepJoiner(s, k), j, result)
  {
    assert JoinerOk(s, k, result) && JoinerOk(s, j, result);
  }

  lemma JoinerInv(s: State, k: nat, result: int)
    requires Inv(s, result) && k < |s.joiners|
    ensures Inv(StepJoiner(s, k), result)
  {
    var s' := StepJoiner(s, k);
    JoinerSelf(s, k, result);
    hide StepJoiner, JoinerOk, WorkerOk;
    forall j | 0 <= j < |s'.joiners| ensures JoinerOk(s', j, result) {
      if j != k { JoinerOther(s, k, result, j); }
    }
  }

  lemma {:induction false} RunInv(s: State, schedule: seq<nat>, result: int)
    requires Inv(s, result)
    ensures Shaped(s) && Inv(Run(s, schedule, result), result) && |Run(s, schedule, result).joiners| == |s.joiners|
    decreases |schedule|
  {
    assert Shaped(s);
    hide Inv, StepStarter, StepWorker, StepJoiner;
    if schedule != [] {
      StarterInv(s, result);
      WorkerInv(s, result);
      if schedule[0] < |s.joiners| { JoinerInv(s, schedule[0], result); }
      StepShape(s, schedule[0], result);
      RunInv(Step(s, schedule[0], result), schedule[1..], result);
    }
  }

  lemma ReachedInv(n: nat, schedule: seq<nat>, result: int)
    ensures Shaped(Start(n)) && Inv(Run(Start(n), schedule, result), result) && |Run(Start(n), schedule, result).joiners| == n
  {
    RunInv(Start(n), schedule, result);
  }

  // ---------------------------------------------------------------------------------------------
  // What joining promises
  // ---------------------------------------------------------------------------------------------

  /**
   A joiner that returns does so after the routine has, and returns its value.  One `if` is enough: whoever wakes
   it has already stored DESTROYED.
   */
  lemma JoinReturnsResult(n: nat, schedule: seq<nat>, result: int, j: nat)
    requires j < n
    ensures var s := Run(Start(n), schedule, result);
      && |s.joiners| == n
      && (s.joiners[j].Returned? ==> s.joiners[j].value == result && Stored(s.worker) && s.handle.Destroyed?)
      && (s.joiners[j].Reacquire? || s.joiners[j].ReadValue? ==> s.handle.Destroyed?)
  {
    ReachedInv(n, schedule, result);
    assert JoinerOk(Run(Start(n), schedule, result), j, result);
  }

  /** No joiner is left behind: once the joined thread has finished, every waiting joiner has been notified. */
  lemma JoinersWoken(n: nat, schedule: seq<nat>, result: int, j: nat)
    requires j < n
    ensures var s := Run(Start(n), schedule, result);
      && |s.joiners| == |s.notified| == n
      && (s.worker.Finished? && s.joiners[j].Wait? ==> s.notified[j])
      && (s.worker.Finished? ==> !s.joiners[j].Enqueue? && s.queue == [])
  {
    ReachedInv(n, schedule, result);
    assert JoinerOk(Run(Start(n), schedule, result), j, result);
  }

  /** The condition variable is attached at most once, and never while a joiner is queued. */
  lemma AttachedOnce(n: nat, schedule: seq<nat>, result: int)
    ensures var s := Run(Start(n), schedule, result); s.inits <= 1 && (!s.initialized ==> s.queue == [] && s.inits == 0)
  {
    ReachedInv(n, schedule, result);
  }

  /** Only one of all the threads is inside the library at a time. */
  lemma LibraryExclusive(n: nat, schedule: seq<nat>, result: int, i: nat, j: nat)
    requires i < n && j < n && i != j
    ensures var s := Run(Start(n), schedule, result);
      && |s.joiners| == n
      && !(JoinerHolds(s.joiners[i]) && JoinerHolds(s.joiners[j])) && !(JoinerHolds(s.joiners[i]) && WorkerHolds(s.worker))
  {
    ReachedInv(n, schedule, result);
    assert JoinerOk(Run(Start(n), schedule, result), i, result);
    assert JoinerOk(Run(Start(n), schedule, result), j, result);
  }

  // ---------------------------------------------------------------------------------------------
  // Starting, and that joins return
  // ---------------------------------------------------------------------------------------------

  lemma {:induction false} RunAppend(s: State, a: seq<nat>, b: seq<nat>, result: int)
    requires Shaped(s)
    ensures Shaped(Run(s, a, result)) && |Run(s, a, result).joiners| == |s.joiners|
    ensures Run(s, a + b, result) == Run(Run(s, a, result), b, result)
    decreases |a|
  {
    hide Step, Shaped;
    if a == [] {
      assert a + b == b;
    } else {
      StepShape(s, a[0], result);
      assert (a + b)[1..] == a[1..] + b;
      RunAppend(Step(s, a[0], result), a[1..], b, result);
    }
  }

  lemma RunCons(s: State, who: nat, rest: seq<nat>, result: int)
    requires Shaped(s)
    ensures Shaped(Step(s, who, result)) && Run(s, [who] + rest, result) == Run(Step(s, who, result), rest, result)
  {
    StepShape(s, who, result);
    assert ([who] + rest)[1..] == rest;
    hide Step, Shaped;
  }

  lemma StepInv(s: State, who: nat, result: int)
    requires Inv(s, result)
    ensures Shaped(s) && Inv(Step(s, who, result), result) && |Step(s, who, result).joiners| == |s.joiners|
  {
    assert Shaped(s);
    StepShape(s, who, result);
    StarterInv(s, result);
    WorkerInv(s, result);
    if who < |s.joiners| { JoinerInv(s, who, result); }
    hide Inv, StepStarter, StepWorker, StepJoiner;
  }

  /** With the lock free, `thread_start` starts the thread of a new handle, and does nothing to any other. */
  lemma StartAlone(n: nat, schedule: seq<nat>, result: int)
    ensures var s := Run(Start(n), schedule, result);
      && Shaped(s) && |s.joiners| == n
      && (s.lock == NOBODY ==>
            Run(s, [n + 1, n + 1], result) == if s.handle == Init then s.(handle := Running, worker := AcquireFirst) else s)
  {
    ReachedInv(n, schedule, result);
    var s := Run(Start(n), schedule, result);
    assert Shaped(s);
    hide Run;
    if s.lock == NOBODY {
      RunCons(s, n + 1, [n + 1], result);
      RunCons(Step(s, n + 1, result), n + 1, [], result);
      RunNone(Step(Step(s, n + 1, result), n + 1, result), result);
      assert [n + 1] + [n + 1] == [n + 1, n + 1] && [n + 1] + [] == [n + 1];
    }
  }

  lemma RunNone(s: State, result: int)
    requires Shaped(s)
    ensures Run(s, [], result) == s
  {
  }

  /** How many of its own accesses the lock's owner is from giving it back. */
  function Left(s: State): nat {
    if s.lock == Starter(s) then 1
    else if s.lock == Worker(s) then
      match s.worker
      case MarkDestroyed => 3
      case InitCondition | SignalAll => 2
      case _ => 1
    else if 0 <= s.lock < |s.joiners| then
      match s.joiners[s.lock]
      case InitQueue => 4
      case CheckState => 3
      case Enqueue | ReadValue => 2
      case _ => 1
    else 0
  }

  lemma OwnerSteps(s: State, result: int)
    requires Inv(s, result) && s.lock != NOBODY
    ensures 0 <= s.lock && Shaped(s)
    ensures var s' := Step(s, s.lock, result); s'.lock == NOBODY || (s'.lock == s.lock && Left(s') < Left(s))
  {
    if s.lock < |s.joiners| { assert JoinerOk(s, s.lock, result); }
  }

  /** Whoever has the lock can give it back. */
  lemma {:induction false} FreeTheLock(s: State, result: int) returns (more: seq<nat>)
    requires Inv(s, result)
    ensures Shaped(s) && Inv(Run(s, more, result), result) && |Run(s, more, result).joiners| == |s.joiners|
    ensures Run(s, more, result).lock == NOBODY
    decreases Left(s)
  {
    assert Shaped(s);
    more := [];
    if s.lock != NOBODY {
      OwnerSteps(s, result);
      StepInv(s, s.lock, result);
      var s' := Step(s, s.lock, result);
      hide Inv, Step, Left, Run;
      var rest: seq<nat> := [];
      if s'.lock != NOBODY { rest := FreeTheLock(s', result); } else { InvShaped(s', result); RunNone(s', result); }
      more := [s.lock] + rest;
      RunCons(s, s.lock, rest, result);
    }
  }

  lemma InvShaped(s: State, result: int)
    requires Inv(s, result)
    ensures Shaped(s)
  {
  }

  function WorkerLeft(w: WorkerPC): nat {
    match w
    case NotStarted => 10 case AcquireFirst => 9 case InitCondition => 8 case ReleaseFirst => 7 case Routine => 6
    case AcquireLast => 5 case MarkDestroyed => 4 case SignalAll => 3 case ReleaseLast => 2 case Finished => 1
  }

  /** Once it is started, and nobody else has the lock, the thread can go on to its end. */
  lemma {:induction false} WorkerFinishes(s: State, result: int) returns (more: seq<nat>)
    requires Inv(s, result) && !s.worker.NotStarted? && (s.lock == NOBODY || s.lock == Worker(s))
    ensures Shaped(s) && Inv(Run(s, more, result), result) && |Run(s, more, result).joiners| == |s.joiners|
    ensures Run(s, more, result).worker.Finished? && Run(s, more, result).lock == NOBODY
    ensures forall k | 0 <= k < |more| :: more[k] == |s.joiners|
    decreases WorkerLeft(s.worker)
  {
    assert Shaped(s);
    more := [];
    if !s.worker.Finished? {
      StepInv(s, |s.joiners|, result);
      var s' := Step(s, |s.joiners|, result);
      var rest := WorkerFinishes(s', result);
      more := [|s.joiners|] + rest;
      RunCons(s, |s.joiners|, rest, result);
    }
  }

  function JoinerLeft(pc: JoinerPC): nat {
    match pc
    case Away => 11 case Acquire => 10 case InitQueue => 9 case CheckState => 8 case Enqueue => 7 case ReleaseAndWait => 6
    case Wait => 5 case Reacquire => 4 case ReadValue => 3 case ReleaseLock(_) => 2 case Returned(_) => 1
  }

  lemma JoinerNext(s: State, j: nat, result: int)
    requires Inv(s, result) && s.worker.Finished? && j < |s.joiners| && (s.lock == NOBODY || s.lock == j) && !s.joiners[j].Returned?
    ensures Shaped(s)
    ensures var s' := Step(s, j, result);
      && |s'.joiners| == |s.joiners| && s'.worker == s.worker && (s'.lock == NOBODY || s'.lock == j)
      && JoinerLeft(s'.joiners[j]) < JoinerLeft(s.joiners[j])
  {
    assert JoinerOk(s, j, result);
  }

  /** With the thread at its end, a joiner can go on to return. */
  lemma {:induction false} JoinerReturns(s: State, j: nat, result: int) returns (more: seq<nat>)
    requires Inv(s, result) && s.worker.Finished? && j < |s.joiners| && (s.lock == NOBODY || s.lock == j)
    ensures Shaped(s) && Inv(Run(s, more, result), result) && |Run(s, more, result).joiners| == |s.joiners|
    ensures Run(s, more, result).joiners[j] == Returned(result)
    decreases JoinerLeft(s.joiners[j])
  {
    InvShaped(s, result);
    assert JoinerOk(s, j, result);
    more := [];
    if !s.joiners[j].Returned? {
      JoinerNext(s, j, result);
      StepInv(s, j, result);
      hide Inv, Step, Run;
      var rest := JoinerReturns(Step(s, j, result), j, result);
      more := [j] + rest;
      RunCons(s, j, rest, result);
    }
  }

  /** A free lock, a thread at its end: from any state that can be reached. */
  lemma Finishes(s: State, result: int) returns (more: seq<nat>)
    requires Inv(s, result)
    ensures Shaped(s) && Inv(Run(s, more, result), result) && |Run(s, more, result).joiners| == |s.joiners|
    ensures Run(s, more, result).worker.Finished? && Run(s, more, result).lock == NOBODY
  {
    InvShaped(s, result);
    var a := FreeTheLock(s, result);
    var s1 := Run(s, a, result);
    InvShaped(s1, result);
    var b: seq<nat> := [];
    var s2 := s1;
    if s1.worker.NotStarted? {
      b := [|s.joiners| + 1, |s.joiners| + 1];
      s2 := StartedFrom(s1, result);
    } else {
      RunNone(s1, result);
    }
    hide Inv, Run, Step;
    InvShaped(s2, result);
    var c := WorkerFinishes(s2, result);
    more := a + (b + c);
    RunAppend(s, a, b + c, result);
    RunAppend(s1, b, c, result);
  }

  lemma StartedFrom(s: State, result: int) returns (s2: State)
    requires Inv(s, result) && s.worker.NotStarted? && s.lock == NOBODY
    ensures Shaped(s) && s2 == Run(s, [|s.joiners| + 1, |s.joiners| + 1], result)
    ensures Inv(s2, result) && |s2.joiners| == |s.joiners| && s2.lock == NOBODY && !s2.worker.NotStarted?
  {
    InvShaped(s, result);
    var who := |s.joiners| + 1;
    var s1 := Step(s, who, result);
    s2 := Step(s1, who, result);
    StepInv(s, who, result);
    StepInv(s1, who, result);
    InvShaped(s2, result);
    hide Run;
    RunCons(s, who, [who], result);
    RunCons(s1, who, [], result);
    RunNone(s2, result);
    assert [who] + [who] == [who, who] && [who] + [] == [who];
  }

  /** No join hangs for good: after any schedule there is a way on by which it returns, with the value of the routine. */
  lemma JoinCanReturn(n: nat, schedule: seq<nat>, result: int, j: nat) returns (more: seq<nat>)
    requires j < n
    ensures |Run(Start(n), schedule + more, result).joiners| == n
    ensures Run(Start(n), schedule + more, result).joiners[j] == Returned(result)
  {
    ReachedInv(n, schedule, result);
    var s := Run(Start(n), schedule, result);
    hide Inv, Run, Start;
    InvShaped(s, result);
    var a := Finishes(s, result);
    InvShaped(Run(s, a, result), result);
    var b := JoinerReturns(Run(s, a, result), j, result);
    more := a + b;
    RunAppend(s, a, b, result);
    RunAppend(Start(n), schedule, a + b, result);
  }

  /** Both kinds of joiner: one that waits before the thread is even started, and one that comes when it has finished. */
  lemma EarlyAndLate(n: nat, result: int, j: nat) returns (early: seq<nat>, late: seq<nat>)
    requires j < n
    ensures |Run(Start(n), early, result).joiners| == |Run(Start(n), late, result).joiners| == n
    ensures Run(Start(n), early, result).worker == NotStarted && Run(Start(n), early, result).joiners[j] == Wait
    ensures Run(Start(n), late, result).worker == Finished && Run(Start(n), late, result).joiners[j] == Away
  {
    early := EarlyJoiner(n, result, j);
    late := LateJoiner(n, result, j);
  }

  lemma EarlyJoiner(n: nat, result: int, j: nat) returns (early: seq<nat>)
    requires j < n
    ensures |Run(Start(n), early, result).joiners| == n
    ensures Run(Start(n), early, result).worker == NotStarted && Run(Start(n), early, result).joiners[j] == Wait
  {
    hide Run;
    var s0 := Start(n);
    var s1 := Step(s0, j, result);
    var s2 := Step(s1, j, result);
    var s3 := Step(s2, j, result);
    var s4 := Step(s3, j, result);
    var s5 := Step(s4, j, result);
    var s6 := Step(s5, j, result);
    early := [j] + ([j] + ([j] + ([j] + ([j] + ([j] + [])))));
    RunCons(s0, j, [j] + ([j] + ([j] + ([j] + ([j] + [])))), result);
    RunCons(s1, j, [j] + ([j] + ([j] + ([j] + []))), result);
    RunCons(s2, j, [j] + ([j] + ([j] + [])), result);
    RunCons(s3, j, [j] + ([j] + []), result);
    RunCons(s4, j, [j] + [], result);
    RunCons(s5, j, [], result);
    RunNone(s6, result);
  }

  /** Steps of the starter and the thread leave a joiner that is away there. */
  lemma {:induction false} AwayStays(s: State, more: seq<nat>, result: int, j: nat)
    requires Shaped(s) && j < |s.joiners| && s.joiners[j].Away? && forall k | 0 <= k < |more| :: more[k] >= |s.joiners|
    ensures |Run(s, more, result).joiners| == |s.joiners| && Run(s, more, result).joiners[j].Away?
    decreases |more|
  {
    if more != [] {
      StepShape(s, more[0], result);
      AwayStays(Step(s, more[0], result), more[1..], result, j);
    }
  }

  lemma LateJoiner(n: nat, result: int, j: nat) returns (late: seq<nat>)
    requires j < n
    ensures |Run(Start(n), late, result).joiners| == n
    ensures Run(Start(n), late, result).worker == Finished && Run(Start(n), late, result).joiners[j] == Away
  {
    var s := Start(n);
    ReachedInv(n, [], result);
    RunNone(s, result);
    var s1 := StartedFrom(s, result);
    var rest := WorkerFinishes(s1, result);
    late := [n + 1, n + 1] + rest;
    hide Run, Step, Inv, Start;
    RunAppend(s, [n + 1, n + 1], rest, result);
    AwayStays(s, late, result, j);
  }
}

/** `libthread_lock_init`: the library lock is created by whichever thread comes first, and by no other. */
module LockInit {
  /** `Create` is everything between winning the compare-exchange and storing 1. */
  datatype PC = CompareExchange | Create | Store | Spin | Done

  datatype State = State(initialized: int, creations: nat, pcs: seq<PC>)

  function Init(n: nat): State { State(0, 0, seq(n, i => CompareExchange)) }

  function Step(s: State, t: nat): State
    requires t < |s.pcs|
  {
    match s.pcs[t]
    case CompareExchange =>
      if s.initialized == 0 then s.(initialized := -1, pcs := s.pcs[t := Create]) else s.(pcs := s.pcs[t := Spin])
    case Create => s.(creations := s.creations + 1, pcs := s.pcs[t := Store])
    case Store => s.(initialized := 1, pcs := s.pcs[t := Spin])
    case Spin => if s.initialized == 1 then s.(pcs := s.pcs[t := Done]) else s
    case Done => s.(pcs := s.pcs[t := CompareExchange])
  }

  function Run(s: State, schedule: seq<nat>): State
    decreases |schedule|
  {
    if schedule == [] then s else Run(if schedule[0] < |s.pcs| then Step(s, schedule[0]) else s, schedule[1..])
  }

  predicate Creating(pc: PC) { pc.Create? || pc.Store? }

  ghost predicate Inv(s: State) {
    && s.initialized in {-1, 0, 1}
    && s.creations <= 1
    && (s.initialized == 0 ==> s.creations == 0)
    && (s.initialized == 1 ==> s.creations == 1)
    && (forall t | 0 <= t < |s.pcs| ::
          && (Creating(s.pcs[t]) ==> s.initialized == -1 && s.creations == (if s.pcs[t].Create? then 0 else 1))
          && (s.pcs[t].Done? ==> s.initialized == 1))
    && (forall t, u | 0 <= t < u < |s.pcs| :: !(Creating(s.pcs[t]) && Creating(s.pcs[u])))
  }

  lemma StepInv(s: State, t: nat)
    requires Inv(s) && t < |s.pcs|
    ensures Inv(Step(s, t))
  {
    var s' := Step(s, t);
    forall u | 0 <= u < |s'.pcs| && u != t
      ensures s'.pcs[u] == s.pcs[u] && (Creating(s'.pcs[t]) ==> !Creating(s'.pcs[u]))
    {
      assert !(Creating(s.pcs[t]) && Creating(s.pcs[u]));
    }
  }

  lemma {:induction false} RunInv(s: State, schedule: seq<nat>)
    requires Inv(s)
    ensures Inv(Run(s, schedule)) && |Run(s, schedule).pcs| == |s.pcs|
    decreases |schedule|
  {
    hide Inv;
    if schedule != [] {
      if schedule[0] < |s.pcs| { StepInv(s, schedule[0]); }
      RunInv(if schedule[0] < |s.pcs| then Step(s, schedule[0]) else s, schedule[1..]);
    }
  }

  /** The lock is created at most once, and no thread gets past the initialisation before it has been. */
  lemma CreatedOnce(n: nat, schedule: seq<nat>, t: nat)
    requires t < n
    ensures var s := Run(Init(n), schedule);
      && |s.pcs| == n && s.creations <= 1
      && (s.pcs[t].Done? ==> s.creations == 1 && s.initialized == 1 && forall u | 0 <= u < n :: !Creating(s.pcs[u]))
  {
    RunInv(Init(n), schedule);
  }

  lemma {:induction false} RunAppend(s: State, a: seq<nat>, b: seq<nat>)
    ensures Run(s, a + b) == Run(Run(s, a), b)
    decreases |a|
  {
    hide Step;
    if a == [] {
      assert a + b == b;
    } else {
      assert (a + b)[1..] == a[1..] + b;
      RunAppend(if a[0] < |s.pcs| then Step(s, a[0]) else s, a[1..], b);
    }
  }

  lemma RunCons(s: State, t: nat, rest: seq<nat>)
    requires t < |s.pcs|
    ensures Run(s, [t] + rest) == Run(Step(s, t), rest)
  {
    hide Step;
    assert ([t] + rest)[1..] == rest;
  }

  function Left(pc: PC): nat {
    match pc
    case CompareExchange => 5 case Create => 4 case Store => 3 case Spin => 2 case Done => 1
  }

  /** If the lock exists or nobody is at creating it, a thread gets through on its own. */
  lemma {:induction false} GoesThrough(s: State, t: nat) returns (more: seq<nat>)
    requires Inv(s) && t < |s.pcs| && (s.initialized == -1 ==> Creating(s.pcs[t])) && (s.initialized == 0 ==> s.pcs[t].CompareExchange?)
    ensures |Run(s, more).pcs| == |s.pcs| && Run(s, more).pcs[t] == Done
    decreases Left(s.pcs[t])
  {
    more := [];
    if s.pcs[t] != Done {
      StepInv(s, t);
      var rest := GoesThrough(Step(s, t), t);
      more := [t] + rest;
      RunCons(s, t, rest);
    }
  }

  /** Somebody creates the lock while it is being created, and nobody has got anywhere while it is not. */
  ghost predicate Attended(s: State) {
    && (s.initialized == -1 ==> exists t | 0 <= t < |s.pcs| :: Creating(s.pcs[t]))
    && (s.initialized == 0 ==> forall t | 0 <= t < |s.pcs| :: s.pcs[t].CompareExchange?)
  }

  lemma StepAttended(s: State, t: nat)
    requires Inv(s) && Attended(s) && t < |s.pcs|
    ensures Attended(Step(s, t))
  {
    var s' := Step(s, t);
    if s.initialized == -1 && s'.initialized == -1 {
      var u :| 0 <= u < |s.pcs| && Creating(s.pcs[u]);
      assert Creating(s'.pcs[u]);
    }
    if s.initialized == 0 { assert Creating(s'.pcs[t]); }
  }

  lemma {:induction false} RunAttended(s: State, schedule: seq<nat>)
    requires Inv(s) && Attended(s)
    ensures Attended(Run(s, schedule))
    decreases |schedule|
  {
    hide Inv, Attended;
    if schedule != [] {
      if schedule[0] < |s.pcs| {
        StepInv(s, schedule[0]);
        StepAttended(s, schedule[0]);
      }
      RunAttended(if schedule[0] < |s.pcs| then Step(s, schedule[0]) else s, schedule[1..]);
    }
  }

  /** The one that creates the lock comes to having stored that it is there. */
  lemma Creates(s: State, u: nat) returns (more: seq<nat>)
    requires Inv(s) && u < |s.pcs| && Creating(s.pcs[u])
    ensures Inv(Run(s, more)) && |Run(s, more).pcs| == |s.pcs| && Run(s, more).initialized == 1
  {
    StepInv(s, u);
    if s.pcs[u].Create? {
      StepInv(Step(s, u), u);
      more := [u] + ([u] + []);
      RunCons(s, u, [u] + []);
      RunCons(Step(s, u), u, []);
    } else {
      more := [u] + [];
      RunCons(s, u, []);
    }
  }

  /** No thread hangs for good in the initialisation: after any schedule there is a way on by which it gets through. */
  lemma CanGoThrough(n: nat, schedule: seq<nat>, t: nat) returns (more: seq<nat>)
    requires t < n
    ensures |Run(Init(n), schedule + more).pcs| == n && Run(Init(n), schedule + more).pcs[t] == Done
  {
    RunInv(Init(n), schedule);
    RunAttended(Init(n), schedule);
    var s := Run(Init(n), schedule);
    hide Run, Init;
    if s.initialized == -1 {
      var u :| 0 <= u < |s.pcs| && Creating(s.pcs[u]);
      var a := Creates(s, u);
      var b := GoesThrough(Run(s, a), t);
      more := a + b;
      RunAppend(s, a, b);
    } else {
      more := GoesThrough(s, t);
    }
    RunAppend(Init(n), schedule, more);
  }
}
