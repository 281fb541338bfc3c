/**
 The re-entrant spinlock of libthread: a lock word, a holder and a depth, written separately.  Any number of
 threads call `mutex_lock` and `mutex_unlock` in any order, and a schedule interleaves their atomic accesses to
 the three words one at a time.
 */
module RecursiveLock {
  const NO_THREAD := -1
  const INT_MAX := 0x7FFF_FFFF

  /** Where a thread is: about to make the named access, or outside both functions. */
  datatype PC =
    | Outside
    // mutex_trylock, which mutex_lock repeats
    | TestHolder | AssertHeld | Increment | TryWord | SetHolder | SetHeld
    // mutex_unlock
    | UnlockTest | UnlockLast | ClearHolder | FreeWord | Decrement

  /** `locks` and `unlocks` count the calls that returned LOCK_SUCCESS. */
  datatype Thread = Thread(pc: PC, locks: nat, unlocks: nat)

  /** Thread ids are the indices of `threads`. */
  datatype State = State(value: int, held: int, holder: int, threads: seq<Thread>)

  datatype Call = Lock | Unlock

  /** After `mutex_spinlock_init`. */
  function Init(n: nat): State {
    State(0, 0, NO_THREAD, seq(n, i => Thread(Outside, 0, 0)))
  }

  function Move(s: State, t: nat, pc: PC): State
    requires t < |s.threads|
  {
    s.(threads := s.threads[t := s.threads[t].(pc := pc)])
  }

  /** Thread `t` returns from a successful call. */
  function Return(s: State, t: nat, call: Call): State
    requires t < |s.threads|
  {
    var th := s.threads[t];
    s.(threads := s.threads[t := match call
                                 case Lock => Thread(Outside, th.locks + 1, th.unlocks)
                                 case Unlock => Thread(Outside, th.locks, th.unlocks + 1)])
  }

  /** Thread `t` makes its next access; a thread outside makes `call`. */
  function Step(s: State, t: nat, call: Call): State
    requires t < |s.threads|
  {
    match s.threads[t].pc
    case Outside => Move(s, t, if call == Lock then TestHolder else UnlockTest)
    case TestHolder => Move(s, t, if s.holder == t then AssertHeld else TryWord)
    case AssertHeld => Move(s, t, Increment)
    case Increment => if s.held < INT_MAX then Return(s, t, Lock).(held := s.held + 1) else Move(s, t, Outside)
    case TryWord => if s.value == 0 then Move(s, t, SetHolder).(value := 1) else Move(s, t, TestHolder)
    case SetHolder => Move(s, t, SetHeld).(holder := if s.holder == NO_THREAD then t else s.holder)
    case SetHeld => Return(s, t, Lock).(held := 1)
    case UnlockTest => Move(s, t, if s.holder == t then UnlockLast else Outside)
    case UnlockLast => if s.held == 1 then Move(s, t, ClearHolder).(held := 0) else Move(s, t, Decrement)
    case ClearHolder => Move(s, t, FreeWord).(holder := NO_THREAD)
    case FreeWord => if s.value == 1 then Return(s, t, Unlock).(value := 0) else Move(s, t, Outside)
    case Decrement => Return(s, t, Unlock).(held := s.held - 1)
  }

  /** A schedule names the thread that moves, and what it calls if it is outside; ids out of range do nothing. */
  function Run(s: State, schedule: seq<(nat, Call)>): State
    decreases |schedule|
  {
    if schedule == [] then s
    else
      var (t, call) := schedule[0];
      Run(if t < |s.threads| then Step(s, t, call) else s, schedule[1..])
  }

  // ---------------------------------------------------------------------------------------------
  // Invariant
  // ---------------------------------------------------------------------------------------------

  function Depth(th: Thread): int { th.locks - th.unlocks }

  /** The thread has taken the lock word and not given it back. */
  predicate Owns(th: Thread) {
    Depth(th) > 0 || th.pc in {SetHolder, SetHeld, ClearHolder, FreeWord}
  }

  predicate ThreadOk(s: State, t: nat)
    requires t < |s.threads|
  {
    var th := s.threads[t];
    && Depth(th) >= 0
    && (th.pc in {AssertHeld, Increment, UnlockLast} ==> Depth(th) > 0)
    && (th.pc == Decrement ==> Depth(th) > 1)
    && (th.pc in {TryWord, SetHolder, SetHeld} ==> Depth(th) == 0)
    && (th.pc in {ClearHolder, FreeWord} ==> Depth(th) == 1)
    && (Owns(th) ==>
          && s.value == 1
          && s.holder == (if th.pc in {SetHolder, FreeWord} then NO_THREAD else t)
          && s.held == (if th.pc in {SetHolder, SetHeld, ClearHolder, FreeWord} then 0 else Depth(th)))
  }

  ghost predicate Inv(s: State) {
    && (forall t | 0 <= t < |s.threads| :: ThreadOk(s, t))
    && (forall t, u | 0 <= t < u < |s.threads| :: !(Owns(s.threads[t]) && Owns(s.threads[u])))
    && ((forall t | 0 <= t < |s.threads| :: !Owns(s.threads[t])) ==> s.value == 0 && s.holder == NO_THREAD && s.held == 0)
  }

  lemma Others(s: State, t: nat, call: Call)
    requires t < |s.threads|
    ensures |Step(s, t, call).threads| == |s.threads|
    ensures forall u | 0 <= u < |s.threads| && u != t :: Step(s, t, call).threads[u] == s.threads[u]
  {
  }

  lemma FreeMeansNoOwner(s: State, t: nat)
    requires Inv(s) && s.value == 0 && t < |s.threads|
    ensures !Owns(s.threads[t])
  {
    assert ThreadOk(s, t);
  }

  lemma HolderOwns(s: State, t: nat)
    requires Inv(s) && t < |s.threads| && s.holder == t
    ensures Owns(s.threads[t]) && ThreadOk(s, t)
  {
    assert exists u :: 0 <= u < |s.threads| && Owns(s.threads[u]);
    var u :| 0 <= u < |s.threads| && Owns(s.threads[u]);
    assert ThreadOk(s, u) && ThreadOk(s, t);
  }

  lemma StepOk(s: State, t: nat, call: Call)
    requires Inv(s) && t < |s.threads|
    ensures ThreadOk(Step(s, t, call), t)
    ensures Owns(Step(s, t, call).threads[t]) ==> Owns(s.threads[t]) || s.value == 0
    ensures !Owns(Step(s, t, call).threads[t]) && Owns(s.threads[t]) ==>
      var s' := Step(s, t, call); s'.value == 0 && s'.holder == NO_THREAD && s'.held == 0
    ensures !Owns(s.threads[t]) && !Owns(Step(s, t, call).threads[t]) ==>
      var s' := Step(s, t, call); s'.value == s.value && s'.holder == s.holder && s'.held == s.held
  {
    assert ThreadOk(s, t);
    if s.holder == t { HolderOwns(s, t); }
    if s.value == 0 {
      forall u | 0 <= u < |s.threads| ensures !Owns(s.threads[u]) { FreeMeansNoOwner(s, u); }
    }
  }

  /** Every single access keeps the invariant. */
  lemma StepInv(s: State, t: nat, call: Call)
    requires Inv(s) && t < |s.threads|
    ensures Inv(Step(s, t, call))
  {
    var s' := Step(s, t, call);
    Others(s, t, call);
    StepOk(s, t, call);
    hide Step;
    forall u | 0 <= u < |s.threads| ensures ThreadOk(s', u) && (u != t ==> !(Owns(s'.threads[t]) && Owns(s'.threads[u]))) {
      assert ThreadOk(s, u);
      assert u != t ==> !(Owns(s.threads[t]) && Owns(s.threads[u]));
    }
  }

  /** Every reachable state, for any number of threads and any schedule. */
  lemma {:induction false} RunInv(s: State, schedule: seq<(nat, Call)>)
    requires Inv(s)
    ensures Inv(Run(s, schedule))
    decreases |schedule|
  {
    hide Inv, Step;
    if schedule != [] {
      var (t, call) := schedule[0];
      if t < |s.threads| {
        StepInv(s, t, call);
        RunInv(Step(s, t, call), schedule[1..]);
      } else {
        RunInv(s, schedule[1..]);
      }
    }
  }

  ghost predicate Reachable(s: State) { exists n: nat, schedule :: Run(Init(n), schedule) == s }

  lemma ReachableInv(s: State)
    requires Reachable(s)
    ensures Inv(s)
  {
    var n: nat, schedule :| Run(Init(n), schedule) == s;
    RunInv(Init(n), schedule);
  }

  // ---------------------------------------------------------------------------------------------
  // What the lock promises
  // ---------------------------------------------------------------------------------------------

  /** No two threads are between a successful `mutex_lock` and the matching `mutex_unlock`. */
  lemma MutualExclusion(s: State, t: nat, u: nat)
    requires Reachable(s) && t < |s.threads| && u < |s.threads|
    requires Depth(s.threads[t]) > 0 && Depth(s.threads[u]) > 0
    ensures t == u
  {
    ReachableInv(s);
    OneOwner(s, t, u);
  }

  lemma OneOwner(s: State, t: nat, u: nat)
    requires Inv(s) && t < |s.threads| && u < |s.threads| && Owns(s.threads[t]) && Owns(s.threads[u])
    ensures t == u
  {
  }

  /** A free lock word means no holder, depth zero and no thread inside. */
  lemma FreeLock(s: State, t: nat)
    requires Reachable(s) && t < |s.threads| && s.value == 0
    ensures s.holder == NO_THREAD && s.held == 0 && Depth(s.threads[t]) == 0
  {
    ReachableInv(s);
    forall u | 0 <= u < |s.threads| ensures !Owns(s.threads[u]) { FreeMeansNoOwner(s, u); }
    assert ThreadOk(s, t);
  }

  /** The assertion in `mutex_trylock` never fails, and `spinlock_unlock` never finds the word corrupted. */
  lemma NeverFails(s: State, t: nat)
    requires Reachable(s) && t < |s.threads|
    ensures s.threads[t].pc == AssertHeld ==> s.held > 0
    ensures s.threads[t].pc == FreeWord ==> s.value == 1
    ensures s.threads[t].pc == SetHolder ==> s.holder == NO_THREAD
  {
    ReachableInv(s);
    assert ThreadOk(s, t);
  }

  /** Between calls, the words say who owns the lock and how deep. */
  lemma OwnerOutside(s: State, t: nat)
    requires Reachable(s) && t < |s.threads| && s.threads[t].pc == Outside
    ensures Depth(s.threads[t]) > 0 <==> s.holder == t
    ensures s.holder == t ==> s.value == 1 && s.held == Depth(s.threads[t])
  {
    ReachableInv(s);
    assert ThreadOk(s, t);
    if s.holder == t { HolderOwns(s, t); }
  }

  /** The word is released by the unlock that matches the outermost lock, and by nothing else. */
  lemma ReleasedByLastUnlock(s: State, t: nat, call: Call)
    requires Reachable(s) && t < |s.threads|
    ensures var s' := Step(s, t, call);
      && (s.value != 0 && s'.value == 0 ==>
            Depth(s.threads[t]) == 1 && Depth(s'.threads[t]) == 0 && s'.threads[t].unlocks == s.threads[t].unlocks + 1)
      && (s'.threads[t].unlocks == s.threads[t].unlocks + 1 ==> (s'.value == 0 <==> Depth(s'.threads[t]) == 0))
  {
    ReachableInv(s);
    assert ThreadOk(s, t);
  }

  /** No step of another thread acquires a lock that is held, or changes its words. */
  lemma Excluded(s: State, t: nat, u: nat, call: Call)
    requires Reachable(s) && t < |s.threads| && u < |s.threads| && t != u && Depth(s.threads[u]) > 0
    ensures Step(s, t, call).threads[t].locks == s.threads[t].locks
    ensures var s' := Step(s, t, call); s'.value == s.value && s'.holder == s.holder && s'.held == s.held
  {
    ReachableInv(s);
    ExcludedStep(s, t, u, call);
  }

  // ---------------------------------------------------------------------------------------------
  // What a call does
  // ---------------------------------------------------------------------------------------------

  /** `n` accesses of thread `t` in a row; when it is outside it makes `call`. */
  function Alone(s: State, t: nat, call: Call, n: nat): State
    requires t < |s.threads|
    decreases n
  {
    if n == 0 then s else Alone(Step(s, t, call), t, call, n - 1)
  }

  /** The words, and thread `t` back outside with its calls counted. */
  function After(s: State, t: nat, value: int, held: int, holder: int, locks: nat, unlocks: nat): State
    requires t < |s.threads|
  {
    State(value, held, holder, s.threads[t := Thread(Outside, locks, unlocks)])
  }

  /** On a free lock, `mutex_lock` acquires it at depth one. */
  lemma LockFree(s: State, t: nat)
    requires Reachable(s) && t < |s.threads| && s.threads[t].pc == Outside && s.value == 0
    ensures Alone(s, t, Lock, 5) == After(s, t, 1, 1, t, s.threads[t].locks + 1, s.threads[t].unlocks)
  {
    hide Run, Inv, Reachable, Alone;
    FreeLock(s, t);
    var s1 := Step(s, t, Lock);
    assert s1 == Move(s, t, TestHolder);
    var s2 := Step(s1, t, Lock);
    assert s2 == Move(s, t, TryWord);
    var s3 := Step(s2, t, Lock);
    assert s3 == Move(s, t, SetHolder).(value := 1);
    var s4 := Step(s3, t, Lock);
    assert s4 == Move(s, t, SetHeld).(value := 1, holder := t);
    var s5 := Step(s4, t, Lock);
    assert s5 == After(s, t, 1, 1, t, s.threads[t].locks + 1, s.threads[t].unlocks);
    hide Step;
    FiveSteps(s, t, Lock, s1, s2, s3, s4, s5);
  }

  lemma TwoSteps(s: State, t: nat, call: Call)
    requires t < |s.threads|
    ensures |Step(s, t, call).threads| == |s.threads| && Alone(s, t, call, 2) == Step(Step(s, t, call), t, call)
  {
    hide Step;
    AloneNext(s, t, call, 0);
    AloneNext(s, t, call, 1);
  }

  lemma FiveSteps(s: State, t: nat, call: Call, s1: State, s2: State, s3: State, s4: State, s5: State)
    requires t < |s.threads| == |s1.threads| == |s2.threads| == |s3.threads| == |s4.threads|
    requires s1 == Step(s, t, call) && s2 == Step(s1, t, call) && s3 == Step(s2, t, call) && s4 == Step(s3, t, call) && s5 == Step(s4, t, call)
    ensures Alone(s, t, call, 2) == s2 && Alone(s, t, call, 4) == s4 && Alone(s, t, call, 5) == s5
  {
    hide Step;
    AloneNext(s, t, call, 0);
    AloneNext(s, t, call, 1);
    AloneNext(s, t, call, 2);
    AloneNext(s, t, call, 3);
    AloneNext(s, t, call, 4);
  }

  lemma {:induction false} AloneNext(s: State, t: nat, call: Call, n: nat)
    requires t < |s.threads|
    ensures |Alone(s, t, call, n).threads| == |s.threads| && Alone(s, t, call, n + 1) == Step(Alone(s, t, call, n), t, call)
    decreases n
  {
    Others(s, t, call);
    hide Step;
    if n > 0 { AloneNext(Step(s, t, call), t, call, n - 1); }
  }

  /** For its holder, `mutex_lock` counts one more, unless the count is as large as it gets: then nothing happens. */
  lemma LockAgain(s: State, t: nat)
    requires Reachable(s) && t < |s.threads| && s.threads[t].pc == Outside && Depth(s.threads[t]) > 0
    ensures Alone(s, t, Lock, 4) ==
      if s.held < INT_MAX then After(s, t, 1, s.held + 1, t, s.threads[t].locks + 1, s.threads[t].unlocks) else s
  {
    hide Run, Inv, Reachable, Alone;
    OwnerOutside(s, t);
    var s1 := Step(s, t, Lock);
    var s2 := Step(s1, t, Lock);
    var s3 := Step(s2, t, Lock);
    var s4 := Step(s3, t, Lock);
    var s5 := Step(s4, t, Lock);
    assert s4.threads == if s.held < INT_MAX then s.threads[t := Thread(Outside, s.threads[t].locks + 1, s.threads[t].unlocks)] else s.threads;
    FiveSteps(s, t, Lock, s1, s2, s3, s4, s5);
  }

  /** The unlock that matches the outermost lock frees depth, holder and word. */
  lemma UnlockLastOne(s: State, t: nat)
    requires Reachable(s) && t < |s.threads| && s.threads[t].pc == Outside && Depth(s.threads[t]) == 1
    ensures Alone(s, t, Unlock, 5) == After(s, t, 0, 0, NO_THREAD, s.threads[t].locks, s.threads[t].unlocks + 1)
  {
    hide Run, Inv, Reachable, Alone;
    OwnerOutside(s, t);
    var s1 := Step(s, t, Unlock);
    var s2 := Step(s1, t, Unlock);
    var s3 := Step(s2, t, Unlock);
    var s4 := Step(s3, t, Unlock);
    var s5 := Step(s4, t, Unlock);
    assert s5.threads == s.threads[t := Thread(Outside, s.threads[t].locks, s.threads[t].unlocks + 1)];
    FiveSteps(s, t, Unlock, s1, s2, s3, s4, s5);
  }

  /** Any other unlock by the holder takes one off the depth and leaves holder and word. */
  lemma UnlockInner(s: State, t: nat)
    requires Reachable(s) && t < |s.threads| && s.threads[t].pc == Outside && Depth(s.threads[t]) > 1
    ensures Alone(s, t, Unlock, 4) == After(s, t, 1, s.held - 1, t, s.threads[t].locks, s.threads[t].unlocks + 1)
  {
    hide Run, Inv, Reachable, Alone;
    OwnerOutside(s, t);
    var s1 := Step(s, t, Unlock);
    var s2 := Step(s1, t, Unlock);
    var s3 := Step(s2, t, Unlock);
    var s4 := Step(s3, t, Unlock);
    var s5 := Step(s4, t, Unlock);
    assert s4.threads == s.threads[t := Thread(Outside, s.threads[t].locks, s.threads[t].unlocks + 1)];
    FiveSteps(s, t, Unlock, s1, s2, s3, s4, s5);
  }

  /** Who is not the holder unlocks nothing. */
  lemma UnlockOther(s: State, t: nat)
    requires Reachable(s) && t < |s.threads| && s.threads[t].pc == Outside && Depth(s.threads[t]) == 0
    ensures Alone(s, t, Unlock, 2) == s
  {
    hide Run, Inv, Reachable, Alone;
    OwnerOutside(s, t);
    var s1 := Step(s, t, Unlock);
    assert s1.threads[t].pc == UnlockTest && s1.holder == s.holder != t;
    assert Step(s1, t, Unlock).threads == s.threads;
    hide Step;
    TwoSteps(s, t, Unlock);
  }

  /** While a thread holds the lock nothing the others do changes the words or the thread, so its calls go the same way among theirs. */
  lemma {:induction false} HolderUndisturbed(s: State, t: nat, schedule: seq<(nat, Call)>)
    requires Inv(s) && t < |s.threads| && Depth(s.threads[t]) > 0
    requires forall k | 0 <= k < |schedule| :: schedule[k].0 != t
    ensures var s' := Run(s, schedule);
      && |s'.threads| == |s.threads| && s'.threads[t] == s.threads[t]
      && s'.value == s.value && s'.holder == s.holder && s'.held == s.held
    decreases |schedule|
  {
    hide Inv, Step;
    if schedule != [] {
      var (u, call) := schedule[0];
      if u < |s.threads| {
        StepInv(s, u, call);
        Others(s, u, call);
        ExcludedStep(s, u, t, call);
        HolderUndisturbed(Step(s, u, call), t, schedule[1..]);
      } else {
        HolderUndisturbed(s, t, schedule[1..]);
      }
    }
  }

  lemma ExcludedStep(s: State, t: nat, u: nat, call: Call)
    requires Inv(s) && t < |s.threads| && u < |s.threads| && t != u && Depth(s.threads[u]) > 0
    ensures Step(s, t, call).threads[t].locks == s.threads[t].locks
    ensures var s' := Step(s, t, call); s'.value == s.value && s'.holder == s.holder && s'.held == s.held
  {
    assert ThreadOk(s, t) && ThreadOk(s, u);
    if Owns(s.threads[t]) { OneOwner(s, t, u); }
    if s.holder == t { HolderOwns(s, t); }
  }
}
