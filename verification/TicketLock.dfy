/**
 The ticket lock of libthread, whose two counters are 32-bit words that wrap.  The proof is about the threads in
 the order they took their tickets; `arrived` and `acquired` record that order and are never read by the lock.
 */
module TicketLock {
  import opened Wire
  import opened Seqs

  datatype Thread = Idle | Waiting(ticket: u32) | Holding

  datatype State = State(nextTicket: u32, nowServing: u32, threads: seq<Thread>, arrived: seq<nat>, acquired: seq<nat>, released: nat)

  function Init(n: nat): State { State(0, 0, seq(n, i => Idle), [], [], 0) }

  /**
   One atomic access of thread `t`: take a ticket (`fetch_add`), compare it with the word being served, or, for
   the holder, serve the next ticket.
   */
  function Step(s: State, t: nat): State
    requires t < |s.threads|
  {
    match s.threads[t]
    case Idle =>
      s.(threads := s.threads[t := Waiting(s.nextTicket)], nextTicket := Wrap32(s.nextTicket + 1), arrived := s.arrived + [t])
    case Waiting(ticket) =>
      if ticket == s.nowServing then s.(threads := s.threads[t := Holding], acquired := s.acquired + [t]) else s
    case Holding =>
      s.(threads := s.threads[t := Idle], nowServing := Wrap32(s.nowServing + 1), released := s.released + 1)
  }

  function Run(s: State, schedule: seq<nat>): State
    decreases |schedule|
  {
    if schedule == [] then s
    else Run(if schedule[0] < |s.threads| then Step(s, schedule[0]) else s, schedule[1..])
  }

  // ---------------------------------------------------------------------------------------------
  // Invariant
  // ---------------------------------------------------------------------------------------------

  predicate Counters(s: State) {
    && s.nextTicket == |s.arrived| % TWO32
    && s.nowServing == s.released % TWO32
    && s.released <= |s.acquired| <= s.released + 1
    && |s.acquired| <= |s.arrived|
    && s.acquired == s.arrived[..|s.acquired|]
  }

  /** Outstanding tickets are consecutive residues; the first belongs to the holder, if there is one. */
  ghost predicate Tickets(s: State)
    requires Counters(s)
  {
    && (forall k | s.released <= k < |s.arrived| ::
          && s.arrived[k] < |s.threads|
          && s.threads[s.arrived[k]] == if k < |s.acquired| then Holding else Waiting(k % TWO32))
    && (forall k, l | s.released <= k < l < |s.arrived| :: s.arrived[k] != s.arrived[l])
    && (forall t | 0 <= t < |s.threads| && !s.threads[t].Idle? :: exists k :: s.released <= k < |s.arrived| && s.arrived[k] == t)
  }

  ghost predicate Inv(s: State) { Counters(s) && Tickets(s) }

  lemma {:induction false} Pigeonhole(s: seq<nat>, n: nat)
    requires forall k | 0 <= k < |s| :: s[k] < n
    requires forall k, l | 0 <= k < l < |s| :: s[k] != s[l]
    ensures |s| <= n
    decreases n
  {
    assert |s| > 0 ==> s[0] < n;
    if n > 0 {
      if k :| 0 <= k < |s| && s[k] == n - 1 {
        var rest := s[..k] + s[k + 1..];
        assert forall j | 0 <= j < |rest| :: rest[j] == s[if j < k then j else j + 1];
        Pigeonhole(rest, n - 1);
      } else {
        Pigeonhole(s, n - 1);
      }
    }
  }

  /** No more tickets are outstanding than there are threads. */
  lemma FewOutstanding(s: State)
    requires Inv(s)
    ensures |s.arrived| - s.released <= |s.threads|
  {
    Pigeonhole(s.arrived[s.released..], |s.threads|);
  }

  lemma WrapStep(k: nat)
    ensures Wrap32(k % TWO32 + 1) == (k + 1) % TWO32
  {
  }

  /** Within 2^32 of each other, equal residues mean equal numbers. */
  lemma SameResidue(a: nat, b: nat)
    requires a <= b < a + TWO32 && a % TWO32 == b % TWO32
    ensures a == b
  {
  }

  lemma TakeInv(s: State, t: nat)
    requires Inv(s) && t < |s.threads| && s.threads[t].Idle?
    ensures Inv(Step(s, t))
  {
    TakeCounters(s, t);
    TakeTickets(s, t);
  }

  lemma TakeCounters(s: State, t: nat)
    requires Counters(s) && t < |s.threads| && s.threads[t].Idle?
    ensures Counters(Step(s, t))
  {
    WrapStep(|s.arrived|);
    assert (s.arrived + [t])[..|s.acquired|] == s.arrived[..|s.acquired|];
  }

  lemma NotOutstanding(s: State, t: nat, k: nat)
    requires Inv(s) && t < |s.threads| && s.threads[t].Idle? && s.released <= k < |s.arrived|
    ensures s.arrived[k] != t
  {
  }

  lemma TakeEntry(s: State, t: nat, k: nat)
    requires Inv(s) && t < |s.threads| && s.threads[t].Idle? && s.released <= k < |s.arrived| + 1
    ensures var s' := Step(s, t);
      && k < |s'.arrived| && s'.arrived[k] < |s'.threads| && s'.arrived[k] == (if k < |s.arrived| then s.arrived[k] else t)
      && s'.threads[s'.arrived[k]] == if k < |s'.acquired| then Holding else Waiting(k % TWO32)
  {
    if k < |s.arrived| { NotOutstanding(s, t, k); }
    hide Wrap32;
  }

  lemma TakeFrame(s: State, t: nat)
    requires t < |s.threads| && s.threads[t].Idle?
    ensures var s' := Step(s, t);
      && s'.released == s.released && s'.acquired == s.acquired && |s'.arrived| == |s.arrived| + 1 && s'.arrived[|s.arrived|] == t
      && |s'.threads| == |s.threads| && (forall k | 0 <= k < |s.arrived| :: s'.arrived[k] == s.arrived[k])
      && (forall u | 0 <= u < |s.threads| && u != t :: s'.threads[u] == s.threads[u])
  {
    hide Wrap32;
  }

  lemma TakeCovered(s: State, t: nat, u: nat)
    requires Inv(s) && t < |s.threads| && s.threads[t].Idle? && u < |s.threads| && (u == t || !s.threads[u].Idle?)
    ensures exists k :: s.released <= k < |Step(s, t).arrived| && Step(s, t).arrived[k] == u
  {
    TakeFrame(s, t);
    hide Step, Wrap32;
    if u == t {
      assert Step(s, t).arrived[|s.arrived|] == u;
    } else {
      var k :| s.released <= k < |s.arrived| && s.arrived[k] == u;
      assert Step(s, t).arrived[k] == u;
    }
  }

  lemma TakeTickets(s: State, t: nat)
    requires Inv(s) && t < |s.threads| && s.threads[t].Idle? && Counters(Step(s, t))
    ensures Tickets(Step(s, t))
  {
    var s' := Step(s, t);
    TakeFrame(s, t);
    hide Step, Counters, Wrap32;
    forall k | s'.released <= k < |s'.arrived|
      ensures s'.arrived[k] < |s'.threads| && s'.threads[s'.arrived[k]] == if k < |s'.acquired| then Holding else Waiting(k % TWO32)
    {
      TakeEntry(s, t, k);
    }
    forall k, l | s'.released <= k < l < |s'.arrived| ensures s'.arrived[k] != s'.arrived[l] {
      if l == |s.arrived| { NotOutstanding(s, t, k); }
    }
    forall u | 0 <= u < |s'.threads| && !s'.threads[u].Idle?
      ensures exists k :: s'.released <= k < |s'.arrived| && s'.arrived[k] == u
    {
      TakeCovered(s, t, u);
    }
  }

  /** Only the thread that has waited longest finds its ticket served. */
  lemma Served(s: State, t: nat) returns (k: nat)
    requires Inv(s) && |s.threads| <= TWO32 && t < |s.threads| && s.threads[t].Waiting?
    ensures s.released <= k < |s.arrived| && s.arrived[k] == t && k >= |s.acquired|
    ensures s.threads[t].ticket == s.nowServing <==> k == s.released
  {
    k :| s.released <= k < |s.arrived| && s.arrived[k] == t;
    FewOutstanding(s);
    if s.threads[t].ticket == s.nowServing { SameResidue(s.released, k); }
  }

  lemma EnterInv(s: State, t: nat)
    requires Inv(s) && |s.threads| <= TWO32 && t < |s.threads| && s.threads[t].Waiting?
    ensures Inv(Step(s, t))
  {
    var k := Served(s, t);
    if s.threads[t].ticket == s.nowServing {
      var s' := Step(s, t);
      assert s.arrived[..k + 1] == s.arrived[..k] + [t];
      assert Counters(s');
    }
  }

  lemma LeaveInv(s: State, t: nat)
    requires Inv(s) && t < |s.threads| && s.threads[t].Holding?
    ensures Inv(Step(s, t)) && s.released < |s.acquired| && s.acquired[s.released] == t
  {
    var s' := Step(s, t);
    var k :| s.released <= k < |s.arrived| && s.arrived[k] == t;
    assert k == s.released;
    WrapStep(s.released);
    forall u | 0 <= u < |s'.threads| && !s'.threads[u].Idle?
      ensures exists l :: s'.released <= l < |s'.arrived| && s'.arrived[l] == u
    {
      assert !s.threads[u].Idle?;
      var l :| s.released <= l < |s.arrived| && s.arrived[l] == u;
      assert l != k;
    }
  }

  lemma {:induction false} RunInv(s: State, schedule: seq<nat>)
    requires Inv(s) && |s.threads| <= TWO32
    ensures Inv(Run(s, schedule)) && |Run(s, schedule).threads| == |s.threads|
    decreases |schedule|
  {
    hide Inv;
    if schedule != [] {
      var t := schedule[0];
      if t < |s.threads| {
        match s.threads[t] {
          case Idle => TakeInv(s, t);
          case Waiting(_) => EnterInv(s, t);
          case Holding => LeaveInv(s, t);
        }
        RunInv(Step(s, t), schedule[1..]);
      } else {
        RunInv(s, schedule[1..]);
      }
    }
  }

  // ---------------------------------------------------------------------------------------------
  // What the lock promises
  // ---------------------------------------------------------------------------------------------

  ghost predicate Exclusive(s: State) {
    forall t, u | 0 <= t < u < |s.threads| :: !(s.threads[t].Holding? && s.threads[u].Holding?)
  }

  /** Up to 2^32 threads, for any schedule: one holder at a time, and the lock is acquired in ticket order. */
  lemma TicketOrder(n: nat, schedule: seq<nat>)
    requires n <= TWO32
    ensures var s := Run(Init(n), schedule);
      && |s.threads| == n
      && Exclusive(s)
      && s.acquired <= s.arrived
      && (forall t | 0 <= t < n && s.threads[t].Waiting? && s.threads[t].ticket == s.nowServing ::
            |s.acquired| < |s.arrived| && s.arrived[|s.acquired|] == t)
  {
    var s := Run(Init(n), schedule);
    RunInv(Init(n), schedule);
    hide Run;
    assert Exclusive(s) by {
      forall t | 0 <= t < |s.threads| && s.threads[t].Holding? ensures s.acquired != [] && s.acquired[|s.acquired| - 1] == t {
        LeaveInv(s, t);
      }
    }
    forall t | 0 <= t < n && s.threads[t].Waiting? && s.threads[t].ticket == s.nowServing
      ensures |s.acquired| < |s.arrived| && s.arrived[|s.acquired|] == t
    {
      var k := Served(s, t);
    }
  }

  lemma ReachedInv(n: nat, schedule: seq<nat>)
    requires n <= TWO32
    ensures var s := Run(Init(n), schedule); Inv(s) && |s.threads| == n
  {
    RunInv(Init(n), schedule);
  }

  /** A thread that comes waits behind all that have come before. */
  lemma Arrives(n: nat, schedule: seq<nat>, t: nat)
    requires n <= TWO32 && t < n
    ensures var s := Run(Init(n), schedule);
      && |s.threads| == n
      && (s.threads[t].Idle? ==>
            var s' := Step(s, t);
            s'.arrived == s.arrived + [t] && s'.threads == s.threads[t := Waiting(|s.arrived| % TWO32)] && s'.acquired == s.acquired)
  {
    ReachedInv(n, schedule);
    hide Run;
  }

  /** A holder that leaves is idle, and the ticket served then is that of the thread that has waited longest, which gets in. */
  lemma Handover(n: nat, schedule: seq<nat>, t: nat)
    requires n <= TWO32 && t < n
    ensures var s := Run(Init(n), schedule);
      && |s.threads| == n
      && (s.threads[t].Holding? ==>
            var s' := Step(s, t);
            && s'.threads == s.threads[t := Idle] && s'.arrived == s.arrived && s'.acquired == s.acquired
            && (|s.acquired| < |s.arrived| ==>
                  var u := s.arrived[|s.acquired|];
                  u < n && s'.threads[u] == Waiting(s'.nowServing) && Step(s', u).threads[u] == Holding))
  {
    ReachedInv(n, schedule);
    var s := Run(Init(n), schedule);
    hide Run;
    if s.threads[t].Holding? {
      LeaveInv(s, t);
      if |s.acquired| < |s.arrived| { NextServed(Step(s, t)); }
    }
  }

  /** With nobody inside, the ticket served is that of the thread that has waited longest. */
  lemma NextServed(s: State)
    requires Inv(s) && |s.acquired| == s.released < |s.arrived|
    ensures var u := s.arrived[s.released]; u < |s.threads| && s.threads[u] == Waiting(s.nowServing)
  {
  }

  /** Whatever has happened, every thread that waits can still get the lock. */
  lemma {:induction false} GetsServed(s: State, t: nat, k: nat) returns (schedule: seq<nat>)
    requires Inv(s) && |s.threads| <= TWO32 && t < |s.threads| && s.threads[t].Waiting?
    requires s.released <= k < |s.arrived| && s.arrived[k] == t
    ensures |Run(s, schedule).threads| == |s.threads| && Run(s, schedule).threads[t] == Holding
    decreases k - s.released, 1 - (|s.acquired| - s.released)
  {
    var u := s.arrived[s.released];
    assert u < |s.threads|;
    var s' := Step(s, u);
    var rest: seq<nat> := [];
    if |s.acquired| == s.released {
      NextServed(s);
      EnterInv(s, u);
      if u != t { rest := GetsServed(s', t, k); }
    } else {
      LeaveInv(s, u);
      rest := GetsServed(s', t, k);
    }
    schedule := [u] + rest;
    assert schedule[1..] == rest;
  }

  /** The same from the start: after any schedule, a thread that waits gets in if the others go on. */
  lemma WaiterGetsIn(n: nat, schedule: seq<nat>, t: nat) returns (more: seq<nat>)
    requires n <= TWO32 && t < n
    ensures |Run(Init(n), schedule).threads| == |Run(Init(n), schedule + more).threads| == n
    ensures Run(Init(n), schedule).threads[t].Waiting? ==> Run(Init(n), schedule + more).threads[t] == Holding
  {
    ReachedInv(n, schedule);
    var s := Run(Init(n), schedule);
    more := [];
    if s.threads[t].Waiting? {
      var k := Served(s, t);
      more := GetsServed(s, t, k);
    }
    RunAppend(Init(n), schedule, more);
    ReachedInv(n, schedule + more);
  }

  /** Threads 0, 1, ..., k - 1 take tickets in turn. */
  function Arrivals(k: nat): seq<nat> { seq(k, i => i) }

  lemma {:induction false} RunAppend(s: State, a: seq<nat>, b: seq<nat>)
    ensures Run(s, a + b) == Run(Run(s, a), b)
    decreases |a|
  {
    hide Step;
    if a == [] {
      Empty(b);
    } else {
      SliceAppend(a, b, 1);
      RunAppend(if a[0] < |s.threads| then Step(s, a[0]) else s, a[1..], b);
    }
  }

  lemma {:induction false} AllArrive(n: nat, k: nat)
    requires k <= n
    ensures var s := Run(Init(n), Arrivals(k));
      && s.nextTicket == k % TWO32 && s.nowServing == 0
      && s.threads == seq(n, i requires 0 <= i < n => if i < k then Waiting(i % TWO32) else Idle)
    decreases k
  {
    if k > 0 {
      AllArrive(n, k - 1);
      assert Arrivals(k) == Arrivals(k - 1) + [k - 1];
      RunAppend(Init(n), Arrivals(k - 1), [k - 1]);
      var s := Run(Init(n), Arrivals(k - 1));
      assert Run(s, [k - 1]) == Run(Step(s, k - 1), [k - 1][1..]);
      WrapStep(k - 1);
    }
  }

  /** The bound is exact: with one thread more, the counter wraps onto a ticket still outstanding. */
  lemma TooManyThreads(n: nat) returns (schedule: seq<nat>)
    requires n > TWO32
    ensures !Exclusive(Run(Init(n), schedule))
  {
    var k := TWO32 + 1;
    schedule := Arrivals(k) + [0, TWO32];
    AllArrive(n, k);
    RunAppend(Init(n), Arrivals(k), [0, TWO32]);
    var s := Run(Init(n), Arrivals(k));
    hide *;
    TwoEnter(s, n);
  }

  lemma TwoEnter(s: State, n: nat)
    requires n > TWO32 && |s.threads| == n && s.nowServing == 0
    requires s.threads[0] == Waiting(0) && s.threads[TWO32] == Waiting(0)
    ensures !Exclusive(Run(s, [0, TWO32]))
  {
    var s1 := Step(s, 0);
    var s2 := Step(s1, TWO32);
    assert Run(s, [0, TWO32]) == Run(s1, [TWO32]) == s2 by {
      assert [0, TWO32][1..] == [TWO32] && [TWO32][1..] == [];
    }
    assert s2.threads[0].Holding? && s2.threads[TWO32].Holding?;
  }
}
