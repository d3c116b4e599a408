/** The compare-and-swap spinlock of concurrent_cell2.c: histories of an atomic integer, and any number of threads
    that call acquire and release. */
module Spinlock {
  import opened Basics

  /** The operations on the integer, the last one outermost, each with the thread that made it. */
  datatype Trace =
    | Zero
    | Inc(tid: nat, before: Trace)
    | Dec(tid: nat, before: Trace)
    | Cas(tid: nat, expected: int, desired: int, before: Trace)

  /** 'execute_trace': the value after the operations. */
  function Execute(t: Trace): int {
    match t
    case Zero => 0
    case Inc(_, before) => Execute(before) + 1
    case Dec(_, before) => Execute(before) - 1
    case Cas(_, expected, desired, before) => if Execute(before) == expected then desired else Execute(before)
  }

  function LockOwner(t: Trace): Option<nat> {
    match t
    case Zero => None
    case Inc(_, _) => None
    case Dec(_, _) => None
    case Cas(tid, expected, _, before) => if Execute(before) == expected then Some(tid) else LockOwner(before)
  }

  /** Only attempts to go from 0 to 1, and decrements by the owner. */
  predicate IsLock(t: Trace) {
    match t
    case Zero => true
    case Inc(_, _) => false
    case Dec(tid, before) => LockOwner(before) == Some(tid) && IsLock(before)
    case Cas(_, expected, desired, before) => expected == 0 && desired == 1 && IsLock(before)
  }

  /** 'is_good_prefix': what other threads than 'tid' have added to a history. */
  predicate IsGoodPrefix(prefix: Trace, t: Trace, tid: nat) {
    || prefix == t
    || (t != Zero && t.tid != tid && IsGoodPrefix(prefix, t.before, tid))
  }

  /** The lock word is 0 or 1, and it is 1 exactly when the history has an owner. */
  lemma {:induction false} WordShowsOwner(t: Trace)
    requires IsLock(t)
    ensures Execute(t) == if LockOwner(t).Some? then 1 else 0
  {
    if t != Zero {
      WordShowsOwner(t.before);
    }
  }

  /** Whatever other threads do, the owner keeps the lock. */
  lemma {:induction false} OwnerKeepsLock(t: Trace, t': Trace, tid: nat)
    requires IsGoodPrefix(t, t', tid) && LockOwner(t) == Some(tid) && IsLock(t')
    ensures LockOwner(t') == Some(tid)
  {
    if t != t' {
      OwnerKeepsLock(t, t'.before, tid);
      WordShowsOwner(t'.before);
    }
  }

  /** A thread is outside, about to try to take the lock, or inside with the history that it saw then. */
  datatype Pc = Outside | Trying | Inside(seen: Trace)

  /** The shared integer, the history of the operations on it, and the threads. */
  datatype State = State(word: int, history: Trace, pc: seq<Pc>)

  /** The next step of a thread: it calls 'acquire', tries atomic_cas(c, 0, 1) once, or calls 'release'. */
  function Next(s: State, t: nat): State
    requires t < |s.pc|
  {
    match s.pc[t]
    case Outside => s.(pc := s.pc[t := Trying])
    case Trying =>
      var history := Cas(t, 0, 1, s.history);
      if s.word == 0 then State(1, history, s.pc[t := Inside(history)]) else s.(history := history)
    case Inside(_) => State(s.word - 1, Dec(t, s.history), s.pc[t := Outside])
  }

  predicate Invariant(s: State) {
    && IsLock(s.history) && s.word == Execute(s.history)
    && (LockOwner(s.history).Some? ==> LockOwner(s.history).value < |s.pc|)
    && (forall t | 0 <= t < |s.pc| :: s.pc[t].Inside? <==> LockOwner(s.history) == Some(t))
    && (forall t | 0 <= t < |s.pc| && s.pc[t].Inside? ::
          LockOwner(s.pc[t].seen) == Some(t) && IsGoodPrefix(s.pc[t].seen, s.history, t))
  }

  lemma StepKeepsInvariant(s: State, t: nat)
    requires Invariant(s) && t < |s.pc|
    ensures Invariant(Next(s, t))
  {
    WordShowsOwner(s.history);
  }

  ghost predicate SomeStep(s: State, s': State) {
    exists t: nat :: t < |s.pc| && s' == Next(s, t)
  }

  ghost predicate IsRun(n: nat, run: seq<State>)
    decreases |run|
  {
    && run != []
    && if |run| == 1 then run[0] == State(0, Zero, seq(n, _ => Outside))
       else IsRun(n, run[..|run| - 1]) && SomeStep(run[|run| - 2], run[|run| - 1])
  }

  lemma {:induction false} RunKeepsInvariant(n: nat, run: seq<State>)
    requires IsRun(n, run)
    ensures Invariant(run[|run| - 1]) && |run[|run| - 1].pc| == n
    decreases |run|
  {
    if |run| > 1 {
      var before, s := run[..|run| - 1], run[|run| - 2];
      RunKeepsInvariant(n, before);
      assert before[|before| - 1] == s;
      var t: nat :| t < |s.pc| && run[|run| - 1] == Next(s, t);
      StepKeepsInvariant(s, t);
    }
  }

  /** In every state of every run the word is 0 or 1, it is 1 exactly when some thread is between acquire and
      release, that thread is the owner in the history, and no two threads are. */
  lemma MutualExclusion(n: nat, run: seq<State>)
    requires IsRun(n, run)
    ensures var s := run[|run| - 1];
            && |s.pc| == n && 0 <= s.word <= 1 && s.word == Execute(s.history) && IsLock(s.history)
            && (s.word == 1 <==> exists t :: 0 <= t < n && s.pc[t].Inside?)
            && (forall t | 0 <= t < n :: s.pc[t].Inside? <==> LockOwner(s.history) == Some(t))
            && (forall t, u | 0 <= t < n && 0 <= u < n && s.pc[t].Inside? && s.pc[u].Inside? :: t == u)
  {
    RunKeepsInvariant(n, run);
    WordShowsOwner(run[|run| - 1].history);
  }

  lemma RunExtended(n: nat, run: seq<State>, t: nat)
    requires IsRun(n, run) && t < n
    ensures |run[|run| - 1].pc| == n && Invariant(run[|run| - 1])
    ensures IsRun(n, run + [Next(run[|run| - 1], t)])
  {
    RunKeepsInvariant(n, run);
    var s := run[|run| - 1];
    var more := run + [Next(s, t)];
    assert more[..|more| - 1] == run && more[|more| - 2] == s;
    assert SomeStep(s, more[|more| - 1]);
  }

  /** The holder, if there is one, releases the lock; the other threads stay where they are. */
  lemma CanRelease(n: nat, run: seq<State>) returns (more: seq<State>)
    requires IsRun(n, run)
    ensures IsRun(n, run + more) && run + more != []
    ensures var (s, s') := (run[|run| - 1], (run + more)[|run + more| - 1]);
            && |s.pc| == |s'.pc| == n && s'.word == 0
            && forall t | 0 <= t < n :: s'.pc[t] == if s.pc[t].Inside? then Outside else s.pc[t]
  {
    MutualExclusion(n, run);
    var s := run[|run| - 1];
    if t: nat :| t < n && s.pc[t].Inside? {
      RunExtended(n, run, t);
      return [Next(s, t)];
    }
    assert run + [] == run;
    return [];
  }

  /** A lock that is free can be taken by any thread that is not inside. */
  lemma CanTake(n: nat, run: seq<State>, t: nat) returns (more: seq<State>)
    requires IsRun(n, run) && t < n && run[|run| - 1].word == 0
    ensures IsRun(n, run + more) && run + more != []
    ensures var (s, s') := (run[|run| - 1], (run + more)[|run + more| - 1]);
            && |s.pc| == |s'.pc| == n && s'.word == 1 && s'.pc[t].Inside?
            && forall u | 0 <= u < n && u != t :: s'.pc[u] == s.pc[u]
  {
    MutualExclusion(n, run);
    var s := run[|run| - 1];
    RunExtended(n, run, t);
    var s1 := Next(s, t);
    if s.pc[t] == Trying {
      return [s1];
    }
    RunExtended(n, run + [s1], t);
    assert run + [s1] + [Next(s1, t)] == run + [s1, Next(s1, t)];
    return [s1, Next(s1, t)];
  }

  predicate AllOutside(s: State, n: nat) {
    |s.pc| >= n && forall t | 0 <= t < n :: s.pc[t] == Outside
  }

  lemma Associative(run: seq<State>, a: seq<State>, b: seq<State>)
    ensures run + a + b == run + (a + b)
  {
  }

  /** Every run can go on so that a given thread gets the lock. */
  lemma CanAcquire(n: nat, run: seq<State>, t: nat) returns (more: seq<State>)
    requires IsRun(n, run) && t < n
    ensures IsRun(n, run + more) && run + more != []
    ensures var s := (run + more)[|run + more| - 1]; |s.pc| == n && s.pc[t].Inside? && s.word == 1
  {
    hide IsRun;
    var released := CanRelease(n, run);
    var taken := CanTake(n, run + released, t);
    Associative(run, released, taken);
    return released + taken;
  }

  /** Every run can go on so that all calls of 'acquire' have returned and the lock has been released after each. */
  lemma AllCanFinish(n: nat, run: seq<State>) returns (more: seq<State>)
    requires IsRun(n, run)
    ensures IsRun(n, run + more) && run + more != []
    ensures var s := (run + more)[|run + more| - 1]; |s.pc| == n && s.word == 0 && AllOutside(s, n)
  {
    hide IsRun;
    var released := CanRelease(n, run);
    var rest := OthersCanFinish(n, run + released, 0);
    Associative(run, released, rest);
    return released + rest;
  }

  lemma {:induction false} OthersCanFinish(n: nat, run: seq<State>, i: nat) returns (more: seq<State>)
    requires IsRun(n, run) && run != [] && i <= n == |run[|run| - 1].pc| && run[|run| - 1].word == 0
    requires AllOutside(run[|run| - 1], i)
    ensures IsRun(n, run + more) && run + more != []
    ensures var s := (run + more)[|run + more| - 1]; |s.pc| == n && s.word == 0 && AllOutside(s, n)
    decreases n - i
  {
    hide IsRun;
    if i == n {
      assert run + [] == run;
      return [];
    }
    var both := TakesAndReleases(n, run, i);
    var rest := OthersCanFinish(n, run + both, i + 1);
    Associative(run, both, rest);
    return both + rest;
  }

  /** A thread takes the lock and releases it again. */
  lemma TakesAndReleases(n: nat, run: seq<State>, t: nat) returns (more: seq<State>)
    requires IsRun(n, run) && t < n == |run[|run| - 1].pc| && run[|run| - 1].word == 0
    requires AllOutside(run[|run| - 1], t)
    ensures IsRun(n, run + more) && run + more != []
    ensures var s := (run + more)[|run + more| - 1]; |s.pc| == n && s.word == 0 && AllOutside(s, t + 1)
  {
    hide IsRun;
    var taken := CanTake(n, run, t);
    var released := CanRelease(n, run + taken);
    Associative(run, taken, released);
    return taken + released;
  }
}
