/** Deadlock prevention by lock ordering: the rules of threading.h, and the dining philosophers of philosophers.c
    as threads that obey them. */
module LockOrder {
  import opened Basics

  type Lock = nat

  /** The order of the locks, as the set of pairs of a lower and a higher lock. */
  type Order = set<(Lock, Lock)>

  ghost predicate IsStrict(below: Order) {
    && (forall l, m | (l, m) in below :: l != m)
    && (forall l, m, n | (l, m) in below && (m, n) in below :: (l, n) in below)
  }

  /** A thread: the locks that it holds, the last acquired first, and the lock that it waits for. */
  datatype Thread = Thread(held: seq<Lock>, wants: Option<Lock>)

  type State = seq<Thread>

  /** 'lock_below_top', the precondition of 'lock_acquire': only the lock acquired last is looked at. */
  predicate BelowTop(below: Order, l: Lock, held: seq<Lock>) {
    held == [] || (l, held[0]) in below
  }

  function Remove(held: seq<Lock>, l: Lock): seq<Lock> {
    if held == [] then [] else if held[0] == l then held[1..] else [held[0]] + Remove(held[1..], l)
  }

  predicate IsHeld(s: State, l: Lock) {
    exists u | 0 <= u < |s| :: l in s[u].held
  }

  datatype Action = Request(l: Lock) | Obtain | Release(l: Lock)

  /** What the rules allow a thread to do, and what happens: it calls lock_acquire, the call returns, or it
      releases any of the locks that it holds. */
  predicate Allowed(below: Order, s: State, t: nat, a: Action)
    requires t < |s|
  {
    match a
    case Request(l) => s[t].wants == None && BelowTop(below, l, s[t].held)
    case Obtain => s[t].wants.Some? && !IsHeld(s, s[t].wants.value)
    case Release(l) => s[t].wants == None && l in s[t].held
  }

  function After(s: State, t: nat, a: Action): State
    requires t < |s|
  {
    match a
    case Request(l) => s[t := s[t].(wants := Some(l))]
    case Obtain =>
      if s[t].wants.Some? then s[t := Thread([s[t].wants.value] + s[t].held, None)] else s
    case Release(l) => s[t := s[t].(held := Remove(s[t].held, l))]
  }

  /** Each lock that is held is below all that were acquired before it. */
  predicate Descending(below: Order, held: seq<Lock>) {
    forall i, j | 0 <= i < j < |held| :: (held[i], held[j]) in below
  }

  predicate BelowAll(below: Order, l: Lock, held: seq<Lock>) {
    forall m | m in held :: (l, m) in below
  }

  predicate Invariant(below: Order, s: State) {
    && (forall t | 0 <= t < |s| ::
          Descending(below, s[t].held) && (s[t].wants.Some? ==> BelowAll(below, s[t].wants.value, s[t].held)))
    && (forall t, u, l | 0 <= t < u < |s| && l in s[t].held :: l !in s[u].held)
  }

  /** Looking at the lock acquired last is enough, even though locks may be released in any order. */
  lemma TopIsEnough(below: Order, l: Lock, held: seq<Lock>)
    requires IsStrict(below) && Descending(below, held)
    ensures BelowTop(below, l, held) <==> BelowAll(below, l, held)
  {
    if BelowTop(below, l, held) {
      forall m | m in held ensures (l, m) in below {
        var i :| 0 <= i < |held| && held[i] == m;
        assert i > 0 ==> (held[0], m) in below;
      }
    }
  }

  lemma DescendingParts(below: Order, l: Lock, held: seq<Lock>)
    ensures Descending(below, [l] + held) <==> BelowAll(below, l, held) && Descending(below, held)
  {
    var all := [l] + held;
    if Descending(below, all) {
      forall m | m in held ensures (l, m) in below {
        var i :| 0 <= i < |held| && held[i] == m;
        assert all[0] == l && all[i + 1] == m;
      }
      forall i, j | 0 <= i < j < |held| ensures (held[i], held[j]) in below {
        assert all[i + 1] == held[i] && all[j + 1] == held[j];
      }
    }
    if BelowAll(below, l, held) && Descending(below, held) {
      forall i, j | 0 <= i < j < |all| ensures (all[i], all[j]) in below {
        assert all[j] == held[j - 1] && held[j - 1] in held;
        assert i > 0 ==> all[i] == held[i - 1];
      }
    }
  }

  lemma {:induction false} RemoveKeepsOrder(below: Order, held: seq<Lock>, l: Lock)
    requires Descending(below, held)
    ensures Descending(below, Remove(held, l)) && forall m | m in Remove(held, l) :: m in held
    decreases |held|
  {
    hide Descending;
    if held != [] {
      assert held == [held[0]] + held[1..];
      DescendingParts(below, held[0], held[1..]);
      RemoveKeepsOrder(below, held[1..], l);
      DescendingParts(below, held[0], Remove(held[1..], l));
    }
  }

  lemma StepKeepsInvariant(below: Order, s: State, t: nat, a: Action)
    requires IsStrict(below) && Invariant(below, s) && t < |s| && Allowed(below, s, t, a)
    ensures Invariant(below, After(s, t, a))
  {
    match a
    case Request(l) => TopIsEnough(below, l, s[t].held);
    case Obtain =>
    case Release(l) => RemoveKeepsOrder(below, s[t].held, l);
  }

  ghost predicate SomeStep(below: Order, s: State, s': State) {
    exists t: nat, a :: t < |s| && Allowed(below, s, t, a) && s' == After(s, t, a)
  }

  /** A run of n threads that obey the rules. */
  ghost predicate IsRun(below: Order, n: nat, run: seq<State>)
    decreases |run|
  {
    && IsStrict(below) && run != []
    && if |run| == 1 then run[0] == seq(n, _ => Thread([], None))
       else IsRun(below, n, run[..|run| - 1]) && SomeStep(below, run[|run| - 2], run[|run| - 1])
  }

  lemma {:induction false} RunKeepsInvariant(below: Order, n: nat, run: seq<State>)
    requires IsRun(below, n, run)
    ensures Invariant(below, run[|run| - 1])
    decreases |run|
  {
    hide Allowed, After;
    if |run| > 1 {
      var before := run[..|run| - 1];
      RunKeepsInvariant(below, n, before);
      assert before[|before| - 1] == run[|run| - 2];
      var s, s' := run[|run| - 2], run[|run| - 1];
      var t: nat, a :| t < |s| && Allowed(below, s, t, a) && s' == After(s, t, a);
      StepKeepsInvariant(below, s, t, a);
    }
  }

  /** Every thread of the group waits for a lock that is held by a thread of the group. */
  predicate IsDeadlock(s: State, group: set<nat>) {
    group != {} && forall t | t in group :: t < |s| && s[t].wants.Some? && IsHeldIn(s, group, s[t].wants.value)
  }

  predicate IsHeldIn(s: State, group: set<nat>, l: Lock) {
    exists u :: u in group && u < |s| && l in s[u].held
  }

  /** A nonempty finite set of locks has one that no other one of them is below. */
  lemma {:induction false} LowestLock(below: Order, locks: set<Lock>) returns (l: Lock)
    requires IsStrict(below) && locks != {}
    ensures l in locks && forall m | m in locks :: (m, l) !in below
    decreases |locks|
  {
    l :| l in locks;
    var lower := set m | m in locks && (m, l) in below;
    assert forall m | m in locks && (m, l) in below :: m in lower;
    if lower != {} {
      assert l !in lower && lower <= locks;
      SmallerSubset(lower, locks, l);
      var lowest := LowestLock(below, lower);
      assert forall m | m in locks && (m, lowest) in below :: (m, l) in below && m in lower;
      l := lowest;
    }
  }

  lemma SmallerSubset(a: set<Lock>, b: set<Lock>, x: Lock)
    requires a <= b && x in b && x !in a
    ensures |a| < |b|
  {
    assert b == a + (b - a) && x in b - a;
  }

  /** In no state of any run is there a deadlock. */
  lemma NoDeadlock(below: Order, n: nat, run: seq<State>, group: set<nat>)
    requires IsRun(below, n, run)
    ensures !IsDeadlock(run[|run| - 1], group)
  {
    RunKeepsInvariant(below, n, run);
    NotDeadlocked(below, run[|run| - 1], group);
  }

  lemma NotDeadlocked(below: Order, s: State, group: set<nat>)
    requires IsStrict(below) && Invariant(below, s)
    ensures !IsDeadlock(s, group)
  {
    hide IsHeldIn;
    if IsDeadlock(s, group) {
      var wanted := Wanted(s, group);
      WantedIsNotEmpty(s, group);
      var l := LowestLock(below, wanted);
      var m := LowerWanted(below, s, group, l);
    }
  }

  function Wanted(s: State, group: set<nat>): set<Lock> {
    set t | t in group && t < |s| && s[t].wants.Some? :: s[t].wants.value
  }

  lemma WantedIsNotEmpty(s: State, group: set<nat>)
    requires IsDeadlock(s, group)
    ensures Wanted(s, group) != {}
  {
    hide IsHeldIn;
    var t :| t in group;
    assert s[t].wants.value in Wanted(s, group);
  }

  /** In a deadlock, whoever holds a lock that is waited for waits for a lower one. */
  lemma LowerWanted(below: Order, s: State, group: set<nat>, l: Lock) returns (m: Lock)
    requires Invariant(below, s) && IsDeadlock(s, group) && l in Wanted(s, group)
    ensures m in Wanted(s, group) && (m, l) in below
  {
    hide IsHeldIn;
    var t :| t in group && t < |s| && s[t].wants == Some(l);
    var u := Holder(s, group, l);
    m := s[u].wants.value;
    assert BelowAll(below, m, s[u].held);
    assert m in Wanted(s, group);
  }

  lemma Holder(s: State, group: set<nat>, l: Lock) returns (u: nat)
    requires IsHeldIn(s, group, l)
    ensures u in group && u < |s| && l in s[u].held
  {
    u :| u in group && u < |s| && l in s[u].held;
  }

  /** Both sides of the discipline: in every state of every run what a thread holds is a descending chain, a lock
      is held by one thread at a time, and a lock that is waited for is below all locks of the thread. */
  lemma LocksetsAreOrdered(below: Order, n: nat, run: seq<State>, t: nat)
    requires IsRun(below, n, run) && t < |run[|run| - 1]|
    ensures var s := run[|run| - 1];
            && Descending(below, s[t].held)
            && (s[t].wants.Some? ==> BelowAll(below, s[t].wants.value, s[t].held) && s[t].wants.value !in s[t].held)
            && (forall u, l | 0 <= u < |s| && u != t && l in s[t].held :: l !in s[u].held)
  {
    RunKeepsInvariant(below, n, run);
  }
}
