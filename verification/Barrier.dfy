/** The reusable barrier of barrier.c for any number of threads, as a machine whose steps are the statements of
    function 'barrier' and the operations on its mutex. */
module Barrier {
  import opened Basics

  /** Where a thread is: outside, or before one of the statements of 'barrier'. */
  datatype Pc =
    | Out
    | WantIn       // mutex_acquire, to test whether the previous round is over
    | TestIn       // while (barrier->outgoing)
    | SpinIn       // mutex_release, in the body of that loop
    | Enter        // barrier->k++
    | TestLast     // if (barrier->k == barrier->n)
    | OpenDoor     // barrier->outgoing = true
    | LastLeave    // barrier->k--
    | LastRelease  // mutex_release
    | TestOut      // while (!barrier->outgoing)
    | SpinOut      // mutex_release, in the body of that loop
    | WantOut      // mutex_acquire, in the body of that loop
    | Leave        // barrier->k--
    | TestEmpty    // if (barrier->k == 0)
    | CloseDoor    // barrier->outgoing = false
    | ReleaseOut   // mutex_release

  /** The fields k and outgoing, the thread that holds the mutex, and for every thread where it is and how
      often it has incremented and decremented k. */
  datatype State = State(owner: Option<nat>, k: int, outgoing: bool, pc: seq<Pc>, entered: seq<nat>, done: seq<nat>)

  /** 'create_barrier', before any thread has called 'barrier'. */
  function Created(n: nat): State {
    State(None, 0, false, seq(n, _ => Out), seq(n, _ => 0), seq(n, _ => 0))
  }

  predicate Shaped(s: State) {
    |s.pc| == |s.entered| == |s.done| >= 2
  }

  function At(s: State, t: nat, p: Pc): State
    requires t < |s.pc|
  {
    s.(pc := s.pc[t := p])
  }

  /** The next step of a thread; none if the thread waits for the mutex and another one holds it. */
  function Next(s: State, t: nat): Option<State>
    requires Shaped(s) && t < |s.pc|
  {
    match s.pc[t]
    case Out => Some(At(s, t, WantIn))
    case WantIn => if s.owner.Some? then None else Some(At(s.(owner := Some(t)), t, TestIn))
    case TestIn => Some(At(s, t, if s.outgoing then SpinIn else Enter))
    case SpinIn => Some(At(s.(owner := None), t, WantIn))
    case Enter => Some(At(s.(k := s.k + 1, entered := s.entered[t := s.entered[t] + 1]), t, TestLast))
    case TestLast => Some(At(s, t, if s.k == |s.pc| then OpenDoor else TestOut))
    case OpenDoor => Some(At(s.(outgoing := true), t, LastLeave))
    case LastLeave => Some(At(s.(k := s.k - 1, done := s.done[t := s.done[t] + 1]), t, LastRelease))
    case LastRelease => Some(At(s.(owner := None), t, Out))
    case TestOut => Some(At(s, t, if s.outgoing then Leave else SpinOut))
    case SpinOut => Some(At(s.(owner := None), t, WantOut))
    case WantOut => if s.owner.Some? then None else Some(At(s.(owner := Some(t)), t, TestOut))
    case Leave => Some(At(s.(k := s.k - 1, done := s.done[t := s.done[t] + 1]), t, TestEmpty))
    case TestEmpty => Some(At(s, t, if s.k == 0 then CloseDoor else ReleaseOut))
    case CloseDoor => Some(At(s.(outgoing := false), t, ReleaseOut))
    case ReleaseOut => Some(At(s.(owner := None), t, Out))
  }

  predicate HasLock(p: Pc) {
    p != Out && p != WantIn && p != WantOut
  }

  /** Between its increment and its decrement of k. */
  predicate Inside(p: Pc) {
    p in {TestLast, OpenDoor, LastLeave, TestOut, SpinOut, WantOut, Leave}
  }

  function Count(pc: seq<Pc>): nat {
    if pc == [] then 0 else (if Inside(pc[0]) then 1 else 0) + Count(pc[1..])
  }

  lemma {:induction false} CountMoved(pc: seq<Pc>, t: nat, p: Pc)
    requires t < |pc|
    ensures Count(pc[t := p]) == Count(pc) - (if Inside(pc[t]) then 1 else 0) + (if Inside(p) then 1 else 0)
    decreases |pc|
  {
    if t > 0 {
      CountMoved(pc[1..], t - 1, p);
      assert pc[t := p][1..] == pc[1..][t - 1 := p];
    } else {
      assert pc[t := p][1..] == pc[1..];
    }
  }

  lemma {:induction false} CountBounds(pc: seq<Pc>)
    ensures Count(pc) <= |pc|
    ensures Count(pc) == 0 <==> forall t | 0 <= t < |pc| :: !Inside(pc[t])
    ensures Count(pc) == |pc| <==> forall t | 0 <= t < |pc| :: Inside(pc[t])
    decreases |pc|
  {
    if pc != [] {
      CountBounds(pc[1..]);
      assert forall t | 0 < t < |pc| :: pc[t] == pc[1..][t - 1];
      assert forall t | 0 <= t < |pc| - 1 :: pc[1..][t] == pc[t + 1];
    }
  }

  /** What the holder of the mutex knows before each of its statements. */
  predicate Knows(s: State, p: Pc) {
    match p
    case SpinIn => s.outgoing
    case Enter => !s.outgoing
    case TestLast => !s.outgoing
    case OpenDoor => !s.outgoing && s.k == |s.pc|
    case LastLeave => s.outgoing && s.k == |s.pc|
    case LastRelease => s.outgoing && s.k == |s.pc| - 1
    case SpinOut => !s.outgoing
    case Leave => s.outgoing
    case TestEmpty => s.outgoing
    case CloseDoor => s.outgoing && s.k == 0
    case _ => true
  }

  /** Whether the holder of the mutex, if any, is at one of the given statements. */
  predicate HolderAt(s: State, ps: set<Pc>) {
    s.owner.Some? && s.owner.value < |s.pc| && s.pc[s.owner.value] in ps
  }

  /** In round r every thread has completed r rounds, except that while the door is open those that are no longer
      inside have completed r + 1. */
  predicate Invariant(s: State, r: nat) {
    && Shaped(s)
    && (forall t | 0 <= t < |s.pc| :: HasLock(s.pc[t]) <==> s.owner == Some(t))
    && (s.owner.Some? ==> s.owner.value < |s.pc| && Knows(s, s.pc[s.owner.value]))
    && s.k == Count(s.pc)
    && (forall t | 0 <= t < |s.pc| ::
          && s.done[t] == r + (if s.outgoing && !Inside(s.pc[t]) then 1 else 0)
          && s.entered[t] == s.done[t] + (if Inside(s.pc[t]) then 1 else 0))
    && (!s.outgoing && s.k == |s.pc| ==> HolderAt(s, {TestLast, OpenDoor}))
    && (s.outgoing && s.k == |s.pc| ==> HolderAt(s, {LastLeave}))
    && (s.outgoing && s.k == 0 ==> HolderAt(s, {TestEmpty, CloseDoor}))
  }

  lemma CreatedIsInvariant(n: nat)
    requires n >= 2
    ensures Invariant(Created(n), 0)
  {
    CountBounds(Created(n).pc);
  }

  /** The round that is under way after a step. */
  function RoundAfter(s: State, t: nat, r: nat): nat
    requires t < |s.pc|
  {
    if s.pc[t] == CloseDoor then r + 1 else r
  }

  lemma StepKeepsInvariant(s: State, r: nat, t: nat)
    requires Invariant(s, r) && t < |s.pc| && Next(s, t).Some?
    ensures Invariant(Next(s, t).value, RoundAfter(s, t, r))
  {
    hide Invariant;
    match s.pc[t] {
      case WantIn => LockStep(s, r, t);
      case SpinIn => LockStep(s, r, t);
      case LastRelease => LockStep(s, r, t);
      case SpinOut => LockStep(s, r, t);
      case WantOut => LockStep(s, r, t);
      case ReleaseOut => LockStep(s, r, t);
      case Enter => EnterStep(s, r, t);
      case LastLeave => LeaveStep(s, r, t);
      case Leave => LeaveStep(s, r, t);
      case OpenDoor => DoorStep(s, r, t);
      case CloseDoor => DoorStep(s, r, t);
      case _ => TestStep(s, r, t);
    }
  }

  lemma LockStep(s: State, r: nat, t: nat)
    requires Invariant(s, r) && t < |s.pc| && Next(s, t).Some?
    requires s.pc[t] in {WantIn, SpinIn, LastRelease, SpinOut, WantOut, ReleaseOut}
    ensures Invariant(Next(s, t).value, r)
  {
    hide Count;
    var s' := Next(s, t).value;
    CountMoved(s.pc, t, s'.pc[t]);
  }

  lemma TestStep(s: State, r: nat, t: nat)
    requires Invariant(s, r) && t < |s.pc| && s.pc[t] in {Out, TestIn, TestLast, TestOut, TestEmpty}
    ensures Invariant(Next(s, t).value, r)
  {
    hide Invariant;
    HolderTests(s, r, t);
    PcMoves(s, r, t, Next(s, t).value.pc[t]);
  }

  /** What the holder of the mutex finds out by a test. */
  lemma HolderTests(s: State, r: nat, t: nat)
    requires Invariant(s, r) && t < |s.pc| && s.pc[t] in {Out, TestIn, TestLast, TestOut, TestEmpty}
    ensures Shaped(s)
    ensures var p := Next(s, t).value.pc[t];
            && Next(s, t).value == At(s, t, p) && Inside(p) == Inside(s.pc[t]) && HasLock(p) == HasLock(s.pc[t])
            && (HasLock(p) ==> Knows(At(s, t, p), p))
            && (s.pc[t] == TestLast && s.k == |s.pc| ==> p == OpenDoor)
            && (s.pc[t] == TestEmpty && s.k == 0 ==> p == CloseDoor)
            && (s.pc[t] !in {OpenDoor, CloseDoor, LastLeave})
  {
    hide Count;
  }

  /** A thread goes on without changing a variable. */
  lemma PcMoves(s: State, r: nat, t: nat, p: Pc)
    requires Invariant(s, r) && t < |s.pc| && Inside(p) == Inside(s.pc[t]) && HasLock(p) == HasLock(s.pc[t])
    requires HasLock(p) ==> Knows(At(s, t, p), p)
    requires s.pc[t] == TestLast && s.k == |s.pc| ==> p == OpenDoor
    requires s.pc[t] == TestEmpty && s.k == 0 ==> p == CloseDoor
    requires s.pc[t] !in {OpenDoor, CloseDoor, LastLeave}
    ensures Invariant(At(s, t, p), r)
  {
    hide Count, Inside, HasLock;
    CountMoved(s.pc, t, p);
  }

  lemma EnterStep(s: State, r: nat, t: nat)
    requires Invariant(s, r) && t < |s.pc| && s.pc[t] == Enter
    ensures Invariant(Next(s, t).value, r)
  {
    CountMoved(s.pc, t, TestLast);
    CountBounds(s.pc[t := TestLast]);
  }

  lemma LeaveStep(s: State, r: nat, t: nat)
    requires Invariant(s, r) && t < |s.pc| && s.pc[t] in {LastLeave, Leave}
    ensures Invariant(Next(s, t).value, r)
  {
    CountMoved(s.pc, t, Next(s, t).value.pc[t]);
    CountBounds(s.pc);
  }

  lemma DoorStep(s: State, r: nat, t: nat)
    requires Invariant(s, r) && t < |s.pc| && s.pc[t] in {OpenDoor, CloseDoor}
    ensures Invariant(Next(s, t).value, RoundAfter(s, t, r))
  {
    CountMoved(s.pc, t, Next(s, t).value.pc[t]);
    CountBounds(s.pc);
  }

  predicate StepOf(s: State, t: nat, s': State) {
    Shaped(s) && t < |s.pc| && Next(s, t) == Some(s')
  }

  ghost predicate SomeStep(s: State, s': State) {
    exists t: nat :: StepOf(s, t, s')
  }

  /** A run of n threads under any scheduler: each state comes from the one before by a step of some thread. */
  ghost predicate IsRun(n: nat, run: seq<State>)
    decreases |run|
  {
    && n >= 2 && run != []
    && if |run| == 1 then run[0] == Created(n)
       else IsRun(n, run[..|run| - 1]) && SomeStep(run[|run| - 2], run[|run| - 1])
  }

  lemma StepOfKeepsInvariant(s: State, r: nat, t: nat, s': State)
    requires Invariant(s, r) && StepOf(s, t, s')
    ensures t < |s.pc| && Invariant(s', RoundAfter(s, t, r)) && |s'.pc| == |s.pc|
  {
    hide Invariant;
    StepKeepsInvariant(s, r, t);
  }

  lemma {:induction false} RunKeepsInvariant(n: nat, run: seq<State>) returns (r: nat)
    requires IsRun(n, run)
    ensures Invariant(run[|run| - 1], r) && |run[|run| - 1].pc| == n
    decreases |run|
  {
    hide Invariant, StepOf, Next;
    if |run| == 1 {
      CreatedIsInvariant(n);
      return 0;
    }
    var before := run[..|run| - 1];
    r := RunKeepsInvariant(n, before);
    var s, s' := run[|run| - 2], run[|run| - 1];
    assert before[|before| - 1] == s;
    var t: nat :| StepOf(s, t, s');
    StepOfKeepsInvariant(s, r, t, s');
    r := RoundAfter(s, t, r);
  }

  /** Safety of the barrier, in every state of every run: k is the number of threads inside and stays between 0
      and n; one thread at a time is between acquiring and releasing the mutex; no thread has completed a
      round that some thread has not entered; and the numbers of completed rounds differ by at most one. */
  lemma BarrierIsSafe(n: nat, run: seq<State>)
    requires IsRun(n, run)
    ensures var s := run[|run| - 1];
            && Shaped(s) && |s.pc| == n && s.k == |set t | 0 <= t < n && Inside(s.pc[t])| && 0 <= s.k <= n
            && (forall t, u | 0 <= t < n && 0 <= u < n && HasLock(s.pc[t]) && HasLock(s.pc[u]) :: t == u)
            && (forall t, u | 0 <= t < n && 0 <= u < n :: s.done[t] <= s.entered[u])
            && (forall t, u | 0 <= t < n && 0 <= u < n :: s.done[t] <= s.done[u] + 1)
  {
    var r := RunKeepsInvariant(n, run);
    var s := run[|run| - 1];
    CountIsSize(s.pc, n);
    CountBounds(s.pc);
    assert s.pc[..n] == s.pc;
  }

  lemma {:induction false} CountIsSize(pc: seq<Pc>, m: nat)
    requires m <= |pc|
    ensures Count(pc[..m]) == |set t | 0 <= t < m && Inside(pc[t])|
    decreases m
  {
    var inside := set t | 0 <= t < m && Inside(pc[t]);
    if m > 0 {
      CountIsSize(pc, m - 1);
      var rest := set t | 0 <= t < m - 1 && Inside(pc[t]);
      assert inside == if Inside(pc[m - 1]) then rest + {m - 1} else rest;
      CountAppended(pc[..m - 1], pc[m - 1]);
      assert pc[..m] == pc[..m - 1] + [pc[m - 1]];
    }
  }

  lemma {:induction false} CountAppended(pc: seq<Pc>, p: Pc)
    ensures Count(pc + [p]) == Count(pc) + (if Inside(p) then 1 else 0)
    decreases |pc|
  {
    if pc != [] {
      CountAppended(pc[1..], p);
      assert (pc + [p])[1..] == pc[1..] + [p];
    }
  }

  /** The thread waits: if it goes on, it will find the condition of its loop still true. */
  predicate Spins(s: State, t: nat)
    requires t < |s.pc|
  {
    match s.pc[t]
    case SpinIn => true
    case SpinOut => true
    case WantIn => s.outgoing
    case TestIn => s.outgoing
    case WantOut => !s.outgoing
    case TestOut => !s.outgoing
    case _ => false
  }

  /** How many steps the holder of the mutex is from releasing it. */
  function Distance(p: Pc): nat {
    match p
    case TestIn => 8
    case Enter => 7
    case TestLast => 6
    case TestOut => 5
    case Leave => 4
    case TestEmpty => 3
    case OpenDoor => 3
    case CloseDoor => 2
    case LastLeave => 2
    case Out => 0
    case WantIn => 0
    case WantOut => 0
    case _ => 1
  }

  /** Progress, in every state of every run: if all threads are in a call, one of them does not wait in vain, and a
      thread that holds the mutex can always go on and comes closer to releasing it with each of its steps. */
  lemma BarrierMakesProgress(n: nat, run: seq<State>)
    requires IsRun(n, run)
    ensures var s := run[|run| - 1];
            && Shaped(s) && |s.pc| == n
            && ((forall t | 0 <= t < n :: s.pc[t] != Out) ==>
                  exists t: nat :: t < n && !Spins(s, t))
            && (s.owner.Some? ==>
                  var h := s.owner.value;
                  h < n && Next(s, h).Some? && Distance(Next(s, h).value.pc[h]) < Distance(s.pc[h])
                  && (Distance(Next(s, h).value.pc[h]) == 0 <==> Next(s, h).value.owner == None))
  {
    hide Spins, Count;
    var r := RunKeepsInvariant(n, run);
    var s := run[|run| - 1];
    if forall t | 0 <= t < n :: s.pc[t] != Out {
      var t := SomeThreadCanPass(s, r);
      assert !Spins(s, t);
    }
    if s.owner.Some? {
      HolderGoesOn(s, r);
    }
  }

  lemma HolderGoesOn(s: State, r: nat)
    requires Invariant(s, r) && s.owner.Some?
    ensures var h := s.owner.value;
            && h < |s.pc| && Next(s, h).Some? && Distance(Next(s, h).value.pc[h]) < Distance(s.pc[h])
            && (Distance(Next(s, h).value.pc[h]) == 0 <==> Next(s, h).value.owner == None)
  {
  }

  lemma SomeThreadCanPass(s: State, r: nat) returns (t: nat)
    requires Invariant(s, r) && forall t | 0 <= t < |s.pc| :: s.pc[t] != Out
    ensures t < |s.pc| && !Spins(s, t)
  {
    hide Count;
    CountBounds(s.pc);
    if (s.outgoing && s.k == 0) || (!s.outgoing && s.k == |s.pc|) {
      t := s.owner.value;
    } else if s.outgoing {
      t :| t < |s.pc| && Inside(s.pc[t]);
    } else {
      t :| t < |s.pc| && !Inside(s.pc[t]);
    }
  }

  predicate AllOut(s: State) {
    forall t | 0 <= t < |s.pc| :: s.pc[t] == Out
  }

  /** How far a thread is from the place where the round needs it: inside while the door is closed, outside while it
      is open. */
  function Rank(p: Pc, outgoing: bool): nat {
    match p
    case ReleaseOut => if outgoing then 1 else 13
    case Out => if outgoing then 0 else 12
    case WantIn => if outgoing then 0 else 11
    case TestIn => if outgoing then 2 else 10
    case Enter => 9
    case TestLast => 8
    case OpenDoor => 7
    case TestOut => if outgoing then 5 else 7
    case SpinOut => 6
    case WantOut => if outgoing then 6 else 5
    case Leave => 4
    case TestEmpty => 3
    case CloseDoor => 2
    case LastLeave => 3
    case LastRelease => 2
    case SpinIn => 1
  }

  function Total(pc: seq<Pc>, outgoing: bool): nat {
    if pc == [] then 0 else Rank(pc[0], outgoing) + Total(pc[1..], outgoing)
  }

  lemma TotalMoved(pc: seq<Pc>, outgoing: bool, t: nat, p: Pc)
    requires t < |pc|
    ensures Total(pc[t := p], outgoing) == Total(pc, outgoing) - Rank(pc[t], outgoing) + Rank(p, outgoing)
    decreases |pc|
  {
    if t > 0 {
      TotalMoved(pc[1..], outgoing, t - 1, p);
      assert pc[t := p][1..] == pc[1..][t - 1 := p];
    } else {
      assert pc[t := p][1..] == pc[1..];
    }
  }

  /** A thread has called again, or for the first time, and has not come in yet. */
  predicate SomeoneWantsIn(s: State) {
    exists t :: 0 <= t < |s.pc| && s.pc[t] in {WantIn, TestIn, SpinIn}
  }

  predicate NobodyCalls(s: State) {
    forall t | 0 <= t < |s.pc| :: s.pc[t] in {Out, ReleaseOut}
  }

  /** What is to be done until all threads are out: the round that is being left, the one that is being entered, and
      the leaving of that one. */
  function Stage(s: State): nat {
    if s.outgoing then (if SomeoneWantsIn(s) then 3 else 1) else if NobodyCalls(s) then 0 else 2
  }

  /** A thread that brings all threads closer to being out by its next step, which is possible. */
  lemma WhoGoes(s: State, r: nat) returns (t: nat)
    requires Invariant(s, r) && !AllOut(s)
    ensures t < |s.pc| && Next(s, t).Some? && (s.owner.Some? ==> s.owner == Some(t))
    ensures s.owner == None ==> if s.outgoing then s.pc[t] == WantOut else s.pc[t] in {Out, WantIn} && Stage(s) == 2
  {
    hide Count;
    CountBounds(s.pc);
    if s.owner.Some? {
      t := s.owner.value;
    } else if s.outgoing {
      t :| t < |s.pc| && Inside(s.pc[t]);
    } else {
      t :| t < |s.pc| && !Inside(s.pc[t]);
    }
  }

  lemma RankFalls(s: State, r: nat, t: nat)
    requires Invariant(s, r) && t < |s.pc| && Next(s, t).Some? && (s.owner.Some? ==> s.owner == Some(t))
    requires s.owner == None ==> if s.outgoing then s.pc[t] == WantOut else s.pc[t] in {Out, WantIn}
    ensures Shaped(s)
    ensures var s' := Next(s, t).value;
            && |s'.pc| == |s.pc| && s'.pc == s.pc[t := s'.pc[t]]
            && (s'.outgoing == s.outgoing ==> Rank(s'.pc[t], s.outgoing) < Rank(s.pc[t], s.outgoing))
  {
    hide Count, Inside;
  }

  lemma StageFalls(s: State, r: nat, t: nat)
    requires Invariant(s, r) && t < |s.pc| && Next(s, t).Some? && (s.owner.Some? ==> s.owner == Some(t))
    requires s.owner == None ==> if s.outgoing then s.pc[t] == WantOut else Stage(s) == 2
    ensures var s' := Next(s, t).value;
            if s'.outgoing == s.outgoing then Stage(s') <= Stage(s) else Stage(s') < Stage(s)
  {
    hide Count;
    CountBounds(s.pc);
  }

  lemma ComesCloser(s: State, r: nat, t: nat)
    requires Invariant(s, r) && t < |s.pc| && Next(s, t).Some? && (s.owner.Some? ==> s.owner == Some(t))
    requires s.owner == None ==> if s.outgoing then s.pc[t] == WantOut else s.pc[t] in {Out, WantIn} && Stage(s) == 2
    ensures var s' := Next(s, t).value;
            Stage(s') < Stage(s) || (Stage(s') == Stage(s) && Total(s'.pc, s'.outgoing) < Total(s.pc, s.outgoing))
  {
    hide Invariant, Stage, Rank;
    RankFalls(s, r, t);
    StageFalls(s, r, t);
    TotalMoved(s.pc, s.outgoing, t, Next(s, t).value.pc[t]);
  }

  lemma RunExtended(n: nat, run: seq<State>, t: nat, s': State)
    requires IsRun(n, run) && StepOf(run[|run| - 1], t, s')
    ensures IsRun(n, run + [s'])
  {
    var more := run + [s'];
    assert more[..|more| - 1] == run && more[|more| - 2] == run[|run| - 1];
    assert SomeStep(more[|more| - 2], s');
  }

  /** Outside, or on the way out after the decrement of k. */
  predicate HasDecremented(p: Pc) {
    p in {Out, LastRelease, TestEmpty, CloseDoor, ReleaseOut}
  }

  /** How many rounds a thread has completed when it is out again. */
  function DoneWhenOut(s: State, t: nat): nat
    requires t < |s.pc| == |s.done|
  {
    s.done[t] + if HasDecremented(s.pc[t]) then 0 else 1
  }

  lemma StepCounts(s: State, t: nat, u: nat)
    requires Shaped(s) && t < |s.pc| && u < |s.pc| && Next(s, t).Some?
    ensures var s' := Next(s, t).value; |s'.pc| == |s'.done| == |s.pc| && DoneWhenOut(s', u) >= DoneWhenOut(s, u)
  {
  }

  /** Every run can go on so that all threads return from their calls, with the same number of calls completed; each
      has completed the call in which it was. */
  lemma {:induction false} AllCanReturn(n: nat, run: seq<State>) returns (more: seq<State>)
    requires IsRun(n, run)
    ensures IsRun(n, run + more) && run + more != []
    ensures var s, s' := run[|run| - 1], (run + more)[|run + more| - 1];
            && |s.pc| == |s.done| == |s'.pc| == |s'.done| == n && AllOut(s')
            && (forall t, u | 0 <= t < n && 0 <= u < n :: s'.done[t] == s'.done[u])
            && (forall t | 0 <= t < n :: s'.done[t] >= DoneWhenOut(s, t))
    decreases Stage(run[|run| - 1]), Total(run[|run| - 1].pc, run[|run| - 1].outgoing)
  {
    hide Stage, Total, Next;
    var r := RunKeepsInvariant(n, run);
    var s := run[|run| - 1];
    if AllOut(s) {
      assert run + [] == run;
      return [];
    }
    var t := WhoGoes(s, r);
    ComesCloser(s, r, t);
    var s' := Next(s, t).value;
    RunExtended(n, run, t, s');
    var rest := AllCanReturn(n, run + [s']);
    assert run + [s'] + rest == run + ([s'] + rest);
    forall u: nat | u < n ensures DoneWhenOut(s', u) >= DoneWhenOut(s, u) {
      StepCounts(s, t, u);
    }
    return [s'] + rest;
  }

  /** Every run can go on so that all threads have made one more round, and are outside again. */
  lemma OneMoreRound(n: nat, run: seq<State>) returns (more: seq<State>)
    requires IsRun(n, run)
    ensures IsRun(n, run + more) && run + more != []
    ensures var s, s' := run[|run| - 1], (run + more)[|run + more| - 1];
            && |s.done| == |s'.pc| == |s'.done| == n && AllOut(s')
            && (forall t | 0 <= t < n :: s'.done[t] > s.done[t])
            && (forall t, u | 0 <= t < n && 0 <= u < n :: s'.done[t] == s'.done[u])
  {
    hide Stage, Total, Next, DoneWhenOut;
    var a := AllCanReturn(n, run);
    var s1 := (run + a)[|run + a| - 1];
    FirstCalls(n, run + a);
    var s2 := Next(s1, 0).value;
    var b := AllCanReturn(n, run + a + [s2]);
    assert run + a + [s2] + b == run + (a + [s2] + b);
    DoneGrows(run[|run| - 1]);
    more := a + [s2] + b;
  }

  lemma DoneGrows(s: State)
    requires |s.pc| == |s.done|
    ensures forall t | 0 <= t < |s.pc| :: DoneWhenOut(s, t) >= s.done[t]
  {
  }

  lemma FirstCalls(n: nat, run: seq<State>)
    requires IsRun(n, run) && AllOut(run[|run| - 1])
    ensures var s := run[|run| - 1];
            && Shaped(s) && |s.pc| == n && Next(s, 0).Some? && IsRun(n, run + [Next(s, 0).value])
            && |Next(s, 0).value.pc| == |Next(s, 0).value.done| == n
            && DoneWhenOut(Next(s, 0).value, 0) == s.done[0] + 1
  {
    var r := RunKeepsInvariant(n, run);
    RunExtended(n, run, 0, Next(run[|run| - 1], 0).value);
  }
}
