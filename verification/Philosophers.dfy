/** The dining philosophers of philosophers.c, as many as there are, whose forks are ordered. */
module Philosophers {
  import opened Basics
  import opened LockOrder

  /** The statement of its loop that a philosopher has come to. */
  datatype Pc = Begin | WaitForSecond | HasSecond | WaitForFirst | Eating | HasFirst

  /** A philosopher and its forks. */
  datatype Philosopher = Philosopher(fork1: Lock, fork2: Lock, pc: Pc)

  /** What the philosopher holds and waits for. */
  function ThreadOf(p: Philosopher): Thread {
    match p.pc
    case Begin => Thread([], None)
    case WaitForSecond => Thread([], Some(p.fork2))
    case HasSecond => Thread([p.fork2], None)
    case WaitForFirst => Thread([p.fork2], Some(p.fork1))
    case Eating => Thread([p.fork1, p.fork2], None)
    case HasFirst => Thread([p.fork1], None)
  }

  function Threads(ps: seq<Philosopher>): State {
    seq(|ps|, i requires 0 <= i < |ps| => ThreadOf(ps[i]))
  }

  /** A call of lock_acquire takes two steps, the call and the return. */
  function NextPc(pc: Pc): Pc {
    match pc
    case Begin => WaitForSecond
    case WaitForSecond => HasSecond
    case HasSecond => WaitForFirst
    case WaitForFirst => Eating
    case Eating => HasFirst
    case HasFirst => Begin
  }

  function ActionOf(p: Philosopher): Action {
    match p.pc
    case Begin => Request(p.fork2)
    case WaitForSecond => Obtain
    case HasSecond => Request(p.fork1)
    case WaitForFirst => Obtain
    case Eating => Release(p.fork2)
    case HasFirst => Release(p.fork1)
  }

  /** A philosopher can go on unless it waits for a fork that is held. */
  predicate CanStep(ps: seq<Philosopher>, t: nat)
    requires t < |ps|
  {
    ThreadOf(ps[t]).wants.Some? ==> !IsHeld(Threads(ps), ThreadOf(ps[t]).wants.value)
  }

  function Step(ps: seq<Philosopher>, t: nat): seq<Philosopher>
    requires t < |ps|
  {
    ps[t := ps[t].(pc := NextPc(ps[t].pc))]
  }

  ghost predicate AtTable(below: Order, ps: seq<Philosopher>) {
    IsStrict(below) && ps != [] && forall i | 0 <= i < |ps| :: (ps[i].fork1, ps[i].fork2) in below
  }

  /** The philosophers obey the rules: fork1 may be requested while fork2 is held, and fork2 may be released
      although it is not the fork that was acquired last. */
  lemma PhilosophersObey(below: Order, ps: seq<Philosopher>, t: nat)
    requires AtTable(below, ps) && t < |ps| && CanStep(ps, t)
    ensures Allowed(below, Threads(ps), t, ActionOf(ps[t]))
    ensures Threads(Step(ps, t)) == After(Threads(ps), t, ActionOf(ps[t]))
  {
    assert (ps[t].fork1, ps[t].fork2) in below;
    assert [ps[t].fork1, ps[t].fork2][1..] == [ps[t].fork2] && [ps[t].fork2][1..] == [] && [ps[t].fork1][1..] == [];
    assert Threads(Step(ps, t)) == Threads(ps)[t := ThreadOf(Step(ps, t)[t])];
    assert [ps[t].fork2] + [] == [ps[t].fork2] && [ps[t].fork1] + [ps[t].fork2] == [ps[t].fork1, ps[t].fork2];
    assert ps[t].fork1 != ps[t].fork2 && [ps[t].fork1] + [] == [ps[t].fork1];
    assert Remove([ps[t].fork1, ps[t].fork2], ps[t].fork2) == [ps[t].fork1];
  }

  ghost predicate SomeStep(ps: seq<Philosopher>, ps': seq<Philosopher>) {
    exists t: nat :: t < |ps| && CanStep(ps, t) && ps' == Step(ps, t)
  }

  ghost predicate IsDinner(below: Order, run: seq<seq<Philosopher>>)
    decreases |run|
  {
    && run != []
    && if |run| == 1 then AtTable(below, run[0]) && forall i | 0 <= i < |run[0]| :: run[0][i].pc == Begin
       else IsDinner(below, run[..|run| - 1]) && SomeStep(run[|run| - 2], run[|run| - 1])
  }

  lemma {:induction false} DinnerIsOrdered(below: Order, run: seq<seq<Philosopher>>)
    requires IsDinner(below, run)
    ensures var ps := run[|run| - 1]; AtTable(below, ps) && Invariant(below, Threads(ps))
    decreases |run|
  {
    hide Allowed, After, CanStep;
    if |run| > 1 {
      var before, ps := run[..|run| - 1], run[|run| - 2];
      DinnerIsOrdered(below, before);
      assert before[|before| - 1] == ps;
      var t: nat :| t < |ps| && CanStep(ps, t) && run[|run| - 1] == Step(ps, t);
      PhilosophersObey(below, ps, t);
      StepKeepsInvariant(below, Threads(ps), t, ActionOf(ps[t]));
    }
  }

  ghost predicate SomeCanStep(ps: seq<Philosopher>) {
    exists t: nat :: t < |ps| && CanStep(ps, t)
  }

  ghost predicate NoGroupIsStuck(s: State) {
    forall group :: !IsDeadlock(s, group)
  }

  function Everyone(n: nat): (everyone: set<nat>)
    ensures forall t :: t in everyone <==> 0 <= t < n
  {
    if n == 0 then {} else Everyone(n - 1) + {n - 1}
  }

  lemma HeldBySomeone(s: State, everyone: set<nat>, l: Lock)
    requires IsHeld(s, l) && forall u | 0 <= u < |s| :: u in everyone
    ensures IsHeldIn(s, everyone, l)
  {
    var u :| 0 <= u < |s| && l in s[u].held;
    assert u in everyone;
  }

  /** In every state of every run some philosopher can go on, and no group of them waits in a circle. */
  lemma SomeoneCanGoOn(below: Order, run: seq<seq<Philosopher>>)
    requires IsDinner(below, run)
    ensures SomeCanStep(run[|run| - 1]) && NoGroupIsStuck(Threads(run[|run| - 1]))
  {
    DinnerIsOrdered(below, run);
    var ps := run[|run| - 1];
    forall group ensures !IsDeadlock(Threads(ps), group) {
      NotDeadlocked(below, Threads(ps), group);
    }
    if !SomeCanStep(ps) {
      var everyone := Everyone(|ps|);
      assert 0 in everyone;
      forall t | t in everyone
        ensures t < |ps| && Threads(ps)[t].wants.Some? && IsHeldIn(Threads(ps), everyone, Threads(ps)[t].wants.value)
      {
        assert !CanStep(ps, t);
        HeldBySomeone(Threads(ps), everyone, Threads(ps)[t].wants.value);
      }
      assert IsDeadlock(Threads(ps), everyone);
    }
  }

  /** Two philosophers never eat with the same fork. */
  lemma ForksAreNotShared(below: Order, run: seq<seq<Philosopher>>, t: nat, u: nat)
    requires IsDinner(below, run) && t < u < |run[|run| - 1]|
    requires run[|run| - 1][t].pc == Eating == run[|run| - 1][u].pc
    ensures var p, q := run[|run| - 1][t], run[|run| - 1][u]; {p.fork1, p.fork2} !! {q.fork1, q.fork2}
  {
    DinnerIsOrdered(below, run);
    var s, p, q := Threads(run[|run| - 1]), run[|run| - 1][t], run[|run| - 1][u];
    assert s[t].held == [p.fork1, p.fork2] && s[u].held == [q.fork1, q.fork2];
    assert p.fork1 in s[t].held && p.fork2 in s[t].held && q.fork1 in s[u].held && q.fork2 in s[u].held;
  }

  lemma DinnerExtended(below: Order, run: seq<seq<Philosopher>>, t: nat)
    requires IsDinner(below, run) && t < |run[|run| - 1]| && CanStep(run[|run| - 1], t)
    ensures IsDinner(below, run + [Step(run[|run| - 1], t)])
  {
    var more := run + [Step(run[|run| - 1], t)];
    assert more[..|more| - 1] == run && more[|more| - 2] == run[|run| - 1];
    assert SomeStep(more[|more| - 2], more[|more| - 1]);
  }

  /** How many steps a philosopher is from the beginning of its loop. */
  function ToGo(pc: Pc): nat {
    match pc
    case Begin => 0
    case WaitForSecond => 5
    case HasSecond => 4
    case WaitForFirst => 3
    case Eating => 2
    case HasFirst => 1
  }

  function AllToGo(ps: seq<Philosopher>): nat {
    if ps == [] then 0 else ToGo(ps[0].pc) + AllToGo(ps[1..])
  }

  lemma {:induction false} OneLessToGo(ps: seq<Philosopher>, t: nat)
    requires t < |ps| && ps[t].pc != Begin
    ensures AllToGo(Step(ps, t)) < AllToGo(ps)
    decreases |ps|
  {
    if t > 0 {
      OneLessToGo(ps[1..], t - 1);
      assert Step(ps, t)[1..] == Step(ps[1..], t - 1);
    } else {
      assert Step(ps, t)[1..] == ps[1..];
    }
  }

  predicate AllAtBegin(ps: seq<Philosopher>) {
    forall i | 0 <= i < |ps| :: ps[i].pc == Begin
  }

  function Busy(ps: seq<Philosopher>): (busy: set<nat>)
    ensures forall u :: u in busy <==> 0 <= u < |ps| && ps[u].pc != Begin
  {
    set u | u in Everyone(|ps|) && ps[u].pc != Begin
  }

  /** Who holds a fork is busy. */
  lemma HolderIsBusy(ps: seq<Philosopher>, l: Lock)
    requires IsHeld(Threads(ps), l)
    ensures IsHeldIn(Threads(ps), Busy(ps), l)
  {
    var w: nat :| w < |ps| && l in Threads(ps)[w].held;
    assert w in Busy(ps);
  }

  lemma AllBusyOnesWait(ps: seq<Philosopher>)
    requires !AllAtBegin(ps) && forall u: nat | u < |ps| && ps[u].pc != Begin :: !CanStep(ps, u)
    ensures IsDeadlock(Threads(ps), Busy(ps))
  {
    hide IsHeld, IsHeldIn;
    var s, busy := Threads(ps), Busy(ps);
    forall v | v in busy ensures v < |s| && s[v].wants.Some? && IsHeldIn(s, busy, s[v].wants.value) {
      assert !CanStep(ps, v);
      HolderIsBusy(ps, s[v].wants.value);
    }
    var u :| 0 <= u < |ps| && ps[u].pc != Begin;
    assert u in busy;
  }

  /** As long as some philosopher is not at the beginning of its loop, one of those can go on. */
  lemma SomeBusyOneCanGoOn(below: Order, ps: seq<Philosopher>) returns (t: nat)
    requires AtTable(below, ps) && Invariant(below, Threads(ps)) && !AllAtBegin(ps)
    ensures t < |ps| && ps[t].pc != Begin && CanStep(ps, t)
  {
    hide CanStep, IsDeadlock, AllAtBegin, Invariant;
    if forall u: nat | u < |ps| && ps[u].pc != Begin :: !CanStep(ps, u) {
      AllBusyOnesWait(ps);
      NotDeadlocked(below, Threads(ps), Busy(ps));
    }
    t :| t < |ps| && ps[t].pc != Begin && CanStep(ps, t);
  }

  lemma Associative(run: seq<seq<Philosopher>>, a: seq<seq<Philosopher>>, b: seq<seq<Philosopher>>)
    ensures run + a + b == run + (a + b)
  {
  }

  /** Every dinner can go on until all philosophers are at the beginning of their loops; nobody changes forks. */
  lemma {:induction false} AllCanFinish(below: Order, run: seq<seq<Philosopher>>) returns (more: seq<seq<Philosopher>>)
    requires IsDinner(below, run)
    ensures IsDinner(below, run + more) && run + more != []
    ensures AllAtBegin((run + more)[|run + more| - 1]) && |(run + more)[|run + more| - 1]| == |run[|run| - 1]|
    decreases AllToGo(run[|run| - 1])
  {
    hide AllToGo, ToGo, CanStep;
    DinnerIsOrdered(below, run);
    var ps := run[|run| - 1];
    if AllAtBegin(ps) {
      assert run + [] == run;
      return [];
    }
    var t := SomeBusyOneCanGoOn(below, ps);
    OneLessToGo(ps, t);
    DinnerExtended(below, run, t);
    var rest := AllCanFinish(below, run + [Step(ps, t)]);
    Associative(run, [Step(ps, t)], rest);
    return [Step(ps, t)] + rest;
  }

  /** When nobody holds a fork, a philosopher takes four steps to eat. */
  lemma FourSteps(below: Order, run: seq<seq<Philosopher>>, t: nat) returns (more: seq<seq<Philosopher>>)
    requires IsDinner(below, run) && t < |run[|run| - 1]| && AllAtBegin(run[|run| - 1])
    ensures IsDinner(below, run + more) && run + more != []
    ensures var ps := (run + more)[|run + more| - 1];
            && |ps| == |run[|run| - 1]| && ps[t] == run[|run| - 1][t].(pc := Eating)
            && forall u | 0 <= u < |ps| && u != t :: ps[u].pc == Begin
  {
    hide IsDinner;
    var ps0 := LastOf(below, run);
    var ps1 := Step(ps0, t);
    DinnerExtended(below, run, t);
    var ps2 := Step(ps1, t);
    DinnerExtended(below, run + [ps1], t);
    var ps3 := Step(ps2, t);
    DinnerExtended(below, run + [ps1] + [ps2], t);
    var ps4 := Step(ps3, t);
    DinnerExtended(below, run + [ps1] + [ps2] + [ps3], t);
    more := [ps1, ps2, ps3, ps4];
    assert run + [ps1] + [ps2] + [ps3] + [ps4] == run + more;
  }

  lemma LastOf(below: Order, run: seq<seq<Philosopher>>) returns (ps: seq<Philosopher>)
    requires IsDinner(below, run)
    ensures run != [] && ps == run[|run| - 1] && AtTable(below, ps)
  {
    DinnerIsOrdered(below, run);
    ps := run[|run| - 1];
  }

  /** Nobody has to starve: every dinner can go on so that a given philosopher eats. */
  lemma EachCanEat(below: Order, run: seq<seq<Philosopher>>, t: nat) returns (more: seq<seq<Philosopher>>)
    requires IsDinner(below, run) && t < |run[|run| - 1]|
    ensures IsDinner(below, run + more) && run + more != []
    ensures var ps := (run + more)[|run + more| - 1]; t < |ps| && ps[t].pc == Eating
  {
    hide IsDinner;
    var finished := AllCanFinish(below, run);
    var eaten := FourSteps(below, run + finished, t);
    Associative(run, finished, eaten);
    return finished + eaten;
  }

  /** What a philosopher does in its next n steps. */
  function Actions(p: Philosopher, n: nat): (actions: seq<Action>)
    ensures |actions| == n
    decreases n
  {
    if n == 0 then [] else [ActionOf(p)] + Actions(p.(pc := NextPc(p.pc)), n - 1)
  }

  /** A turn of the loop: the forks are acquired and released in the order of the program, and so on. */
  lemma TurnOfLoop(p: Philosopher, n: nat)
    requires p.pc == Begin
    ensures Actions(p, 6 + n)
         == [Request(p.fork2), Obtain, Request(p.fork1), Obtain, Release(p.fork2), Release(p.fork1)] + Actions(p, n)
  {
    hide Actions;
    NextAction(p.(pc := HasFirst), n);
    NextAction(p.(pc := Eating), 1 + n);
    NextAction(p.(pc := WaitForFirst), 2 + n);
    NextAction(p.(pc := HasSecond), 3 + n);
    NextAction(p.(pc := WaitForSecond), 4 + n);
    NextAction(p, 5 + n);
  }

  lemma NextAction(p: Philosopher, n: nat)
    ensures Actions(p, 1 + n) == [ActionOf(p)] + Actions(p.(pc := NextPc(p.pc)), n)
  {
  }

  /** 'main': three forks, the later ones above the earlier ones, and three philosophers. */
  lemma MainIsDinner(a: Lock, b: Lock, c: Lock)
    requires a != b && b != c && a != c
    ensures var ps := [Philosopher(a, b, Begin), Philosopher(b, c, Begin), Philosopher(a, c, Begin)];
            IsDinner({(a, b), (a, c), (b, c)}, [ps])
  {
  }
}
