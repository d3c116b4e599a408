/** The two threads of barrier.c that compute a recurrence together. Their steps, including those inside the
    barrier, are interleaved in any way; the outcome is always the same. */
module BarrierClient {
  import opened Basics
  import B = Barrier

  /** Where a thread is: before a call of 'barrier', inside it, or before an access to the shared data. */
  datatype Line =
    | FirstCall
    | LoopTest
    | ReadX1 | ReadX2 | WriteY
    | MiddleCall
    | ReadY1 | ReadY2 | WriteX
    | CountUp     // thread 1: N = N + 1; d->i = N
    | LastCall
    | ReadI       // thread 2: m = d->i
    | FinalCall
    | Reset       // thread 1: d->i = 0
    | Finished

  const ROUNDS: nat := 30

  /** The local variables of a thread; 'count' is N or m. */
  datatype Local = Local(line: Line, a1: int, a2: int, count: int)

  /** Thread 1 has index 0 and writes x1 and y1, thread 2 has index 1 and writes x2 and y2. */
  datatype State = State(b: B.State, x: (int, int), y: (int, int), i: int, th: seq<Local>)

  function Begin(x: (int, int), y: (int, int)): State {
    State(B.Created(2), x, y, 0, seq(2, _ => Local(FirstCall, 0, 0, 0)))
  }

  predicate IsCall(line: Line) {
    line in {FirstCall, MiddleCall, LastCall, FinalCall}
  }

  /** Where a thread goes on when 'barrier' returns. */
  function AfterCall(t: nat, line: Line): Line {
    match line
    case MiddleCall => ReadY1
    case LastCall => if t == 0 then LoopTest else ReadI
    case FinalCall => if t == 0 then Reset else Finished
    case _ => LoopTest
  }

  function Mine(t: nat, v: (int, int)): int {
    if t == 0 then v.0 else v.1
  }

  function SetMine(t: nat, v: (int, int), a: int): (int, int) {
    if t == 0 then (a, v.1) else (v.0, a)
  }

  /** What a thread computes from the two values it has read. */
  function Combine(t: nat, a1: int, a2: int): int {
    if t == 0 then a1 + 2 * a2 else a1 + 3 * a2
  }

  predicate Shaped(s: State) {
    B.Shaped(s.b) && |s.b.pc| == 2 == |s.th|
  }

  function Go(s: State, t: nat, l: Local): State
    requires t < |s.th|
  {
    s.(th := s.th[t := l])
  }

  /** The next step of a thread; none if it has finished or waits for the mutex of the barrier. */
  function Next(s: State, t: nat): Option<State>
    requires Shaped(s) && t < 2
  {
    var l := s.th[t];
    match l.line
    case LoopTest => Some(Go(s, t, l.(line := if l.count < ROUNDS then ReadX1 else FinalCall)))
    case ReadX1 => Some(Go(s, t, l.(line := ReadX2, a1 := s.x.0)))
    case ReadX2 => Some(Go(s, t, l.(line := WriteY, a2 := s.x.1)))
    case WriteY => Some(Go(s, t, l.(line := MiddleCall)).(y := SetMine(t, s.y, Combine(t, l.a1, l.a2))))
    case ReadY1 => Some(Go(s, t, l.(line := ReadY2, a1 := s.y.0)))
    case ReadY2 => Some(Go(s, t, l.(line := WriteX, a2 := s.y.1)))
    case WriteX =>
      Some(Go(s, t, l.(line := if t == 0 then CountUp else LastCall)).(x := SetMine(t, s.x, Combine(t, l.a1, l.a2))))
    case CountUp => Some(Go(s, t, l.(line := LastCall, count := l.count + 1)).(i := l.count + 1))
    case ReadI => Some(Go(s, t, l.(line := LoopTest, count := s.i)))
    case Reset => Some(Go(s, t, l.(line := Finished)).(i := 0))
    case Finished => None
    case _ =>
      match B.Next(s.b, t)
      case None => None
      case Some(b) => Some(Go(s, t, l.(line := if Returns(s.b.pc[t]) then AfterCall(t, l.line) else l.line)).(b := b))
  }

  predicate Returns(p: B.Pc) {
    p == B.LastRelease || p == B.ReleaseOut
  }

  /** The recurrence that the threads are to compute, as a sequential program would. */
  function X(j: nat, x: (int, int)): (int, int)
    decreases j, 0
  {
    if j == 0 then x else Combined(Y(j - 1, x))
  }

  function Y(j: nat, x: (int, int)): (int, int)
    decreases j, 1
  {
    Combined(X(j, x))
  }

  function Combined(v: (int, int)): (int, int) {
    (v.0 + 2 * v.1, v.0 + 3 * v.1)
  }

  /** How many turns of its loop a thread has completed. */
  function Iteration(t: nat, l: Local): int {
    if t == 0 && l.line == LastCall then l.count - 1 else l.count
  }

  /** How many calls of 'barrier' have returned when a thread is at a line. */
  function Calls(t: nat, l: Local): int {
    var c := Iteration(t, l);
    match l.line
    case FirstCall => 0
    case LoopTest => 2 * c + 1
    case ReadX1 => 2 * c + 1
    case ReadX2 => 2 * c + 1
    case WriteY => 2 * c + 1
    case MiddleCall => 2 * c + 1
    case FinalCall => 2 * c + 1
    case ReadI => 2 * c + 3
    case _ => 2 * c + 2
  }

  /** How often a thread has written its y and its x. */
  function WritesOfY(t: nat, l: Local): int {
    Iteration(t, l) + if l.line in {MiddleCall, ReadY1, ReadY2, WriteX, CountUp, LastCall, ReadI} then 1 else 0
  }

  function WritesOfX(t: nat, l: Local): int {
    Iteration(t, l) + if l.line in {CountUp, LastCall, ReadI} then 1 else 0
  }

  /** After its decrement of k and before the return. */
  predicate Leaving(p: B.Pc) {
    p in {B.LastRelease, B.TestEmpty, B.CloseDoor, B.ReleaseOut}
  }

  /** A thread by itself: its place in the loop, and the calls of 'barrier' it has completed. */
  predicate InPlace(t: nat, l: Local, pc: B.Pc, done: nat) {
    && 0 <= Iteration(t, l) <= ROUNDS
    && (l.line == FirstCall ==> l.count == 0)
    && (l.line in {ReadX1, ReadX2, WriteY, MiddleCall, ReadY1, ReadY2, WriteX, CountUp, LastCall, ReadI} ==>
          Iteration(t, l) < ROUNDS)
    && (l.line in {FinalCall, Reset, Finished} ==> l.count == ROUNDS)
    && (l.line in {CountUp, Reset} ==> t == 0) && (l.line == ReadI ==> t == 1)
    && (if IsCall(l.line) then done == Calls(t, l) + (if Leaving(pc) then 1 else 0)
        else pc == B.Out && done == Calls(t, l))
  }

  /** What a thread has read in the current turn is the current element of the recurrence. */
  predicate HasRead(l: Local, x: (int, int)) {
    && (l.line in {ReadX2, WriteY} ==> l.count >= 0 && l.a1 == X(l.count, x).0)
    && (l.line == WriteY ==> l.a2 == X(l.count, x).1)
    && (l.line in {ReadY2, WriteX} ==> l.count >= 0 && l.a1 == Y(l.count, x).0)
    && (l.line == WriteX ==> l.a2 == Y(l.count, x).1)
  }

  /** The variables that a thread writes hold the element of the recurrence that belongs to its last write. */
  predicate HasWritten(t: nat, l: Local, mx: int, my: int, x: (int, int), y: (int, int)) {
    var (v, w) := (WritesOfY(t, l), WritesOfX(t, l));
    && v >= 0 && w >= 0 && mx == Mine(t, X(w, x))
    && my == if v == 0 then Mine(t, y) else Mine(t, Y(v - 1, x))
  }

  predicate ThreadOk(t: nat, l: Local, pc: B.Pc, done: nat, mx: int, my: int, x: (int, int), y: (int, int)) {
    InPlace(t, l, pc, done) && HasRead(l, x) && HasWritten(t, l, mx, my, x, y)
  }

  predicate Invariant(s: State, r: nat, x: (int, int), y: (int, int)) {
    && Shaped(s) && B.Invariant(s.b, r)
    && ThreadOk(0, s.th[0], s.b.pc[0], s.b.done[0], s.x.0, s.y.0, x, y)
    && ThreadOk(1, s.th[1], s.b.pc[1], s.b.done[1], s.x.1, s.y.1, x, y)
    && s.i == if s.th[0].line == Finished then 0 else s.th[0].count
  }

  /** While a thread is between two calls, the other one is between the same two calls, or in the call before or
      after. */
  lemma Partner(s: State, r: nat, x: (int, int), y: (int, int), t: nat)
    requires Invariant(s, r, x, y) && t < 2 && !IsCall(s.th[t].line)
    ensures var u := 1 - t;
            || Calls(u, s.th[u]) == Calls(t, s.th[t])
            || (Calls(u, s.th[u]) == Calls(t, s.th[t]) - 1 && IsCall(s.th[u].line))
  {
    hide B.Invariant, HasRead, HasWritten, Iteration;
    var u := 1 - t;
    OthersRound(s.b, r, t);
    PlaceAndCalls(t, s.th[t], s.b.pc[t], s.b.done[t]);
    PlaceAndCalls(u, s.th[u], s.b.pc[u], s.b.done[u]);
  }

  /** While a thread is outside the barrier, the other one has completed as many rounds, or is inside and one behind. */
  lemma OthersRound(b: B.State, r: nat, t: nat)
    requires B.Invariant(b, r) && |b.pc| == 2 && t < 2 && b.pc[t] == B.Out
    ensures var u := 1 - t;
            || b.done[u] == b.done[t]
            || (b.done[u] == b.done[t] - 1 && B.Inside(b.pc[u]) && !Leaving(b.pc[u]) && b.pc[u] != B.Out)
  {
  }

  lemma PlaceAndCalls(t: nat, l: Local, pc: B.Pc, done: nat)
    requires t < 2 && InPlace(t, l, pc, done)
    ensures if IsCall(l.line) then done == Calls(t, l) + (if Leaving(pc) then 1 else 0)
            else pc == B.Out && done == Calls(t, l)
  {
  }

  lemma BeginIsInvariant(x: (int, int), y: (int, int))
    ensures Invariant(Begin(x, y), 0, x, y)
  {
    B.CreatedIsInvariant(2);
  }

  /** While a thread may read x1 and x2, both have been written equally often; likewise for y1 and y2; and while
      thread 2 may read i, it is the number of turns. */
  lemma Agreement(s: State, r: nat, x: (int, int), y: (int, int), t: nat)
    requires Invariant(s, r, x, y) && t < 2
    ensures var l := s.th[t];
            && (l.line in {LoopTest, ReadX1, ReadX2, WriteY} ==> l.count >= 0 && s.x == X(l.count, x))
            && (l.line in {ReadY1, ReadY2, WriteX} ==> l.count >= 0 && s.y == Y(l.count, x))
            && (l.line == ReadI ==> s.i == l.count + 1 == s.th[0].count)
  {
    hide B.Invariant, X, Y;
    if !IsCall(s.th[t].line) {
      Partner(s, r, x, y, t);
    }
  }

  function RoundAfter(s: State, t: nat, r: nat): nat
    requires Shaped(s) && t < 2
  {
    if IsCall(s.th[t].line) then B.RoundAfter(s.b, t, r) else r
  }

  lemma StepKeepsInvariant(s: State, r: nat, x: (int, int), y: (int, int), t: nat)
    requires Invariant(s, r, x, y) && t < 2 && Next(s, t).Some?
    ensures Invariant(Next(s, t).value, RoundAfter(s, t, r), x, y)
  {
    if IsCall(s.th[t].line) {
      CallStep(s, r, x, y, t);
    } else {
      AccessStep(s, r, x, y, t);
    }
  }

  lemma CallStep(s: State, r: nat, x: (int, int), y: (int, int), t: nat)
    requires Invariant(s, r, x, y) && t < 2 && IsCall(s.th[t].line) && Next(s, t).Some?
    ensures Invariant(Next(s, t).value, RoundAfter(s, t, r), x, y)
  {
    hide B.Invariant, ThreadOk;
    B.StepKeepsInvariant(s.b, r, t);
    CallMoves(t, s.th[t], s.b, Mine(t, s.x), Mine(t, s.y), x, y);
  }

  /** A step inside 'barrier', or its return. */
  lemma CallMoves(t: nat, l: Local, b: B.State, mx: int, my: int, x: (int, int), y: (int, int))
    requires t < 2 && B.Shaped(b) && |b.pc| == 2 && IsCall(l.line) && ThreadOk(t, l, b.pc[t], b.done[t], mx, my, x, y)
    requires B.Next(b, t).Some?
    ensures var b', l' := B.Next(b, t).value, l.(line := if Returns(b.pc[t]) then AfterCall(t, l.line) else l.line);
            ThreadOk(t, l', b'.pc[t], b'.done[t], mx, my, x, y) && (t == 0 ==> l'.line != Finished)
    ensures |B.Next(b, t).value.pc| == 2 && B.Next(b, t).value.pc[1 - t] == b.pc[1 - t]
    ensures B.Next(b, t).value.done[1 - t] == b.done[1 - t]
  {
    hide B.Next, ThreadOk;
    BarrierMoves(b, t);
    LocalMoves(t, l, b.pc[t], b.done[t], B.Next(b, t).value.pc[t], B.Next(b, t).value.done[t], mx, my, x, y);
  }

  /** What a step inside 'barrier' does to the thread that makes it. */
  predicate Moves(pc: B.Pc, done: nat, pc': B.Pc, done': nat) {
    && done' == (if pc == B.LastLeave || pc == B.Leave then done + 1 else done)
    && (Leaving(pc') <==> pc == B.LastLeave || pc == B.Leave || (Leaving(pc) && !Returns(pc)))
    && (Returns(pc) ==> pc' == B.Out)
  }

  lemma BarrierMoves(b: B.State, t: nat)
    requires t < 2 && B.Shaped(b) && |b.pc| == 2 && B.Next(b, t).Some?
    ensures var b' := B.Next(b, t).value;
            && |b'.pc| == |b'.done| == 2 && Moves(b.pc[t], b.done[t], b'.pc[t], b'.done[t])
            && b'.pc[1 - t] == b.pc[1 - t] && b'.done[1 - t] == b.done[1 - t]
  {
  }

  lemma LocalMoves(t: nat, l: Local, pc: B.Pc, done: nat, pc': B.Pc, done': nat, mx: int, my: int, x: (int, int),
                   y: (int, int))
    requires t < 2 && IsCall(l.line) && ThreadOk(t, l, pc, done, mx, my, x, y) && Moves(pc, done, pc', done')
    ensures var l' := l.(line := if Returns(pc) then AfterCall(t, l.line) else l.line);
            ThreadOk(t, l', pc', done', mx, my, x, y) && (t == 0 ==> l'.line != Finished)
  {
    hide X, Y;
  }

  lemma AccessStep(s: State, r: nat, x: (int, int), y: (int, int), t: nat)
    requires Invariant(s, r, x, y) && t < 2 && !IsCall(s.th[t].line) && Next(s, t).Some?
    ensures Invariant(Next(s, t).value, r, x, y)
  {
    hide B.Invariant, ThreadOk, X, Y;
    Agreement(s, r, x, y, t);
    var l := s.th[t];
    if l.line == WriteY {
      WriteYMoves(t, l, s.b.pc[t], s.b.done[t], Mine(t, s.x), Mine(t, s.y), x, y);
    } else if l.line == WriteX {
      WriteXMoves(t, l, s.b.pc[t], s.b.done[t], Mine(t, s.x), Mine(t, s.y), x, y);
    } else if l.line in {CountUp, ReadI, Reset} {
      CountMoves(t, l, s.b.pc[t], s.b.done[t], Mine(t, s.x), Mine(t, s.y), s.i, x, y);
    } else {
      ReadMoves(t, l, s.b.pc[t], s.b.done[t], Mine(t, s.x), Mine(t, s.y), s.x, s.y, x, y);
    }
  }

  /** The loop test, and the reads of x1, x2, y1 and y2. */
  lemma ReadMoves(t: nat, l: Local, pc: B.Pc, done: nat, mx: int, my: int, sx: (int, int), sy: (int, int),
                  x: (int, int), y: (int, int))
    requires t < 2 && l.line in {LoopTest, ReadX1, ReadX2, ReadY1, ReadY2} && ThreadOk(t, l, pc, done, mx, my, x, y)
    requires l.line in {LoopTest, ReadX1, ReadX2} ==> l.count >= 0 && sx == X(l.count, x)
    requires l.line in {ReadY1, ReadY2} ==> l.count >= 0 && sy == Y(l.count, x)
    ensures var l' := match l.line
                      case LoopTest => l.(line := if l.count < ROUNDS then ReadX1 else FinalCall)
                      case ReadX1 => l.(line := ReadX2, a1 := sx.0)
                      case ReadX2 => l.(line := WriteY, a2 := sx.1)
                      case ReadY1 => l.(line := ReadY2, a1 := sy.0)
                      case _ => l.(line := WriteX, a2 := sy.1);
            ThreadOk(t, l', pc, done, mx, my, x, y)
  {
    hide X, Y;
  }

  /** What a thread computes from an element of a recurrence is its part of the next one. */
  lemma MyPart(t: nat, j: nat, x: (int, int))
    ensures Combine(t, X(j, x).0, X(j, x).1) == Mine(t, Y(j, x))
    ensures Combine(t, Y(j, x).0, Y(j, x).1) == Mine(t, X(j + 1, x))
  {
  }

  /** The writes of y1 and y2. */
  lemma WriteYMoves(t: nat, l: Local, pc: B.Pc, done: nat, mx: int, my: int, x: (int, int), y: (int, int))
    requires t < 2 && l.line == WriteY && ThreadOk(t, l, pc, done, mx, my, x, y)
    ensures ThreadOk(t, l.(line := MiddleCall), pc, done, mx, Combine(t, l.a1, l.a2), x, y)
  {
    hide X, Y, Combine, Mine;
    MyPart(t, l.count, x);
  }

  /** The writes of x1 and x2. */
  lemma WriteXMoves(t: nat, l: Local, pc: B.Pc, done: nat, mx: int, my: int, x: (int, int), y: (int, int))
    requires t < 2 && l.line == WriteX && ThreadOk(t, l, pc, done, mx, my, x, y)
    ensures ThreadOk(t, l.(line := if t == 0 then CountUp else LastCall), pc, done, Combine(t, l.a1, l.a2), my, x, y)
  {
    hide X, Y, Combine, Mine;
    MyPart(t, l.count, x);
  }

  /** Counting the turns, and the last assignment of thread 1. */
  lemma CountMoves(t: nat, l: Local, pc: B.Pc, done: nat, mx: int, my: int, i: int, x: (int, int), y: (int, int))
    requires t < 2 && l.line in {CountUp, ReadI, Reset} && ThreadOk(t, l, pc, done, mx, my, x, y)
    requires l.line == ReadI ==> i == l.count + 1
    ensures var l' := match l.line
                      case CountUp => l.(line := LastCall, count := l.count + 1)
                      case ReadI => l.(line := LoopTest, count := i)
                      case _ => l.(line := Finished);
            ThreadOk(t, l', pc, done, mx, my, x, y)
    ensures l.line in {CountUp, Reset} ==> t == 0
    ensures l.line == ReadI ==> t == 1
  {
    hide X, Y;
  }

  predicate StepOf(s: State, t: nat, s': State) {
    Shaped(s) && t < 2 && Next(s, t) == Some(s')
  }

  ghost predicate SomeStep(s: State, s': State) {
    exists t: nat :: StepOf(s, t, s')
  }

  /** A run of the two threads under any scheduler, from any initial values of the variables. */
  ghost predicate IsRun(x: (int, int), y: (int, int), run: seq<State>)
    decreases |run|
  {
    && run != []
    && if |run| == 1 then run[0] == Begin(x, y)
       else IsRun(x, y, run[..|run| - 1]) && SomeStep(run[|run| - 2], run[|run| - 1])
  }

  lemma StepOfKeepsInvariant(s: State, r: nat, x: (int, int), y: (int, int), t: nat, s': State)
    requires Invariant(s, r, x, y) && StepOf(s, t, s')
    ensures t < 2 && Shaped(s) && Invariant(s', RoundAfter(s, t, r), x, y)
  {
    hide Invariant;
    StepKeepsInvariant(s, r, x, y, t);
  }

  lemma {:induction false} RunKeepsInvariant(x: (int, int), y: (int, int), run: seq<State>) returns (r: nat)
    requires IsRun(x, y, run)
    ensures Invariant(run[|run| - 1], r, x, y)
    decreases |run|
  {
    hide Invariant, StepOf, Next;
    if |run| == 1 {
      BeginIsInvariant(x, y);
      return 0;
    }
    var before := run[..|run| - 1];
    r := RunKeepsInvariant(x, y, before);
    var s, s' := run[|run| - 2], run[|run| - 1];
    assert before[|before| - 1] == s;
    var t: nat :| StepOf(s, t, s');
    StepOfKeepsInvariant(s, r, x, y, t, s');
    r := RoundAfter(s, t, r);
  }

  lemma ThreadEnds(t: nat, l: Local, pc: B.Pc, done: nat, mx: int, my: int, x: (int, int), y: (int, int))
    requires t < 2 && ThreadOk(t, l, pc, done, mx, my, x, y) && l.line == Finished
    ensures l.count == ROUNDS && mx == Mine(t, X(ROUNDS, x)) && my == Mine(t, Y(ROUNDS - 1, x))
    ensures done == 2 * ROUNDS + 2
  {
    hide X, Y, HasRead;
  }

  /** Under every interleaving the threads end with the same values, those of the recurrence, and after the same
      number of calls of the barrier. */
  lemma OutcomeIsDetermined(x: (int, int), y: (int, int), run: seq<State>)
    requires IsRun(x, y, run)
    ensures var s := run[|run| - 1];
            Shaped(s) && (s.th[0].line == Finished == s.th[1].line ==>
              && s.x == X(30, x) && s.y == Y(29, x) && s.i == 0
              && s.th[0].count == s.th[1].count == 30
              && s.b.done[0] == s.b.done[1] == 62)
  {
    hide B.Invariant, X, Y, ThreadOk;
    var r := RunKeepsInvariant(x, y, run);
    var s := run[|run| - 1];
    if s.th[0].line == Finished == s.th[1].line {
      ThreadEnds(0, s.th[0], s.b.pc[0], s.b.done[0], s.x.0, s.y.0, x, y);
      ThreadEnds(1, s.th[1], s.b.pc[1], s.b.done[1], s.x.1, s.y.1, x, y);
    }
  }

  /** Whenever thread 2 may read i into m, it holds N. */
  lemma CountersAgree(x: (int, int), y: (int, int), run: seq<State>)
    requires IsRun(x, y, run)
    ensures var s := run[|run| - 1];
            && Shaped(s)
            && (s.th[1].line == ReadI ==> s.i == s.th[0].count && Next(s, 1).value.th[1].count == s.th[0].count)
            && (s.th[1].line == LoopTest && s.th[0].line == LoopTest ==> s.th[1].count == s.th[0].count)
  {
    hide B.Invariant, X, Y;
    var r := RunKeepsInvariant(x, y, run);
    Agreement(run[|run| - 1], r, x, y, 1);
    if run[|run| - 1].th[1].line == LoopTest {
      Partner(run[|run| - 1], r, x, y, 1);
    }
  }

  datatype Field = X1 | X2 | Y1 | Y2 | I

  /** The access to the shared data that a thread is about to make, and whether it is a write. */
  function Access(t: nat, line: Line): Option<(Field, bool)> {
    match line
    case ReadX1 => Some((X1, false))
    case ReadX2 => Some((X2, false))
    case ReadY1 => Some((Y1, false))
    case ReadY2 => Some((Y2, false))
    case WriteX => Some((if t == 0 then X1 else X2, true))
    case WriteY => Some((if t == 0 then Y1 else Y2, true))
    case CountUp => Some((I, true))
    case Reset => Some((I, true))
    case ReadI => Some((I, false))
    case _ => None
  }

  /** No data race: if both threads are about to access the same field, both read it. */
  lemma NoRace(x: (int, int), y: (int, int), run: seq<State>)
    requires IsRun(x, y, run)
    ensures var s := run[|run| - 1];
            && Shaped(s)
            && match (Access(0, s.th[0].line), Access(1, s.th[1].line))
               case (Some((f, w)), Some((g, v))) => f == g ==> !w && !v
               case _ => true
  {
    hide B.Invariant, HasRead, HasWritten, InPlace, Calls, Iteration;
    var r := RunKeepsInvariant(x, y, run);
    var s := run[|run| - 1];
    if !IsCall(s.th[0].line) && !IsCall(s.th[1].line) {
      Partner(s, r, x, y, 0);
      SamePhase(s.th[0], s.th[1], s.b.pc[0], s.b.pc[1], s.b.done[0], s.b.done[1]);
    }
  }

  /** Between the same two calls the threads do not interfere. */
  lemma SamePhase(l: Local, k: Local, pc0: B.Pc, pc1: B.Pc, done0: nat, done1: nat)
    requires InPlace(0, l, pc0, done0) && InPlace(1, k, pc1, done1)
    requires !IsCall(l.line) && !IsCall(k.line) && Calls(0, l) == Calls(1, k)
    ensures match (Access(0, l.line), Access(1, k.line))
            case (Some((f, w)), Some((g, v))) => f == g ==> !w && !v
            case _ => true
  {
  }

  /** What the first turn of the loop computes. */
  lemma FirstTurn(a: int, b: int)
    ensures Y(0, (a, b)) == (a + 2 * b, a + 3 * b) && X(1, (a, b)) == (3 * a + 8 * b, 4 * a + 11 * b)
  {
    assert X(1, (a, b)) == Combined(Y(0, (a, b)));
  }

  /** The program allocates its data with calloc, so that all variables start as zero; then they stay zero, and
      the arithmetic on C integers that is modelled by integers here cannot overflow. */
  lemma {:induction false} ZeroStaysZero(j: nat)
    ensures X(j, (0, 0)) == (0, 0) == Y(j, (0, 0))
  {
    if j > 0 {
      ZeroStaysZero(j - 1);
    }
  }

  /** The threads do not get stuck: until both have finished, one of them can go on without waiting for the other
      one, except for the mutex. */
  lemma NeverStuck(x: (int, int), y: (int, int), run: seq<State>)
    requires IsRun(x, y, run)
    ensures var s := run[|run| - 1];
            && Shaped(s)
            && (s.th[0].line != Finished || s.th[1].line != Finished ==>
                  exists t: nat :: t < 2 && CanGoOn(s, t))
  {
    var r := RunKeepsInvariant(x, y, run);
    var s := run[|run| - 1];
    if s.th[0].line != Finished || s.th[1].line != Finished {
      var t := OneCanGoOn(s, r, x, y);
      assert CanGoOn(s, t);
    }
  }

  predicate CanGoOn(s: State, t: nat)
    requires Shaped(s) && t < 2
  {
    if IsCall(s.th[t].line) then !B.Spins(s.b, t) else s.th[t].line != Finished
  }

  lemma OneCanGoOn(s: State, r: nat, x: (int, int), y: (int, int)) returns (t: nat)
    requires Invariant(s, r, x, y) && (s.th[0].line != Finished || s.th[1].line != Finished)
    ensures t < 2 && CanGoOn(s, t)
  {
    hide HasRead, HasWritten;
    if i: nat :| i < 2 && !IsCall(s.th[i].line) && s.th[i].line != Finished {
      return i;
    } else if i: nat :| i < 2 && s.th[i].line == Finished {
      Partner(s, r, x, y, i);
      return 1 - i;
    } else if i: nat :| i < 2 && s.b.pc[i] == B.Out {
      return i;
    } else {
      t := B.SomeThreadCanPass(s.b, r);
    }
  }

  /** How far a thread is from its end, where a step inside a call counts only when it begins or ends the call. */
  function ToGo(t: nat, l: Local, pc: B.Pc): int {
    40 * (ROUNDS - Iteration(t, l)) + Place(l.line) + (if IsCall(l.line) && pc == B.Out then 1 else 0)
  }

  function Place(line: Line): nat {
    match line
    case FirstCall => 30
    case LoopTest => 28
    case ReadX1 => 26
    case ReadX2 => 24
    case WriteY => 22
    case MiddleCall => 20
    case ReadY1 => 18
    case ReadY2 => 16
    case WriteX => 14
    case CountUp => 12
    case LastCall => 10
    case ReadI => 8
    case FinalCall => 6
    case Reset => 2
    case Finished => 0
  }

  function BothToGo(s: State): int
    requires Shaped(s)
  {
    ToGo(0, s.th[0], s.b.pc[0]) + ToGo(1, s.th[1], s.b.pc[1])
  }

  lemma NotNegative(s: State, r: nat, x: (int, int), y: (int, int))
    requires Invariant(s, r, x, y)
    ensures BothToGo(s) >= 0
  {
    hide B.Invariant, HasRead, HasWritten, Place;
  }

  /** The program gets nearer to its end: a thread does, or both stay where they are and the barrier comes closer to
      letting them go. */
  predicate Nearer(s: State, s': State)
    requires Shaped(s) && Shaped(s')
  {
    || BothToGo(s') < BothToGo(s)
    || (BothToGo(s') == BothToGo(s) && B.Stage(s'.b) < B.Stage(s.b))
    || (BothToGo(s') == BothToGo(s) && B.Stage(s'.b) == B.Stage(s.b)
        && B.Total(s'.b.pc, s'.b.outgoing) < B.Total(s.b.pc, s.b.outgoing))
  }

  /** A step outside the barrier. */
  lemma AccessIsNearer(s: State, r: nat, x: (int, int), y: (int, int), t: nat)
    requires Invariant(s, r, x, y) && t < 2 && !IsCall(s.th[t].line) && s.th[t].line != Finished
    ensures Next(s, t).Some? && Shaped(Next(s, t).value) && BothToGo(Next(s, t).value) < BothToGo(s)
  {
    hide B.Invariant, HasRead, HasWritten, X, Y;
    Agreement(s, r, x, y, t);
  }

  /** A step that begins a call. */
  lemma CallIsNearer(s: State, r: nat, x: (int, int), y: (int, int), t: nat)
    requires Invariant(s, r, x, y) && t < 2 && IsCall(s.th[t].line) && s.b.pc[t] == B.Out
    ensures Next(s, t).Some? && Shaped(Next(s, t).value) && BothToGo(Next(s, t).value) < BothToGo(s)
  {
    hide B.Invariant, HasRead, HasWritten, X, Y;
  }

  /** A step inside the barrier. */
  lemma BarrierIsNearer(s: State, r: nat, x: (int, int), y: (int, int), t: nat)
    requires Invariant(s, r, x, y) && t < 2 && IsCall(s.th[t].line) && s.b.pc[t] != B.Out
    requires B.Next(s.b, t).Some? && (s.b.owner.Some? ==> s.b.owner == Some(t))
    requires s.b.owner == None ==>
               if s.b.outgoing then s.b.pc[t] == B.WantOut else s.b.pc[t] in {B.Out, B.WantIn} && B.Stage(s.b) == 2
    ensures Next(s, t).Some? && Shaped(Next(s, t).value) && Nearer(s, Next(s, t).value)
  {
    hide B.Invariant, HasRead, HasWritten, InPlace, ToGo, IsCall, B.Stage, B.Total, B.Next;
    B.ComesCloser(s.b, r, t);
    BarrierStays(s.b, r, t);
    CallToGo(t, s.th[t], s.b.pc[t], B.Next(s.b, t).value.pc[t], s.b.done[t]);
    CallIsBarrierStep(s, t);
  }

  lemma CallIsBarrierStep(s: State, t: nat)
    requires Shaped(s) && t < 2 && IsCall(s.th[t].line) && B.Next(s.b, t).Some?
    ensures var l := s.th[t];
            Next(s, t) == Some(Go(s, t, l.(line := if Returns(s.b.pc[t]) then AfterCall(t, l.line) else l.line))
                               .(b := B.Next(s.b, t).value))
  {
    hide B.Next;
  }

  /** The return of a call counts, the steps before it do not. */
  lemma CallToGo(t: nat, l: Local, pc: B.Pc, pc': B.Pc, done: nat)
    requires t < 2 && InPlace(t, l, pc, done) && IsCall(l.line) && pc != B.Out && (Returns(pc) <==> pc' == B.Out)
    ensures var l' := l.(line := if Returns(pc) then AfterCall(t, l.line) else l.line);
            if Returns(pc) then ToGo(t, l', pc') < ToGo(t, l, pc) else ToGo(t, l', pc') == ToGo(t, l, pc)
  {
  }

  /** Only the return of a call leads out of the barrier. */
  lemma BarrierStays(b: B.State, r: nat, t: nat)
    requires t < 2 && B.Invariant(b, r) && |b.pc| == 2 && B.Next(b, t).Some? && b.pc[t] != B.Out
    ensures var b' := B.Next(b, t).value;
            && B.Shaped(b') && |b'.pc| == 2 && b'.pc[1 - t] == b.pc[1 - t] && (Returns(b.pc[t]) <==> b'.pc[t] == B.Out)
  {
  }

  /** When one thread has finished, the other one is the one that the barrier waits for. */
  lemma LastOneGoes(s: State, r: nat, x: (int, int), y: (int, int), u: nat)
    requires Invariant(s, r, x, y) && u < 2 && IsCall(s.th[u].line) && s.th[1 - u].line == Finished
    ensures s.b.pc[u] != B.Out && s.b.pc[1 - u] == B.Out
    ensures s.b.owner == None ==> s.b.outgoing
  {
    hide HasRead, HasWritten, X, Y;
    Partner(s, r, x, y, 1 - u);
  }

  /** A thread by whose next step the program gets nearer to its end. */
  lemma WhoGoes(s: State, r: nat, x: (int, int), y: (int, int)) returns (t: nat)
    requires Invariant(s, r, x, y) && !(s.th[0].line == Finished == s.th[1].line)
    ensures t < 2 && Next(s, t).Some? && Shaped(Next(s, t).value) && Nearer(s, Next(s, t).value)
  {
    hide B.Invariant, ThreadOk, B.Stage, B.Total, B.AllOut, BothToGo;
    if i: nat :| i < 2 && !IsCall(s.th[i].line) && s.th[i].line != Finished {
      t := i;
      AccessIsNearer(s, r, x, y, t);
    } else if i: nat :| i < 2 && s.b.pc[i] == B.Out && IsCall(s.th[i].line) {
      t := i;
      CallIsNearer(s, r, x, y, t);
    } else {
      t := InsideOneGoes(s, r, x, y);
    }
  }

  lemma InsideOneGoes(s: State, r: nat, x: (int, int), y: (int, int)) returns (t: nat)
    requires Invariant(s, r, x, y) && !(s.th[0].line == Finished == s.th[1].line)
    requires forall i: nat | i < 2 :: s.th[i].line == Finished || (IsCall(s.th[i].line) && s.b.pc[i] != B.Out)
    ensures t < 2 && Next(s, t).Some? && Shaped(Next(s, t).value) && Nearer(s, Next(s, t).value)
  {
    hide B.Invariant, HasRead, HasWritten, B.Stage, B.Total, Nearer;
    var u: nat :| u < 2 && s.th[u].line != Finished;
    assert s.b.pc[u] != B.Out;
    t := B.WhoGoes(s.b, r);
    if s.th[1 - u].line == Finished {
      LastOneGoes(s, r, x, y, u);
      if s.b.owner.Some? {
        HolderIsInside(s.b, r);
      }
    }
    BarrierIsNearer(s, r, x, y, t);
  }

  lemma HolderIsInside(b: B.State, r: nat)
    requires B.Invariant(b, r) && b.owner.Some?
    ensures b.owner.value < |b.pc| && b.pc[b.owner.value] != B.Out
  {
  }

  lemma RunExtended(x: (int, int), y: (int, int), run: seq<State>, t: nat, s': State)
    requires IsRun(x, y, run) && StepOf(run[|run| - 1], t, s')
    ensures IsRun(x, y, run + [s'])
  {
    var more := run + [s'];
    assert more[..|more| - 1] == run && more[|more| - 2] == run[|run| - 1];
    assert SomeStep(more[|more| - 2], s');
  }

  /** Every run can go on until both threads have finished; then the values are those of 'OutcomeIsDetermined'. */
  lemma {:induction false} BothCanFinish(x: (int, int), y: (int, int), run: seq<State>) returns (more: seq<State>)
    requires IsRun(x, y, run)
    ensures IsRun(x, y, run + more)
    ensures var s := (run + more)[|run + more| - 1];
            |s.th| == 2 && s.th[0].line == Finished == s.th[1].line && s.x == X(30, x) && s.y == Y(29, x)
    decreases
      var s := run[|run| - 1];
      if Shaped(s) then BothToGo(s) else 0,
      B.Stage(run[|run| - 1].b), B.Total(run[|run| - 1].b.pc, run[|run| - 1].b.outgoing)
  {
    hide Invariant, Next, BothToGo, B.Stage, B.Total, X, Y;
    var r := RunKeepsInvariant(x, y, run);
    var s := run[|run| - 1];
    OutcomeIsDetermined(x, y, run);
    if s.th[0].line == Finished == s.th[1].line {
      assert run + [] == run;
      return [];
    }
    NotNegative(s, r, x, y);
    var t := WhoGoes(s, r, x, y);
    var s' := Next(s, t).value;
    RunExtended(x, y, run, t, s');
    var r' := RunKeepsInvariant(x, y, run + [s']);
    NotNegative(s', r', x, y);
    var rest := BothCanFinish(x, y, run + [s']);
    assert run + [s'] + rest == run + ([s'] + rest);
    return [s'] + rest;
  }
}
