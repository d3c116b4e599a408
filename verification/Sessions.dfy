/** The outer loop of 'main': programs are read and evaluated one after the other. What a session prints is defined
    here without any bound on turns, and compared with what an interpreter may have printed when it stops. */
module Sessions {
  import opened Basics
  import opened Values
  import opened Syntax
  import M = Machine
  import B = BigStep

  /** What an expression means: the outcome that evaluation has at every sufficient depth, or Timeout if its
      evaluation does not end. */
  ghost function Meaning(e: Val): B.Outcome {
    if n: nat :| B.Evaluate(n, M.ENV, e) != B.Timeout then B.Evaluate(n, M.ENV, e) else B.Timeout
  }

  lemma MeaningIs(n: nat, e: Val)
    requires B.Evaluate(n, M.ENV, e) != B.Timeout
    ensures Meaning(e) == B.Evaluate(n, M.ENV, e)
  {
    var k: nat :| B.Evaluate(k, M.ENV, e) != B.Timeout && Meaning(e) == B.Evaluate(k, M.ENV, e);
    if k <= n {
      B.DepthDoesNotMatter(k, n, M.ENV, e);
    } else {
      B.DepthDoesNotMatter(n, k, M.ENV, e);
    }
  }

  lemma MeaningIsReached(e: Val) returns (n: nat)
    ensures B.Evaluate(n, M.ENV, e) == Meaning(e)
  {
    n := 0;
    if k: nat :| B.Evaluate(k, M.ENV, e) != B.Timeout && Meaning(e) == B.Evaluate(k, M.ENV, e) {
      n := k;
    }
  }

  /** How a session of m programs can go: all of them come to an end, one of them (or reading it) fails, or one of
      them does not end. */
  datatype Outcome = AllDone(out: seq<string>, rest: seq<Token>) | Ended(error: Error, out: seq<string>) | Endless
  {
    function After(o: seq<string>): Outcome {
      match this
      case AllDone(out, rest) => AllDone(o + out, rest)
      case Ended(e, out) => Ended(e, o + out)
      case Endless => Endless
    }
  }

  ghost function Programs(m: nat, ts: seq<Token>): Outcome {
    if m == 0 then AllDone([], ts)
    else
      match Parse(ts)
      case Failure(e) => Ended(e, [])
      case Success((e, rest)) =>
        match Meaning(e)
        case Value(_, o) => Programs(m - 1, rest).After(o)
        case Error(x, o) => Ended(x, o)
        case Timeout => Endless
  }

  /** How an interpreter stops: as the programs do, or because a program took too many turns, or because the heap is
      full. */
  datatype Report = Completed | Stopped(error: Error) | OutOfTurns | HeapFull

  /** What an interpreter may do with m programs, each for at most n turns, when 'before' has been printed already:
      every program but the last one it came to is evaluated as it means; the last one may be cut short. */
  ghost predicate Session(m: nat, n: nat, ts: seq<Token>, before: seq<string>, report: Report, after: seq<string>) {
    if m == 0 then report == Completed && after == before
    else
      match Parse(ts)
      case Failure(e) => after == before && (report == Stopped(e) || report == HeapFull)
      case Success((e, rest)) =>
        || (Meaning(e).Value? && Session(m - 1, n, rest, before + Meaning(e).out, report, after))
        || (Meaning(e).Error? && report == Stopped(Meaning(e).error) && after == before + Meaning(e).out)
        || CutShort(n, e, before, report, after)
  }

  ghost predicate CutShort(n: nat, e: Val, before: seq<string>, report: Report, after: seq<string>) {
    && (report == OutOfTurns || report == HeapFull) && M.IsExpr(e) && before <= after
    && after <= M.OutputOf(B.RunProgram(n, e, before))
    && (report == OutOfTurns ==>
          B.RunProgram(n, e, before).Running? && after == M.OutputOf(B.RunProgram(n, e, before)))
  }

  /** What has been printed after n turns is still there after more of them. */
  lemma {:induction false} RunOutputGrows(n: nat, k: nat, st: M.State)
    requires M.WellFormed(st) && n <= k
    ensures M.OutputOf(M.RunFor(n, st)) <= M.OutputOf(M.RunFor(k, st))
    decreases n
  {
    M.OutputGrows(k, st);
    if st.conts.Cons? && n > 0 {
      M.StepIsSafe(st);
      var r := M.Apply(st.conts.head, st.(conts := st.conts.tail));
      if r.Success? {
        RunOutputGrows(n - 1, k - 1, r.value);
      }
    }
  }

  /** A program that is interrupted has printed the beginning of what it means. */
  lemma PartIsPrefix(n: nat, e: Val, before: seq<string>)
    requires M.IsExpr(e) && Meaning(e) != B.Timeout
    ensures M.OutputOf(B.RunProgram(n, e, before)) <= before + Meaning(e).out
  {
    hide M.RunFor, M.WellFormed, B.Evaluate;
    var d := MeaningIsReached(e);
    B.ProgramIsWellFormed(e, before);
    var start := B.Start(M.ENV, e, Nil, Nil, before);
    var k := B.EvaluateIsRun(d, M.ENV, e, Nil, Nil, before);
    RunOutputGrows(n, n + k, start);
    FinalOutput(k, n, start, Meaning(e), before);
  }

  lemma FinalOutput(k: nat, n: nat, start: M.State, r: B.Outcome, before: seq<string>)
    requires M.WellFormed(start)
    requires match r
             case Value(v, o) => B.Leads(k, start, M.State(Cons(v, Nil), Nil, before + o))
             case Error(x, o) => B.Fails(k, start, x, before + o)
             case Timeout => false
    ensures M.OutputOf(M.RunFor(n + k, start)) == before + r.out
  {
    match r
    case Value(v, o) => assert M.RunFor(n + k, start) == M.RunFor(n, M.State(Cons(v, Nil), Nil, before + o));
    case Error(x, o) => assert M.RunFor(n + k, start) == M.Failed(x, before + o);
  }

  /** What an interpreter prints is what the programs mean: all of it when it stops by itself, and otherwise the
      beginning, however many turns it is given and whatever was printed before. */
  lemma {:induction false} SessionIsFaithful(m: nat, n: nat, ts: seq<Token>, before: seq<string>, report: Report,
                                             after: seq<string>)
    requires Session(m, n, ts, before, report, after)
    ensures report == Completed ==> Programs(m, ts).AllDone? && after == before + Programs(m, ts).out
    ensures report.Stopped? ==> Programs(m, ts).Ended? && Programs(m, ts).error == report.error
                                && after == before + Programs(m, ts).out
    ensures before <= after && (!Programs(m, ts).Endless? ==> after <= before + Programs(m, ts).out)
    decreases m
  {
    hide M.OutputOf, B.RunProgram, Meaning;
    if m > 0 && Parse(ts).Success? {
      var (e, rest) := Parse(ts).value;
      if Meaning(e).Value? && Session(m - 1, n, rest, before + Meaning(e).out, report, after) {
        SessionIsFaithful(m - 1, n, rest, before + Meaning(e).out, report, after);
        var later := Programs(m - 1, rest);
        if !later.Endless? {
          assert before + Meaning(e).out + later.out == before + (Meaning(e).out + later.out);
        }
      } else if CutShort(n, e, before, report, after) && Meaning(e) != B.Timeout {
        PartIsPrefix(n, e, before);
        CutIsPrefix(before, after, Meaning(e).out, Programs(m, ts));
      }
    }
  }

  lemma CutIsPrefix(before: seq<string>, after: seq<string>, o: seq<string>, r: Outcome)
    requires after <= before + o && !r.Endless? ==> o <= r.out
    ensures after <= before + o && !r.Endless? ==> after <= before + r.out
  {
  }

  /** A session with one program more. */
  ghost predicate Continues(m: nat, n: nat, ts: seq<Token>, before: seq<string>, rest: seq<Token>, mid: seq<string>) {
    m > 0 && forall report, after ::
      Session(m - 1, n, rest, mid, report, after) ==> Session(m, n, ts, before, report, after)
  }

  lemma ProgramComputes(m: nat, n: nat, ts: seq<Token>, before: seq<string>, v: Val, mid: seq<string>)
    requires m > 0 && Parse(ts).Success? && B.Computes(n, Parse(ts).value.0, v, before, mid)
    ensures Continues(m, n, ts, before, Parse(ts).value.1, mid)
  {
    var (e, rest) := Parse(ts).value;
    MeaningIs(n, e);
    assert mid == before + Meaning(e).out;
  }

  lemma ProgramStops(m: nat, n: nat, ts: seq<Token>, before: seq<string>, x: Error, after: seq<string>)
    requires m > 0 && Parse(ts).Success? && B.Stops(n, Parse(ts).value.0, x, before, after)
    ensures Session(m, n, ts, before, Stopped(x), after) && x != ObjectLimit
  {
    var (e, rest) := Parse(ts).value;
    MeaningIs(n, e);
    B.ErrorsAreFaults(n, M.ENV, e);
    assert after == before + Meaning(e).out;
  }

  lemma ProgramCutShort(m: nat, n: nat, ts: seq<Token>, before: seq<string>, report: Report, after: seq<string>)
    requires m > 0 && Parse(ts).Success? && CutShort(n, Parse(ts).value.0, before, report, after)
    ensures Session(m, n, ts, before, report, after)
  {
  }

  lemma NothingToDo(n: nat, ts: seq<Token>, before: seq<string>)
    ensures Session(0, n, ts, before, Completed, before)
  {
  }

  lemma NoProgram(m: nat, n: nat, ts: seq<Token>, before: seq<string>)
    requires m > 0 && Parse(ts).Failure?
    ensures Session(m, n, ts, before, Stopped(Parse(ts).error), before) && Session(m, n, ts, before, HeapFull, before)
    ensures Parse(ts).error != ObjectLimit
  {
    ParseErrors(ts);
  }

  /** All expressions printed one after the other. */
  function PrintAll(es: seq<Val>): seq<Token>
    requires forall e | e in es :: M.IsExpr(e)
  {
    if es == [] then [] else Print(es[0]) + PrintAll(es[1..])
  }

  /** What programs print that all come to an end. */
  ghost function OutputOfAll(es: seq<Val>): seq<string>
    requires forall e | e in es :: Meaning(e).Value?
  {
    if es == [] then [] else Meaning(es[0]).out + OutputOfAll(es[1..])
  }

  /** A text that consists of programs which come to an end is run to its end, and then the parser complains. */
  lemma {:induction false} TextIsRun(es: seq<Val>, m: nat)
    requires (forall e | e in es :: M.IsExpr(e) && Meaning(e).Value?) && m > |es|
    ensures Programs(m, PrintAll(es)) == Ended(SymbolOrParenExpected, OutputOfAll(es))
    decreases |es|
  {
    if es != [] {
      ParsePrinted(es[0], PrintAll(es[1..]));
      TextIsRun(es[1..], m - 1);
    }
  }

  /** A program whose evaluation ends does not run for ever. */
  lemma ProgramEnds(e: Val, before: seq<string>) returns (turns: nat)
    requires M.IsExpr(e) && Meaning(e) != B.Timeout
    ensures forall n: nat | n >= turns :: !B.RunProgram(n, e, before).Running?
  {
    hide M.RunFor, M.WellFormed, B.Evaluate;
    var d := MeaningIsReached(e);
    B.ProgramIsWellFormed(e, before);
    turns := B.EvaluateIsRun(d, M.ENV, e, Nil, Nil, before);
    forall n: nat | n >= turns ensures !B.RunProgram(n, e, before).Running? {
      NotRunning(turns, n, B.Start(M.ENV, e, Nil, Nil, before), Meaning(e), before);
    }
  }

  lemma NotRunning(k: nat, n: nat, start: M.State, r: B.Outcome, before: seq<string>)
    requires M.WellFormed(start) && n >= k
    requires match r
             case Value(v, o) => B.Leads(k, start, M.State(Cons(v, Nil), Nil, before + o))
             case Error(x, o) => B.Fails(k, start, x, before + o)
             case Timeout => false
    ensures !M.RunFor(n, start).Running?
  {
    match r
    case Value(v, o) => assert M.RunFor(n, start) == M.RunFor(n - k, M.State(Cons(v, Nil), Nil, before + o));
    case Error(x, o) => assert M.RunFor(n, start) == M.Failed(x, before + o);
  }

  /** If every program of a session comes to an end, some number of turns is enough for all of them. */
  lemma {:induction false} SessionEnds(m: nat, ts: seq<Token>, before: seq<string>) returns (turns: nat)
    requires !Programs(m, ts).Endless?
    ensures forall n: nat, report, after | n >= turns && Session(m, n, ts, before, report, after) ::
              report != OutOfTurns
    decreases m
  {
    hide M.OutputOf, B.RunProgram, Meaning;
    turns := 0;
    if m > 0 && Parse(ts).Success? {
      var (e, rest) := Parse(ts).value;
      ParsedIsPrinted(ts);
      turns := ProgramEnds(e, before);
      if Meaning(e).Value? {
        var later := SessionEnds(m - 1, rest, before + Meaning(e).out);
        turns := turns + later;
      }
    }
  }

  /** 'print_atom' is bound in the first environment, and prints its argument. */
  lemma AtomIsPrinted(chars: string)
    ensures Meaning(Cons(Atom("print_atom"), Cons(Atom("quote"), Atom(chars)))) == B.Value(Nil, [chars])
  {
    MeaningIs(1, Cons(Atom("print_atom"), Cons(Atom("quote"), Atom(chars))));
  }

  /** No other name is bound in the first environment. */
  lemma NothingElseIsBound(name: string)
    ensures Meaning(Atom(name)) == if name == "print_atom" then B.Value(Func(PrintAtom, Nil), [])
                                   else B.Error(NoSuchBinding, [])
  {
    assert B.Lookup(name, Nil) == None;
    assert B.Lookup(name, M.ENV) == if name == "print_atom" then Some(Func(PrintAtom, Nil)) else None;
    MeaningIs(0, Atom(name));
  }

  /** The argument of an application is evaluated before the function. */
  lemma ArgumentIsFirst(a: string, b: string)
    ensures var (f, x) := (Cons(Atom("print_atom"), Cons(Atom("quote"), Atom(a))),
                           Cons(Atom("print_atom"), Cons(Atom("quote"), Atom(b))));
            Meaning(Cons(f, x)) == B.Error(NotAFunction, [b, a])
  {
    var f := Cons(Atom("print_atom"), Cons(Atom("quote"), Atom(a)));
    var x := Cons(Atom("print_atom"), Cons(Atom("quote"), Atom(b)));
    assert B.Evaluate(1, M.ENV, x) == B.Value(Nil, [b]) && B.Evaluate(1, M.ENV, f) == B.Value(Nil, [a]);
    MeaningIs(2, Cons(f, x));
  }

  /** Scope is lexical, and the innermost binding counts: the inner function in (fun (p (fun (q p)))) remembers p,
      unless its own parameter has the same name. */
  lemma ScopeIsLexical(p: string, q: string, a: Val, b: Val)
    ensures var outer := Cons(Atom("fun"), Cons(Atom(p), Cons(Atom("fun"), Cons(Atom(q), Atom(p)))));
            var call := Cons(Cons(outer, Cons(Atom("quote"), a)), Cons(Atom("quote"), b));
            Meaning(call) == B.Value(if p == q then b else a, [])
  {
    var body := Cons(Atom("fun"), Cons(Atom(q), Atom(p)));
    var f := Cons(Cons(Atom("fun"), Cons(Atom(p), body)), Cons(Atom("quote"), a));
    var inner := Cons(Cons(Atom(p), a), M.ENV);
    var closure := Func(FunApply, Cons(Cons(M.FORMS, inner), Cons(Atom(q), Atom(p))));
    assert B.Evaluate(0, inner, body) == B.Value(closure, []);
    assert B.Evaluate(1, M.ENV, f) == B.Value(closure, []);
    assert B.Lookup(p, Cons(Cons(Atom(q), b), inner)) == Some(if p == q then b else a);
    MeaningIs(2, Cons(f, Cons(Atom("quote"), b)));
  }
}
