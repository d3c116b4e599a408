/** What a program of the little language means, independently of stacks: call-by-value evaluation with an
    environment, argument before function. The machine is proved to compute exactly this. */
module BigStep {
  import opened Basics
  import opened Values
  import opened Machine

  /** The result of an evaluation that is given a bounded depth, with the output it prints. */
  datatype Outcome =
    | Timeout
    | Error(error: Values.Error, out: seq<string>)
    | Value(val: Val, out: seq<string>)
  {
    /** The outcome after some earlier output. */
    function After(o: seq<string>): Outcome {
      match this
      case Timeout => Timeout
      case Error(e, out) => Error(e, o + out)
      case Value(v, out) => Value(v, o + out)
    }
  }

  /** The innermost binding of a name. */
  function Lookup(name: string, env: Val): Option<Val> {
    match env
    case Cons(Cons(Atom(x), v), rest) => if x == name then Some(v) else Lookup(name, rest)
    case _ => None
  }

  function Evaluate(n: nat, env: Val, e: Val): Outcome
    decreases n, 1
  {
    match e
    case Atom(x) =>
      (match Lookup(x, env)
       case Some(v) => Value(v, [])
       case None => Error(NoSuchBinding, []))
    case Cons(f, a) =>
      if f == Atom("quote") then Value(a, [])
      else if f == Atom("fun") then Value(Func(FunApply, Cons(Cons(FORMS, env), a)), [])
      else if n == 0 then Timeout
      else
        (match Evaluate(n - 1, env, a)
         case Value(va, oa) => EvaluateAndCall(n - 1, env, f, va).After(oa)
         case other => other)
    case _ => Error(CannotEvaluate, [])
  }

  /** Evaluating the function expression of an application whose argument value is known, and the call. */
  function EvaluateAndCall(n: nat, env: Val, f: Val, arg: Val): Outcome
    decreases n, 3
  {
    match Evaluate(n, env, f)
    case Value(vf, of) => Call(n, vf, arg).After(of)
    case other => other
  }

  /** Applying a function value to an argument value. */
  function Call(n: nat, f: Val, arg: Val): Outcome
    decreases n, 2
  {
    match f
    case Func(PrintAtom, _) => if arg.Atom? then Value(Nil, [arg.chars]) else Error(ArgumentNotAnAtom, [])
    case Func(FunApply, Cons(Cons(_, env), Cons(param, body))) =>
      if param.Atom? then Evaluate(n, Cons(Cons(param, arg), env), body) else Error(ParamNotAnAtom, [])
    case Func(FunApply, _) => Error(ConsExpected, [])
    case _ => Error(NotAFunction, [])
  }

  /** Running from 'a' comes to 'b' in k turns. */
  ghost predicate Leads(k: nat, a: State, b: State) {
    WellFormed(a) && WellFormed(b) && forall m: nat | m >= k :: RunFor(m, a) == RunFor(m - k, b)
  }

  /** Running from 'a' fails within k turns. */
  ghost predicate Fails(k: nat, a: State, error: Values.Error, out: seq<string>) {
    WellFormed(a) && forall m: nat | m >= k :: RunFor(m, a) == Failed(error, out)
  }

  lemma LeadsThenLeads(j: nat, k: nat, a: State, b: State, c: State)
    requires Leads(j, a, b) && Leads(k, b, c)
    ensures Leads(j + k, a, c)
  {
    forall m: nat | m >= j + k ensures RunFor(m, a) == RunFor(m - (j + k), c) {
      assert RunFor(m, a) == RunFor(m - j, b);
      assert m - j - k == m - (j + k);
    }
  }

  lemma LeadsThenFails(j: nat, k: nat, a: State, b: State, error: Values.Error, out: seq<string>)
    requires Leads(j, a, b) && Fails(k, b, error, out)
    ensures Fails(j + k, a, error, out)
  {
    forall m: nat | m >= j + k ensures RunFor(m, a) == Failed(error, out) {
      assert RunFor(m, a) == RunFor(m - j, b);
    }
  }

  lemma LeadsToWellFormed(k: nat, a: State, b: State)
    requires Leads(k, a, b)
    ensures WellFormed(a) && WellFormed(b)
  {
  }

  lemma OneTurn(a: State)
    requires WellFormed(a) && a.conts.Cons?
    ensures Callable(a.conts.head, a.(conts := a.conts.tail))
    ensures var r := Apply(a.conts.head, a.(conts := a.conts.tail));
            if r.Success? then Leads(1, a, r.value) else Fails(1, a, r.error, a.out)
  {
    StepIsSafe(a);
  }

  lemma {:induction false} LookupIsAssoc(name: string, env: Val)
    requires IsEnv(env)
    ensures Assoc(name, env) == Success(Lookup(name, env))
    decreases env
  {
    if env != Nil {
      LookupIsAssoc(name, env.tail);
    }
  }

  /** The state in which the evaluation of 'e' is next. */
  function Start(env: Val, e: Val, ops: Val, conts: Val, out: seq<string>): State {
    State(ops, Cons(Func(Eval, Cons(Cons(FORMS, env), e)), conts), out)
  }

  /** The machine does what an evaluation that comes to a result says, on top of any stacks: it leaves the
      value and the output, or fails with the error, and never looks below its own operands. */
  lemma {:induction false} EvaluateIsRun(n: nat, env: Val, e: Val, ops: Val, conts: Val, out: seq<string>)
    returns (k: nat)
    requires WellFormed(Start(env, e, ops, conts, out))
    ensures match Evaluate(n, env, e)
            case Value(v, o) => k >= 1 && Leads(k, Start(env, e, ops, conts, out), State(Cons(v, ops), conts, out + o))
            case Error(x, o) => Fails(k, Start(env, e, ops, conts, out), x, out + o)
            case Timeout => true
    decreases n, 1
  {
    k := 1;
    var a := Start(env, e, ops, conts, out);
    OneTurn(a);
    assert out + [] == out;
    if e.Atom? {
      LookupIsAssoc(e.chars, env);
    } else if e.head == Atom("quote") || e.head == Atom("fun") {
      FormsArePrimitive(e.head.chars);
    } else if n > 0 {
      if e.head.Atom? {
        FormsArePrimitive(e.head.chars);
      }
      k := ApplicationIsRun(n, env, e, ops, conts, out);
    }
  }

  lemma ApplicationIsScheduled(env: Val, e: Val, ops: Val, conts: Val, out: seq<string>)
    requires WellFormed(Start(env, e, ops, conts, out))
    requires e.Cons? && e.head != Atom("quote") && e.head != Atom("fun")
    ensures var c := Cons(Func(Eval, Cons(Cons(FORMS, env), e.head)), Cons(Func(PopApply, Nil), conts));
            Leads(1, Start(env, e, ops, conts, out), Start(env, e.tail, ops, c, out))
  {
    OneTurn(Start(env, e, ops, conts, out));
    if e.head.Atom? {
      FormsArePrimitive(e.head.chars);
    }
  }

  /** The application case: three continuations are pushed, the argument and then the function are
      evaluated on top of them, and the call takes both values off the operand stack. */
  lemma {:induction false} ApplicationIsRun(n: nat, env: Val, e: Val, ops: Val, conts: Val, out: seq<string>)
    returns (k: nat)
    requires WellFormed(Start(env, e, ops, conts, out)) && n > 0
    requires e.Cons? && e.head != Atom("quote") && e.head != Atom("fun")
    ensures match Evaluate(n, env, e)
            case Value(v, o) => k >= 1 && Leads(k, Start(env, e, ops, conts, out), State(Cons(v, ops), conts, out + o))
            case Error(x, o) => Fails(k, Start(env, e, ops, conts, out), x, out + o)
            case Timeout => true
    decreases n, 0
  {
    hide RunFor, Leads, Fails, WellFormed;
    k := 0;
    var a := Start(env, e, ops, conts, out);
    var c1 := Cons(Func(PopApply, Nil), conts);
    var c2 := Cons(Func(Eval, Cons(Cons(FORMS, env), e.head)), c1);
    var b := Start(env, e.tail, ops, c2, out);
    ApplicationIsScheduled(env, e, ops, conts, out);
    LeadsToWellFormed(1, a, b);
    var ka := EvaluateIsRun(n - 1, env, e.tail, ops, c2, out);
    match Evaluate(n - 1, env, e.tail)
    case Timeout =>
    case Error(x, o) =>
      k := 1 + ka;
      LeadsThenFails(1, ka, a, b, x, out + o);
    case Value(va, oa) =>
      var c := Start(env, e.head, Cons(va, ops), c1, out + oa);
      LeadsToWellFormed(ka, b, c);
      LeadsThenLeads(1, ka, a, b, c);
      var kc := EvaluateAndCallIsRun(n - 1, env, e.head, va, ops, conts, out + oa);
      k := 1 + ka + kc;
      match EvaluateAndCall(n - 1, env, e.head, va)
      case Timeout =>
      case Error(x, o) =>
        LeadsThenFails(1 + ka, kc, a, c, x, out + oa + o);
        assert out + oa + o == out + (oa + o);
      case Value(v, o) =>
        LeadsThenLeads(1 + ka, kc, a, c, State(Cons(v, ops), conts, out + oa + o));
        assert out + oa + o == out + (oa + o);
  }

  lemma {:induction false} EvaluateAndCallIsRun(n: nat, env: Val, f: Val, va: Val, ops: Val, conts: Val,
                                                out: seq<string>)
    returns (k: nat)
    requires WellFormed(Start(env, f, Cons(va, ops), Cons(Func(PopApply, Nil), conts), out))
    ensures var c := Start(env, f, Cons(va, ops), Cons(Func(PopApply, Nil), conts), out);
            match EvaluateAndCall(n, env, f, va)
            case Value(v, o) => k >= 1 && Leads(k, c, State(Cons(v, ops), conts, out + o))
            case Error(x, o) => Fails(k, c, x, out + o)
            case Timeout => true
    decreases n, 3
  {
    hide RunFor, Leads, Fails, WellFormed;
    var c1 := Cons(Func(PopApply, Nil), conts);
    var c := Start(env, f, Cons(va, ops), c1, out);
    var kf := EvaluateIsRun(n, env, f, Cons(va, ops), c1, out);
    k := kf;
    match Evaluate(n, env, f)
    case Timeout =>
    case Error(_, _) =>
    case Value(vf, of) =>
      var d := State(Cons(vf, Cons(va, ops)), c1, out + of);
      LeadsToWellFormed(kf, c, d);
      var kc := CallIsRun(n, vf, va, ops, conts, out + of);
      k := kf + kc;
      match Call(n, vf, va)
      case Timeout =>
      case Error(x, o) =>
        LeadsThenFails(kf, kc, c, d, x, out + of + o);
        assert out + of + o == out + (of + o);
      case Value(v, o) =>
        LeadsThenLeads(kf, kc, c, d, State(Cons(v, ops), conts, out + of + o));
        assert out + of + o == out + (of + o);
  }

  /** Calling a closure takes one turn, and its body starts on the continuations that were there when the
      application began: a call in tail position does not make the continuation stack grow. */
  lemma CallIsTailCall(data: Val, arg: Val, ops: Val, conts: Val, out: seq<string>)
    requires WellFormed(State(Cons(Func(FunApply, data), Cons(arg, ops)), Cons(Func(PopApply, Nil), conts), out))
    requires data.Cons? && data.head.Cons? && data.tail.Cons? && data.tail.head.Atom?
    ensures Leads(1, State(Cons(Func(FunApply, data), Cons(arg, ops)), Cons(Func(PopApply, Nil), conts), out),
                  Start(Cons(Cons(data.tail.head, arg), data.head.tail), data.tail.tail, ops, conts, out))
  {
    assert IsThunk(data);
    OneTurn(State(Cons(Func(FunApply, data), Cons(arg, ops)), Cons(Func(PopApply, Nil), conts), out));
  }

  lemma {:induction false} CallIsRun(n: nat, f: Val, arg: Val, ops: Val, conts: Val, out: seq<string>)
    returns (k: nat)
    requires WellFormed(State(Cons(f, Cons(arg, ops)), Cons(Func(PopApply, Nil), conts), out))
    ensures var a := State(Cons(f, Cons(arg, ops)), Cons(Func(PopApply, Nil), conts), out);
            match Call(n, f, arg)
            case Value(v, o) => k >= 1 && Leads(k, a, State(Cons(v, ops), conts, out + o))
            case Error(x, o) => Fails(k, a, x, out + o)
            case Timeout => true
    decreases n, 2
  {
    hide RunFor, Leads, Fails;
    k := 1;
    var a := State(Cons(f, Cons(arg, ops)), Cons(Func(PopApply, Nil), conts), out);
    if f.Func? && f.code == FunApply {
      assert IsThunk(f.data);
    }
    if f.Func? && f.code == FunApply && f.data.tail.Cons? && f.data.tail.head.Atom? {
      var env' := Cons(Cons(f.data.tail.head, arg), f.data.head.tail);
      var b := Start(env', f.data.tail.tail, ops, conts, out);
      CallIsTailCall(f.data, arg, ops, conts, out);
      LeadsToWellFormed(1, a, b);
      var kb := EvaluateIsRun(n, env', f.data.tail.tail, ops, conts, out);
      k := 1 + kb;
      match Evaluate(n, env', f.data.tail.tail)
      case Timeout =>
      case Error(x, o) => LeadsThenFails(1, kb, a, b, x, out + o);
      case Value(v, o) => LeadsThenLeads(1, kb, a, b, State(Cons(v, ops), conts, out + o));
    } else {
      OneTurn(a);
      assert out + [] == out;
    }
  }

  /** From the start of an application of a closure to the start of its body, on the same stacks. */
  lemma ApplicationIsTailCall(n: nat, env: Val, e: Val, ops: Val, conts: Val, out: seq<string>, va: Val,
                              oa: seq<string>, data: Val, of: seq<string>)
    returns (k: nat)
    requires WellFormed(Start(env, e, ops, conts, out))
    requires e.Cons? && e.head != Atom("quote") && e.head != Atom("fun")
    requires Evaluate(n, env, e.tail) == Value(va, oa)
    requires Evaluate(n, env, e.head) == Value(Func(FunApply, data), of)
    requires data.Cons? && data.head.Cons? && data.tail.Cons? && data.tail.head.Atom?
    ensures Leads(k, Start(env, e, ops, conts, out),
                  Start(Cons(Cons(data.tail.head, va), data.head.tail), data.tail.tail, ops, conts, out + oa + of))
  {
    hide RunFor, Evaluate;
    var a := Start(env, e, ops, conts, out);
    var c1 := Cons(Func(PopApply, Nil), conts);
    var b := Start(env, e.tail, ops, Cons(Func(Eval, Cons(Cons(FORMS, env), e.head)), c1), out);
    ApplicationIsScheduled(env, e, ops, conts, out);
    var ka := EvaluateIsRun(n, env, e.tail, ops, b.conts.tail, out);
    var c := Start(env, e.head, Cons(va, ops), c1, out + oa);
    LeadsThenLeads(1, ka, a, b, c);
    var kf := EvaluateIsRun(n, env, e.head, Cons(va, ops), c1, out + oa);
    var d := State(Cons(Func(FunApply, data), Cons(va, ops)), c1, out + oa + of);
    LeadsThenLeads(1 + ka, kf, a, c, d);
    CallIsTailCall(data, va, ops, conts, out + oa + of);
    k := 1 + ka + kf + 1;
    LeadsThenLeads(1 + ka + kf, 1, a, d,
                   Start(Cons(Cons(data.tail.head, va), data.head.tail), data.tail.tail, ops, conts, out + oa + of));
  }

  /** A run that has stopped stays as it is. */
  lemma {:induction false} StoppedStays(n: nat, m: nat, st: State)
    requires WellFormed(st) && n <= m && !RunFor(n, st).Running?
    ensures RunFor(m, st) == RunFor(n, st)
    decreases n
  {
    if st.conts.Cons? && n > 0 {
      StepIsSafe(st);
      var r := Apply(st.conts.head, st.(conts := st.conts.tail));
      if r.Success? {
        StoppedStays(n - 1, m - 1, r.value);
      }
    }
  }

  /** If evaluation needs more than depth n, the machine needs more than n turns. */
  lemma {:induction false} TimeoutIsRunning(n: nat, env: Val, e: Val, ops: Val, conts: Val, out: seq<string>)
    requires WellFormed(Start(env, e, ops, conts, out)) && Evaluate(n, env, e) == Timeout
    ensures RunFor(n, Start(env, e, ops, conts, out)).Running?
    decreases n, 1
  {
    if n > 0 {
      hide RunFor, Leads;
      var k := ApplicationTimeout(n, env, e, ops, conts, out);
      if !RunFor(n, Start(env, e, ops, conts, out)).Running? {
        StoppedStays(n, k, Start(env, e, ops, conts, out));
      }
    }
  }

  lemma {:induction false} ApplicationTimeout(n: nat, env: Val, e: Val, ops: Val, conts: Val, out: seq<string>)
    returns (k: nat)
    requires WellFormed(Start(env, e, ops, conts, out)) && Evaluate(n, env, e) == Timeout && n > 0
    ensures k >= n && RunFor(k, Start(env, e, ops, conts, out)).Running?
    decreases n, 0
  {
    hide RunFor, WellFormed;
    var a := Start(env, e, ops, conts, out);
    var c1 := Cons(Func(PopApply, Nil), conts);
    var c2 := Cons(Func(Eval, Cons(Cons(FORMS, env), e.head)), c1);
    var b := Start(env, e.tail, ops, c2, out);
    ApplicationIsScheduled(env, e, ops, conts, out);
    var ra := Evaluate(n - 1, env, e.tail);
    if ra.Timeout? {
      TimeoutIsRunning(n - 1, env, e.tail, ops, c2, out);
      return n;
    }
    var ka := EvaluateIsRun(n - 1, env, e.tail, ops, c2, out);
    var c := Start(env, e.head, Cons(ra.val, ops), c1, out + ra.out);
    LeadsThenLeads(1, ka, a, b, c);
    var rf := Evaluate(n - 1, env, e.head);
    if rf.Timeout? {
      TimeoutIsRunning(n - 1, env, e.head, Cons(ra.val, ops), c1, out + ra.out);
      return 1 + ka + (n - 1);
    }
    var kf := EvaluateIsRun(n - 1, env, e.head, Cons(ra.val, ops), c1, out + ra.out);
    var d := State(Cons(rf.val, Cons(ra.val, ops)), c1, out + ra.out + rf.out);
    LeadsThenLeads(1 + ka, kf, a, c, d);
    assert EvaluateAndCall(n - 1, env, e.head, ra.val) == Timeout;
    assert Call(n - 1, rf.val, ra.val) == Timeout;
    var data := rf.val.data;
    var env', body := Cons(Cons(data.tail.head, ra.val), data.head.tail), data.tail.tail;
    var f := Start(env', body, ops, conts, d.out);
    CallIsTailCall(data, ra.val, ops, conts, d.out);
    LeadsThenLeads(1 + ka + kf, 1, a, d, f);
    TimeoutIsRunning(n - 1, env', body, ops, conts, d.out);
    return 1 + ka + kf + 1 + (n - 1);
  }

  /** The machine computes evaluation, in both directions: from an expression on empty stacks it halts with
      a value and an output exactly when evaluation, given enough depth, yields them. */
  lemma MachineHaltsIffEvaluates(env: Val, e: Val, v: Val, out: seq<string>, o: seq<string>)
    requires IsEnv(env) && IsExpr(e)
    ensures (exists n: nat :: RunFor(n, Start(env, e, Nil, Nil, out)) == Halted(State(Cons(v, Nil), Nil, out + o)))
       <==> (exists n: nat :: Evaluate(n, env, e) == Value(v, o))
  {
    if n: nat :| RunFor(n, Start(env, e, Nil, Nil, out)) == Halted(State(Cons(v, Nil), Nil, out + o)) {
      RunDecidesEvaluation(n, env, e, out);
      var r := Evaluate(n, env, e);
      assert (out + o)[|out|..] == o && (out + r.out)[|out|..] == r.out;
      assert Evaluate(n, env, e) == Value(v, o);
    }
    if n: nat :| Evaluate(n, env, e) == Value(v, o) {
      var k := EvaluateIsRun(n, env, e, Nil, Nil, out);
      assert RunFor(k, Start(env, e, Nil, Nil, out)) == Halted(State(Cons(v, Nil), Nil, out + o));
    }
  }

  /** Likewise for errors of the interpreted program. */
  lemma MachineFailsIffEvaluationFails(env: Val, e: Val, x: Values.Error, out: seq<string>, o: seq<string>)
    requires IsEnv(env) && IsExpr(e)
    ensures (exists n: nat :: RunFor(n, Start(env, e, Nil, Nil, out)) == Failed(x, out + o))
       <==> (exists n: nat :: Evaluate(n, env, e) == Error(x, o))
  {
    if n: nat :| RunFor(n, Start(env, e, Nil, Nil, out)) == Failed(x, out + o) {
      RunDecidesEvaluation(n, env, e, out);
      var r := Evaluate(n, env, e);
      assert (out + o)[|out|..] == o && (out + r.out)[|out|..] == r.out;
      assert Evaluate(n, env, e) == Error(x, o);
    }
    if n: nat :| Evaluate(n, env, e) == Error(x, o) {
      var k := EvaluateIsRun(n, env, e, Nil, Nil, out);
      assert RunFor(k, Start(env, e, Nil, Nil, out)) == Failed(x, out + o);
    }
  }

  /** A run that has stopped within n turns shows the outcome at depth n. */
  lemma RunDecidesEvaluation(n: nat, env: Val, e: Val, out: seq<string>)
    requires IsEnv(env) && IsExpr(e)
    ensures WellFormed(Start(env, e, Nil, Nil, out))
    ensures match RunFor(n, Start(env, e, Nil, Nil, out))
            case Running(_) => true
            case Halted(st) => Evaluate(n, env, e).Value?
                               && st == State(Cons(Evaluate(n, env, e).val, Nil), Nil, out + Evaluate(n, env, e).out)
            case Failed(x, o) => Evaluate(n, env, e).Error?
                                 && x == Evaluate(n, env, e).error && o == out + Evaluate(n, env, e).out
  {
    var a := Start(env, e, Nil, Nil, out);
    assert Fits(Nil, 1);
    if !RunFor(n, a).Running? {
      if Evaluate(n, env, e) == Timeout {
        TimeoutIsRunning(n, env, e, Nil, Nil, out);
      }
      var k := EvaluateIsRun(n, env, e, Nil, Nil, out);
      var m := n + k;
      StoppedStays(n, m, a);
      match Evaluate(n, env, e)
      case Value(v, o) => assert RunFor(m, a) == RunFor(m - k, State(Cons(v, Nil), Nil, out + o));
      case Error(x, o) => assert RunFor(m, a) == Failed(x, out + o);
    }
  }

  /** The run of a whole program, from empty stacks and the built-in environment. */
  function RunProgram(n: nat, e: Val, out: seq<string>): Run
    requires IsExpr(e)
  {
    ProgramIsWellFormed(e, out);
    RunFor(n, Start(ENV, e, Nil, Nil, out))
  }

  lemma ProgramIsWellFormed(e: Val, out: seq<string>)
    requires IsExpr(e)
    ensures WellFormed(Start(ENV, e, Nil, Nil, out))
  {
    assert Fits(Nil, 1);
    assert IsValue(Func(PrintAtom, Nil));
  }

  /** A program computed 'v' and printed what lies between 'before' and 'after'. */
  ghost predicate Computes(n: nat, e: Val, v: Val, before: seq<string>, after: seq<string>) {
    before <= after && Evaluate(n, ENV, e) == Value(v, after[|before|..])
  }

  /** A program failed after printing what lies between 'before' and 'after'. */
  ghost predicate Stops(n: nat, e: Val, error: Values.Error, before: seq<string>, after: seq<string>) {
    before <= after && Evaluate(n, ENV, e) == Error(error, after[|before|..])
  }

  lemma RunProgramDecides(n: nat, e: Val, out: seq<string>)
    requires IsExpr(e)
    ensures RunProgram(n, e, out).Halted? ==>
              && RunProgram(n, e, out).st.conts == Nil && RunProgram(n, e, out).st.ops.Cons?
              && RunProgram(n, e, out).st.ops.tail == Nil
              && Computes(n, e, RunProgram(n, e, out).st.ops.head, out, RunProgram(n, e, out).st.out)
    ensures RunProgram(n, e, out).Failed? ==>
              Stops(n, e, RunProgram(n, e, out).error, out, RunProgram(n, e, out).out)
    ensures out <= OutputOf(RunProgram(n, e, out))
  {
    ProgramIsWellFormed(e, out);
    assert IsEnv(ENV) by { assert IsValue(Func(PrintAtom, Nil)); }
    RunDecidesEvaluation(n, ENV, e, out);
    OutputGrows(n, Start(ENV, e, Nil, Nil, out));
    var r := Evaluate(n, ENV, e);
    if !r.Timeout? {
      assert (out + r.out)[|out|..] == r.out;
    }
  }

  /** Once the depth suffices, more depth changes nothing. */
  lemma {:induction false} DepthDoesNotMatter(n: nat, m: nat, env: Val, e: Val)
    requires n <= m && Evaluate(n, env, e) != Timeout
    ensures Evaluate(m, env, e) == Evaluate(n, env, e)
    decreases n, 1
  {
    if e.Cons? && e.head != Atom("quote") && e.head != Atom("fun") {
      DepthDoesNotMatter(n - 1, m - 1, env, e.tail);
      if Evaluate(n - 1, env, e.tail).Value? {
        DepthDoesNotMatterToCall(n - 1, m - 1, env, e.head, Evaluate(n - 1, env, e.tail).val);
      }
    }
  }

  lemma {:induction false} DepthDoesNotMatterToCall(n: nat, m: nat, env: Val, f: Val, arg: Val)
    requires n <= m && EvaluateAndCall(n, env, f, arg) != Timeout
    ensures EvaluateAndCall(m, env, f, arg) == EvaluateAndCall(n, env, f, arg)
    decreases n, 3
  {
    DepthDoesNotMatter(n, m, env, f);
    match Evaluate(n, env, f)
    case Value(Func(FunApply, Cons(Cons(_, env'), Cons(Atom(param), body))), _) =>
      DepthDoesNotMatter(n, m, Cons(Cons(Atom(param), arg), env'), body);
    case _ =>
  }

  /** The errors of evaluation are faults of the program. */
  lemma {:induction false} ErrorsAreFaults(n: nat, env: Val, e: Val)
    ensures Evaluate(n, env, e).Error? ==> Evaluate(n, env, e).error != ObjectLimit
    decreases n, 1
  {
    if n > 0 && e.Cons? && e.head != Atom("quote") && e.head != Atom("fun") {
      ErrorsAreFaults(n - 1, env, e.tail);
      if Evaluate(n - 1, env, e.tail).Value? {
        ErrorsOfCallAreFaults(n - 1, env, e.head, Evaluate(n - 1, env, e.tail).val);
      }
    }
  }

  lemma {:induction false} ErrorsOfCallAreFaults(n: nat, env: Val, f: Val, arg: Val)
    ensures EvaluateAndCall(n, env, f, arg).Error? ==> EvaluateAndCall(n, env, f, arg).error != ObjectLimit
    decreases n, 3
  {
    ErrorsAreFaults(n, env, f);
    match Evaluate(n, env, f)
    case Value(Func(FunApply, Cons(Cons(_, env'), Cons(Atom(param), body))), _) =>
      ErrorsAreFaults(n, Cons(Cons(Atom(param), arg), env'), body);
    case _ =>
  }

  /** A program computes one value and prints one output, however deep its evaluation is allowed to be. */
  lemma ComputesAgree(n: nat, m: nat, e: Val, v: Val, w: Val, before: seq<string>, after: seq<string>,
                      before': seq<string>, after': seq<string>)
    requires Computes(n, e, v, before, after) && Computes(m, e, w, before', after')
    ensures v == w && after[|before|..] == after'[|before'|..]
  {
    if n <= m {
      DepthDoesNotMatter(n, m, ENV, e);
    } else {
      DepthDoesNotMatter(m, n, ENV, e);
    }
  }
}
