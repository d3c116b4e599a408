/** The evaluator of gcl.c (and rcl.c) on values: one turn of its main loop as a function from an operand
    stack, a continuation stack and the output so far to the next ones. */
module Machine {
  import opened Basics
  import opened Values

  /** Both stacks are lists of cons values, as they are in the program. */
  datatype State = State(ops: Val, conts: Val, out: seq<string>)

  const FORMS: Val :=
    Cons(Cons(Atom("fun"), Func(Fun, Nil)), Cons(Cons(Atom("quote"), Func(Quote, Nil)), Nil))

  const ENV: Val := Cons(Cons(Atom("print_atom"), Func(PrintAtom, Nil)), Nil)

  function Destruct(v: Val): Result<(Val, Val)> {
    if v.Cons? then Success((v.head, v.tail)) else Failure(ConsExpected)
  }

  /** The entry of an association list whose key has the given characters. */
  function Assoc(key: string, entries: Val): Result<Option<Val>> {
    if entries == Nil then Success(None)
    else
      var (first, rest) :- Destruct(entries);
      var (entryHead, entryTail) :- Destruct(first);
      if !entryHead.Atom? then Failure(AtomsExpected)
      else if entryHead.chars == key then Success(Some(entryTail))
      else Assoc(key, rest)
  }

  function Pop(st: State): Result<(Val, State)> {
    match st.ops
    case Cons(v, rest) => Success((v, st.(ops := rest)))
    case _ => Failure(StackUnderflow)
  }

  function Push(v: Val, st: State): State {
    st.(ops := Cons(v, st.ops))
  }

  function PushCont(code: Code, data: Val, st: State): State {
    st.(conts := Cons(Func(code, data), st.conts))
  }

  function PrintStep(st: State): Result<State> {
    var (arg, st1) :- Pop(st);
    if !arg.Atom? then Failure(ArgumentNotAnAtom)
    else Success(Push(Nil, st1.(out := st1.out + [arg.chars])))
  }

  function QuoteStep(st: State): Result<State> {
    var (arg, st1) :- Pop(st);
    var (_, body) :- Destruct(arg);
    Success(Push(body, st1))
  }

  function FunStep(st: State): Result<State> {
    var (arg, st1) :- Pop(st);
    Success(Push(Func(FunApply, arg), st1))
  }

  function FunApplyStep(data: Val, st: State): Result<State> {
    var (arg, st1) :- Pop(st);
    var (envs, expr) :- Destruct(data);
    var (forms, env) :- Destruct(envs);
    var (param, body) :- Destruct(expr);
    if !param.Atom? then Failure(ParamNotAnAtom)
    else Success(PushCont(Eval, Cons(Cons(forms, Cons(Cons(param, arg), env)), body), st1))
  }

  /** Functions whose application does not apply another function. */
  predicate Primitive(f: Val) {
    f.Func? ==> f.code != PopApply && f.code != Eval
  }

  function ApplyPrimitive(f: Val, st: State): Result<State>
    requires Primitive(f)
  {
    match f
    case Func(PrintAtom, _) => PrintStep(st)
    case Func(Quote, _) => QuoteStep(st)
    case Func(Fun, _) => FunStep(st)
    case Func(FunApply, data) => FunApplyStep(data, st)
    case _ => Failure(NotAFunction)
  }

  /** Expressions, as the parser builds them. */
  predicate IsExpr(e: Val) {
    match e
    case Atom(_) => true
    case Cons(f, a) => IsExpr(f) && IsExpr(a)
    case _ => false
  }

  /** What a program can compute: the result of a print, quoted expressions, print_atom and closures. */
  predicate IsValue(v: Val) {
    match v
    case Nil => true
    case Atom(_) => true
    case Cons(_, _) => IsExpr(v)
    case Func(PrintAtom, data) => data == Nil
    case Func(FunApply, data) => IsThunk(data)
    case Func(_, _) => false
  }

  predicate IsEnv(env: Val) {
    match env
    case Nil => true
    case Cons(Cons(Atom(_), v), rest) => IsValue(v) && IsEnv(rest)
    case _ => false
  }

  /** An expression with the forms and the environment to evaluate it in. */
  predicate IsThunk(data: Val) {
    match data
    case Cons(Cons(forms, env), expr) => forms == FORMS && IsEnv(env) && IsExpr(expr)
    case _ => false
  }

  predicate IsOps(ops: Val) {
    match ops
    case Nil => true
    case Cons(v, rest) => IsValue(v) && IsOps(rest)
    case _ => false
  }

  function Depth(stack: Val): nat {
    if stack.Cons? then 1 + Depth(stack.tail) else 0
  }

  /** The continuations never run out of operands, and leave exactly one. */
  predicate Fits(conts: Val, depth: nat) {
    match conts
    case Nil => depth == 1
    case Cons(Func(Eval, data), rest) => IsThunk(data) && Fits(rest, depth + 1)
    case Cons(Func(PopApply, data), rest) => data == Nil && depth >= 2 && Fits(rest, depth - 1)
    case _ => false
  }

  /** The states that occur between two turns of the main loop. */
  predicate WellFormed(st: State) {
    IsOps(st.ops) && Fits(st.conts, Depth(st.ops))
  }

  /** If the expression is the use of a form, the form is one whose application applies nothing else. */
  predicate EvalReady(data: Val) {
    match data
    case Cons(Cons(forms, _), Cons(Atom(name), _)) =>
      (match Assoc(name, forms)
       case Success(Some(form)) => Primitive(form)
       case _ => true)
    case _ => true
  }

  /** Evaluating an expression: look up an atom, apply a form, or schedule argument, function and call. */
  function EvalStep(data: Val, st: State): Result<State>
    requires EvalReady(data)
  {
    var (envs, expr) :- Destruct(data);
    var (forms, env) :- Destruct(envs);
    match expr
    case Atom(name) =>
      var value :- Assoc(name, env);
      if value == None then Failure(NoSuchBinding) else Success(Push(value.value, st))
    case Cons(fExpr, argExpr) =>
      var form :- if fExpr.Atom? then Assoc(fExpr.chars, forms) else Success(None);
      if form.Some? then
        ApplyPrimitive(form.value, Push(Cons(envs, argExpr), st))
      else
        Success(PushCont(Eval, Cons(envs, argExpr),
                         PushCont(Eval, Cons(envs, fExpr),
                                  PushCont(PopApply, Nil, st))))
    case _ => Failure(CannotEvaluate)
  }

  lemma FormsArePrimitive(key: string)
    ensures Assoc(key, FORMS).Success?
    ensures Assoc(key, FORMS).value ==
            if key == "fun" then Some(Func(Fun, Nil)) else if key == "quote" then Some(Func(Quote, Nil)) else None
  {
    assert Assoc(key, FORMS.tail.tail) == Success(None);
    assert Assoc(key, FORMS.tail) == if key == "quote" then Success(Some(Func(Quote, Nil))) else Success(None);
  }

  lemma ThunkIsReady(data: Val)
    requires IsThunk(data)
    ensures EvalReady(data)
  {
    if data.tail.Cons? && data.tail.head.Atom? {
      FormsArePrimitive(data.tail.head.chars);
    }
  }

  /** When a function may be applied without the program applying functions more than twice in a row. */
  predicate Callable(f: Val, st: State) {
    f.Func? ==>
      && (f.code == Eval ==> EvalReady(f.data))
      && (f.code == PopApply ==> st.ops.Cons? ==> Primitive(st.ops.head))
  }

  function Apply(f: Val, st: State): Result<State>
    requires Callable(f, st)
  {
    match f
    case Func(Eval, data) => EvalStep(data, st)
    case Func(PopApply, _) =>
      var (g, st1) :- Pop(st);
      ApplyPrimitive(g, st1)
    case _ => ApplyPrimitive(f, st)
  }

  lemma WellFormedIsCallable(st: State)
    requires WellFormed(st) && st.conts.Cons?
    ensures Callable(st.conts.head, st.(conts := st.conts.tail))
  {
    if st.conts.head.code == Eval {
      ThunkIsReady(st.conts.head.data);
    }
  }

  /** Looking a name up in an environment cannot go wrong, only find nothing. */
  lemma {:induction false} EnvLookup(name: string, env: Val)
    requires IsEnv(env)
    ensures Assoc(name, env).Success?
    ensures Assoc(name, env).value.Some? ==> IsValue(Assoc(name, env).value.value)
    decreases env
  {
    if env != Nil && env.head.head.chars != name {
      EnvLookup(name, env.tail);
    }
  }

  /** One turn of the main loop: the errors that remain are faults of the interpreted program. Operands
      never run out, no list is malformed except the argument of 'fun', and keys are always atoms. */
  lemma StepIsSafe(st: State)
    requires WellFormed(st) && st.conts.Cons?
    ensures Callable(st.conts.head, st.(conts := st.conts.tail))
    ensures var r := Apply(st.conts.head, st.(conts := st.conts.tail));
            if r.Success? then WellFormed(r.value)
            else r.error in {NoSuchBinding, NotAFunction, ArgumentNotAnAtom, ParamNotAnAtom, ConsExpected}
  {
    WellFormedIsCallable(st);
    var f, st0 := st.conts.head, st.(conts := st.conts.tail);
    if f.code == Eval {
      EvalStepIsSafe(f.data, st0);
    } else {
      PopApplyIsSafe(st0);
    }
  }

  lemma EvalStepIsSafe(data: Val, st: State)
    requires IsThunk(data) && IsOps(st.ops) && Fits(st.conts, Depth(st.ops) + 1)
    ensures EvalReady(data)
    ensures var r := EvalStep(data, st); if r.Success? then WellFormed(r.value) else r.error == NoSuchBinding
  {
    ThunkIsReady(data);
    if data.tail.Atom? {
      EnvLookup(data.tail.chars, data.head.tail);
    } else {
      PairStepIsSafe(data, st);
    }
  }

  /** What evaluating a pair does, by its head. */
  lemma PairSteps(env: Val, fExpr: Val, argExpr: Val, st: State)
    requires EvalReady(Cons(Cons(FORMS, env), Cons(fExpr, argExpr)))
    ensures EvalStep(Cons(Cons(FORMS, env), Cons(fExpr, argExpr)), st) ==
            var envs := Cons(FORMS, env);
            if fExpr == Atom("quote") then Success(Push(argExpr, st))
            else if fExpr == Atom("fun") then Success(Push(Func(FunApply, Cons(envs, argExpr)), st))
            else
              Success(PushCont(Eval, Cons(envs, argExpr),
                               PushCont(Eval, Cons(envs, fExpr), PushCont(PopApply, Nil, st))))
  {
    hide Assoc;
    if fExpr.Atom? {
      FormsArePrimitive(fExpr.chars);
    }
  }

  lemma PairStepIsSafe(data: Val, st: State)
    requires IsThunk(data) && IsOps(st.ops) && Fits(st.conts, Depth(st.ops) + 1) && data.tail.Cons? && EvalReady(data)
    ensures var r := EvalStep(data, st); r.Success? && WellFormed(r.value)
  {
    hide Assoc, EvalReady, EvalStep, FORMS;
    var envs, fExpr, argExpr := data.head, data.tail.head, data.tail.tail;
    PairSteps(envs.tail, fExpr, argExpr, st);
    assert IsThunk(Cons(envs, fExpr)) && IsThunk(Cons(envs, argExpr));
    assert IsValue(argExpr) && IsValue(Func(FunApply, Cons(envs, argExpr)));
    var d := Depth(st.ops);
    var c1 := Cons(Func(PopApply, Nil), st.conts);
    assert Fits(c1, d + 2);
    assert Fits(Cons(Func(Eval, Cons(envs, fExpr)), c1), d + 1);
  }

  lemma PopApplyIsSafe(st: State)
    requires IsOps(st.ops) && Depth(st.ops) >= 2 && Fits(st.conts, Depth(st.ops) - 1)
    ensures Callable(Func(PopApply, Nil), st)
    ensures var r := Apply(Func(PopApply, Nil), st);
            if r.Success? then WellFormed(r.value)
            else r.error in {NotAFunction, ArgumentNotAnAtom, ParamNotAnAtom, ConsExpected}
  {
    var g, arg, rest := st.ops.head, st.ops.tail.head, st.ops.tail.tail;
    assert IsValue(g) && IsValue(arg) && IsOps(rest) && Depth(st.ops) == Depth(rest) + 2;
    if g.Func? && g.code == FunApply {
      assert IsThunk(g.data);
      var envs, expr := g.data.head, g.data.tail;
      if expr.Cons? && expr.head.Atom? {
        var env' := Cons(Cons(expr.head, arg), envs.tail);
        assert IsEnv(env');
        assert IsThunk(Cons(Cons(FORMS, env'), expr.tail));
      }
    }
  }

  /** What a bounded number of turns of the main loop leads to. */
  datatype Run = Running(st: State) | Halted(st: State) | Failed(error: Error, out: seq<string>)

  function RunFor(n: nat, st: State): Run
    requires WellFormed(st)
  {
    if !st.conts.Cons? then Halted(st)
    else if n == 0 then Running(st)
    else
      StepIsSafe(st);
      match Apply(st.conts.head, st.(conts := st.conts.tail))
      case Success(st') => RunFor(n - 1, st')
      case Failure(e) => Failed(e, st.out)
  }

  function OutputOf(r: Run): seq<string> {
    match r
    case Running(st) => st.out
    case Halted(st) => st.out
    case Failed(_, out) => out
  }

  /** What has been printed stays printed. */
  lemma {:induction false} OutputGrows(n: nat, st: State)
    requires WellFormed(st)
    ensures st.out <= OutputOf(RunFor(n, st))
    decreases n
  {
    if st.conts.Cons? && n > 0 {
      StepIsSafe(st);
      var r := Apply(st.conts.head, st.(conts := st.conts.tail));
      if r.Success? {
        OutputGrows(n - 1, r.value);
      }
    }
  }
}
