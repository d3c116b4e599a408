/** The two programs in the header of gcl.c, and of rcl.c: one prints an atom, the other one prints for ever without
    needing more and more memory for its stacks. */
module HeaderExamples {
  import opened Basics
  import opened Values
  import opened Syntax
  import M = Machine
  import B = BigStep
  import S = Sessions

  const QUOTE_ATOM := Symbol("quote")
  const PRINT := Symbol("print_atom")
  const FUN := Symbol("fun")
  const ITER := Symbol("iter")

  /** (print_atom (quote Hello_world!)) */
  const FIRST: seq<Token> := [LParen, PRINT, LParen, QUOTE_ATOM, Symbol("Hello_world!"), RParen, RParen]

  lemma FirstExample()
    ensures S.Programs(1, FIRST) == S.AllDone(["Hello_world!"], [])
  {
    var arg := Cons(Atom("quote"), Atom("Hello_world!"));
    var e := Cons(Atom("print_atom"), arg);
    assert Print(arg) == [LParen, QUOTE_ATOM, Symbol("Hello_world!"), RParen];
    assert FIRST == Print(e) + [];
    ParsePrinted(e, []);
    S.AtomIsPrinted("Hello_world!");
    assert S.Programs(0, []) == S.AllDone([], []);
  }

  /** (iter iter) */
  const CALL: Val := Cons(Atom("iter"), Atom("iter"))

  /** ((fun (v (iter iter))) (print_atom (quote Hello))) */
  const BODY: Val :=
    Cons(Cons(Atom("fun"), Cons(Atom("v"), CALL)), Cons(Atom("print_atom"), Cons(Atom("quote"), Atom("Hello"))))

  /** ((fun (iter (iter iter))) (fun (iter BODY))) */
  const SECOND: Val := Cons(Cons(Atom("fun"), Cons(Atom("iter"), CALL)), Cons(Atom("fun"), Cons(Atom("iter"), BODY)))

  const CLOSURE: Val := Func(FunApply, Cons(Cons(M.FORMS, M.ENV), Cons(Atom("iter"), BODY)))

  /** The environment in which the body is evaluated in every turn. */
  const INNER: Val := Cons(Cons(Atom("iter"), CLOSURE), M.ENV)

  function Hellos(j: nat): seq<string> {
    seq(j, _ => "Hello")
  }

  /** One turn: from the body to the body, with one more "Hello" and with the same stacks. */
  lemma OneHello(ops: Val, conts: Val, out: seq<string>) returns (k: nat)
    requires M.WellFormed(B.Start(INNER, BODY, ops, conts, out))
    ensures B.Leads(k, B.Start(INNER, BODY, ops, conts, out), B.Start(INNER, BODY, ops, conts, out + ["Hello"]))
  {
    hide B.Leads, M.WellFormed;
    var afterPrint := Cons(Cons(Atom("v"), Nil), INNER);
    var thunk := Cons(Cons(M.FORMS, INNER), Cons(Atom("v"), CALL));
    HelloIsPrinted();
    var a := B.Start(INNER, BODY, ops, conts, out);
    var k1 := B.ApplicationIsTailCall(1, INNER, BODY, ops, conts, out, Nil, ["Hello"], thunk, []);
    assert out + ["Hello"] + [] == out + ["Hello"];
    var b := B.Start(afterPrint, CALL, ops, conts, out + ["Hello"]);
    B.LeadsToWellFormed(k1, a, b);
    IterIsBound();
    var k2 := CallIter(afterPrint, ops, conts, out + ["Hello"]);
    k := k1 + k2;
    B.LeadsThenLeads(k1, k2, a, b, B.Start(INNER, BODY, ops, conts, out + ["Hello"]));
  }

  lemma HelloIsPrinted()
    ensures B.Evaluate(1, INNER, BODY.tail) == B.Value(Nil, ["Hello"])
  {
    assert B.Lookup("print_atom", M.ENV) == Some(Func(PrintAtom, Nil));
    assert B.Lookup("print_atom", INNER) == Some(Func(PrintAtom, Nil));
  }

  lemma IterIsBound()
    ensures B.Lookup("iter", INNER) == Some(CLOSURE)
    ensures B.Lookup("iter", Cons(Cons(Atom("v"), Nil), INNER)) == Some(CLOSURE)
  {
  }

  lemma CallIter(env: Val, ops: Val, conts: Val, out: seq<string>) returns (k: nat)
    requires B.Lookup("iter", env) == Some(CLOSURE) && M.WellFormed(B.Start(env, CALL, ops, conts, out))
    ensures B.Leads(k, B.Start(env, CALL, ops, conts, out), B.Start(INNER, BODY, ops, conts, out))
  {
    hide B.Leads, M.WellFormed;
    assert B.Evaluate(1, env, Atom("iter")) == B.Value(CLOSURE, []);
    k := B.ApplicationIsTailCall(1, env, CALL, ops, conts, out, CLOSURE, [], CLOSURE.data, []);
    assert out + [] + [] == out;
  }

  /** From the start of the program to its body. */
  lemma BodyIsReached() returns (k: nat)
    ensures M.WellFormed(B.Start(M.ENV, SECOND, Nil, Nil, []))
    ensures B.Leads(k, B.Start(M.ENV, SECOND, Nil, Nil, []), B.Start(INNER, BODY, Nil, Nil, []))
  {
    hide B.Leads, M.WellFormed;
    assert M.IsExpr(SECOND);
    B.ProgramIsWellFormed(SECOND, []);
    var thunk := Cons(Cons(M.FORMS, M.ENV), Cons(Atom("iter"), CALL));
    assert B.Evaluate(1, M.ENV, SECOND.tail) == B.Value(CLOSURE, []);
    assert B.Evaluate(1, M.ENV, SECOND.head) == B.Value(Func(FunApply, thunk), []);
    var a, b := B.Start(M.ENV, SECOND, Nil, Nil, []), B.Start(INNER, CALL, Nil, Nil, []);
    var nothing: seq<string> := [];
    assert nothing + [] + [] == nothing;
    var k1 := B.ApplicationIsTailCall(1, M.ENV, SECOND, Nil, Nil, nothing, CLOSURE, [], thunk, []);
    B.LeadsToWellFormed(k1, a, b);
    IterIsBound();
    var k2 := CallIter(INNER, Nil, Nil, []);
    k := k1 + k2;
    B.LeadsThenLeads(k1, k2, a, b, B.Start(INNER, BODY, Nil, Nil, []));
  }

  /** The second program prints "Hello" any number of times, and between two times there is one continuation and no
      operand: tail calls do not make the stacks grow. */
  lemma {:induction false} HelloAgain(j: nat) returns (n: nat)
    ensures M.WellFormed(B.Start(M.ENV, SECOND, Nil, Nil, []))
    ensures B.Leads(n, B.Start(M.ENV, SECOND, Nil, Nil, []), B.Start(INNER, BODY, Nil, Nil, Hellos(j)))
    decreases j
  {
    hide B.Leads, M.WellFormed;
    if j == 0 {
      n := BodyIsReached();
    } else {
      var a, b := B.Start(M.ENV, SECOND, Nil, Nil, []), B.Start(INNER, BODY, Nil, Nil, Hellos(j - 1));
      var before := HelloAgain(j - 1);
      B.LeadsToWellFormed(before, a, b);
      var k := OneHello(Nil, Nil, Hellos(j - 1));
      assert Hellos(j) == Hellos(j - 1) + ["Hello"];
      n := before + k;
      B.LeadsThenLeads(before, k, a, b, B.Start(INNER, BODY, Nil, Nil, Hellos(j)));
    }
  }

  lemma SecondExample(j: nat) returns (n: nat)
    ensures M.IsExpr(SECOND)
    ensures B.RunProgram(n, SECOND, []) == M.Running(B.Start(INNER, BODY, Nil, Nil, Hellos(j)))
  {
    n := HelloAgain(j);
    assert M.IsExpr(SECOND);
    var b := B.Start(INNER, BODY, Nil, Nil, Hellos(j));
    assert M.RunFor(n, B.Start(M.ENV, SECOND, Nil, Nil, [])) == M.RunFor(n - n, b);
  }

  lemma LongerIsNoPrefix(a: seq<string>, b: seq<string>)
    requires |a| > |b|
    ensures !(a <= b)
  {
  }

  /** Its evaluation does not end. */
  lemma SecondDoesNotEnd()
    ensures S.Meaning(SECOND) == B.Timeout
  {
    hide M.WellFormed, S.Meaning, B.RunProgram;
    if S.Meaning(SECOND) != B.Timeout {
      var o := S.Meaning(SECOND).out;
      var n := SecondExample(|o| + 1);
      LongerIsNoPrefix(Hellos(|o| + 1), [] + o);
      S.PartIsPrefix(n, SECOND, []);
    }
  }
}
