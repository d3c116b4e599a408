/** The interpreter of gcl.c on the garbage-collected heap. Every function is proved to do to the values of
    its data structures what the machine on values does, whatever collections its allocations cause. */
module Interpreter {
  import opened Basics
  import opened Values
  import opened Objects
  import opened Sweeping
  import opened Collector
  import M = Machine
  import B = BigStep
  import S = Sessions
  import Reader
  import Syntax
  import opened Tokens

  class Interp {
    const heap: Heap
    const operandStack: Root
    const contStack: Root
    var output: seq<string>

    /** 'init_globals': a heap that holds the nil object, and two empty stacks. */
    constructor (nil: Ptr, limit: nat)
      requires nil != NULL && limit >= 1
      ensures Valid() && fresh(heap) && fresh(operandStack) && fresh(contStack)
      ensures heap.nil == nil && heap.limit == limit && heap.registered == 0 && State() == M.State(Nil, Nil, [])
    {
      heap := new Heap(nil, limit);
      operandStack := new Root(nil);
      contStack := new Root(nil);
      output := [];
      new;
      hide Heap.Valid, Interp.State;
      RegisterStacks();
    }

    method RegisterStacks()
      requires heap.Valid() && heap.roots == [heap.nilRoot] && operandStack.value == heap.nil == contStack.value
      requires operandStack != contStack && operandStack != heap.nilRoot && contStack != heap.nilRoot
      modifies heap`roots
      ensures Valid() && State() == M.State(Nil, Nil, output)
    {
      hide Heap.Valid;
      heap.RootsAreObjects();
      heap.PushRoot(operandStack);
      heap.PushRoot(contStack);
      heap.RootsAreObjects();
    }

    ghost predicate Valid()
      reads this, heap, heap.roots
    {
      && heap.Valid()
      && operandStack in heap.roots && contStack in heap.roots
      && operandStack != contStack && operandStack != heap.nilRoot && contStack != heap.nilRoot
    }

    /** What the stacks stand for, with the output. */
    ghost function State(): M.State
      reads this, heap, heap.roots, operandStack, contStack
      requires Valid()
    {
      heap.RootsAreObjects();
      M.State(heap.vals[operandStack.value], heap.vals[contStack.value], output)
    }

    /** A step either ends in the state that the machine prescribes, or stops with the machine's error, or
        stops because the heap is full of reachable objects. */
    ghost predicate Follows(r: Result<()>, spec: Result<M.State>)
      reads this, heap, heap.roots, operandStack, contStack
    {
      match r
      case Success(_) => Valid() && spec == Success(State())
      case Failure(e) => spec == Failure(e) || (e == ObjectLimit && heap.Full())
    }

    /** When a step is cut short, what it had to print has been printed or has not. */
    ghost predicate Printed(before: seq<string>, spec: Result<M.State>)
      reads this
    {
      output == before || (spec.Success? && output == spec.value.out)
    }

    lemma ContsAtHand()
      requires Valid()
      ensures contStack.value in heap.mem && (heap.mem[contStack.value].body.ConsBody? <==> State().conts.Cons?)
    {
      heap.RootsAreObjects();
      heap.ObjectMeaning(contStack.value);
    }

    twostate lemma AllKept()
      requires heap.Valid() && unchanged(heap) && unchanged(heap.roots)
      ensures heap.Keeps(operandStack, contStack)
    {
      heap.RootsAreObjects();
    }

    method Push(object_: Ptr) returns (r: Result<()>)
      requires Valid() && object_ in heap.vals
      modifies heap, operandStack
      ensures heap.registered <= old(heap.registered) + 1
      ensures Follows(r, Success(M.Push(old(heap.vals[object_]), old(State()))))
      ensures r.Success? ==> heap.Keeps(operandStack, null)
    {
      hide Heap.Valid;
      heap.RootsAreObjects();
      var oldOperandStack := operandStack.value;
      var cons :- heap.CreateCons(object_, oldOperandStack);
      heap.RootsAreObjects();
      heap.SetRoot(operandStack, cons);
      heap.RootsAreObjects();
      return Success(());
    }

    method PushCont(object_: Ptr) returns (r: Result<()>)
      requires Valid() && object_ in heap.vals && heap.vals[object_].Func?
      modifies heap, contStack
      ensures heap.registered <= old(heap.registered) + 1
      ensures var f := old(heap.vals[object_]); Follows(r, Success(M.PushCont(f.code, f.data, old(State()))))
      ensures r.Success? ==> heap.Keeps(contStack, null)
    {
      hide Heap.Valid;
      heap.RootsAreObjects();
      var oldContStack := contStack.value;
      var cons :- heap.CreateCons(object_, oldContStack);
      heap.RootsAreObjects();
      heap.SetRoot(contStack, cons);
      heap.RootsAreObjects();
      return Success(());
    }

    method Pop() returns (r: Result<Ptr>)
      requires Valid()
      modifies operandStack
      ensures r.Success? ==> Valid() && r.value in heap.vals
      ensures r.Success? ==> M.Pop(old(State())) == Success((heap.vals[r.value], State()))
      ensures r.Failure? ==> M.Pop(old(State())) == Failure(r.error)
      ensures heap.Keeps(operandStack, null)
    {
      hide Heap.Valid;
      heap.RootsAreObjects();
      var stack := operandStack.value;
      heap.ObjectMeaning(stack);
      if !heap.mem[stack].body.ConsBody? {
        return Failure(StackUnderflow);
      }
      var result := heap.mem[stack].body.head;
      heap.SetRoot(operandStack, heap.mem[stack].body.tail);
      return Success(result);
    }

    /** The next continuation, or the null pointer when there is none. */
    method PopCont() returns (o: Ptr)
      requires Valid()
      modifies contStack
      ensures Valid() && heap.Keeps(contStack, null)
      ensures o == NULL ==> !old(State()).conts.Cons? && State() == old(State())
      ensures o != NULL ==>
                && o in heap.vals && old(State()).conts.Cons? && heap.vals[o] == old(State()).conts.head
                && State() == old(State()).(conts := old(State()).conts.tail)
    {
      hide Heap.Valid;
      heap.RootsAreObjects();
      var stack := contStack.value;
      heap.ObjectMeaning(stack);
      if !heap.mem[stack].body.ConsBody? {
        return NULL;
      }
      o := heap.mem[stack].body.head;
      heap.ObjectMeaning(o);
      heap.SetRoot(contStack, heap.mem[stack].body.tail);
    }

    method DestructCons(object_: Ptr) returns (r: Result<(Ptr, Ptr)>)
      requires heap.Valid() && object_ in heap.vals
      ensures r.Success? ==>
                && r.value.0 in heap.vals && r.value.1 in heap.vals
                && heap.vals[object_] == Cons(heap.vals[r.value.0], heap.vals[r.value.1])
      ensures r.Failure? ==> r.error == ConsExpected && !heap.vals[object_].Cons?
    {
      hide Heap.Valid;
      heap.ObjectMeaning(object_);
      if !heap.mem[object_].body.ConsBody? {
        return Failure(ConsExpected);
      }
      return Success((heap.mem[object_].body.head, heap.mem[object_].body.tail));
    }

    /** Two objects that are the same are equal even if they are not atoms; for a key that is an atom this
        makes no difference. */
    method AtomEquals(key: Ptr, object_: Ptr) returns (r: Result<bool>)
      requires heap.Valid() && key in heap.vals && object_ in heap.vals && heap.vals[key].Atom?
      ensures r.Success? ==>
                heap.vals[object_].Atom? && r.value == (heap.vals[key].chars == heap.vals[object_].chars)
      ensures r.Failure? ==> r.error == AtomsExpected && !heap.vals[object_].Atom?
    {
      hide Heap.Valid;
      heap.ObjectMeaning(key);
      heap.ObjectMeaning(object_);
      if key == object_ {
        return Success(true);
      }
      if !heap.mem[key].body.AtomBody? || !heap.mem[object_].body.AtomBody? {
        return Failure(AtomsExpected);
      }
      return Success(heap.mem[key].body.chars == heap.mem[object_].body.chars);
    }

    /** The value bound to a key, or the null pointer if there is none. */
    method Assoc(key: Ptr, map_: Ptr) returns (r: Result<Ptr>)
      requires heap.Valid() && key in heap.vals && map_ in heap.vals && heap.vals[key].Atom?
      ensures match M.Assoc(heap.vals[key].chars, heap.vals[map_])
              case Failure(e) => r == Failure(e)
              case Success(None) => r == Success(NULL)
              case Success(Some(v)) =>
                r.Success? && r.value != NULL && r.value in heap.vals && heap.vals[r.value] == v
    {
      hide Heap.Valid;
      var m := map_;
      while true
        invariant m in heap.vals
        invariant M.Assoc(heap.vals[key].chars, heap.vals[m]) == M.Assoc(heap.vals[key].chars, heap.vals[map_])
        decreases heap.vals[m]
      {
        heap.ObjectMeaning(m);
        if m == heap.nil {
          return Success(NULL);
        }
        var cell :- DestructCons(m);
        var (mapHead, mapTail) := cell;
        var entry :- DestructCons(mapHead);
        var (entryHead, entryTail) := entry;
        var equal :- AtomEquals(key, entryHead);
        if equal {
          heap.ObjectMeaning(entryTail);
          return Success(entryTail);
        }
        m := mapTail;
      }
    }

    /** Three calls of push_root_g in a row, and the three calls of pop_root_g that undo them. */
    method PushThree(a: Root, b: Root, c: Root)
      requires Valid() && a.value in heap.vals && b.value in heap.vals && c.value in heap.vals
      modifies heap`roots
      ensures Valid() && heap.roots == [c, b, a] + old(heap.roots)
    {
      hide Heap.Valid;
      heap.RootsAreObjects();
      heap.PushRoot(a);
      heap.PushRoot(b);
      heap.PushRoot(c);
    }

    method PopThree(ghost a: Root, ghost b: Root, ghost c: Root, ghost rest: seq<Root>)
      requires Valid() && heap.roots == [c, b, a] + rest
      requires heap.nilRoot in rest && operandStack in rest && contStack in rest
      modifies heap`roots
      ensures Valid() && heap.roots == rest
    {
      hide Heap.Valid;
      heap.PopRoot(c, [b, a] + rest);
      heap.PopRoot(b, [a] + rest);
      heap.PopRoot(a, rest);
    }

    /** Prepends a binding to the association list in a variable. */
    method MapCons(key: Ptr, value: Ptr, map_: Root) returns (r: Result<()>)
      requires Valid() && key in heap.vals && value in heap.vals
      requires map_ in heap.roots && map_ != heap.nilRoot && map_ != operandStack && map_ != contStack
      modifies heap, map_
      ensures heap.registered <= old(heap.registered) + 2
      ensures r.Success? ==> Valid() && State() == old(State()) && heap.Keeps(map_, null) && map_.value in heap.vals
      ensures r.Success? ==>
                heap.vals[map_.value] ==
                Cons(Cons(old(heap.vals[key]), old(heap.vals[value])), old(heap.vals[map_.value]))
      ensures r.Failure? ==> r.error == ObjectLimit && heap.Full()
    {
      hide Heap.Valid;
      heap.RootsAreObjects();
      var entry :- heap.CreateCons(key, value);
      heap.RootsAreObjects();
      var cons :- heap.CreateCons(entry, map_.value);
      heap.RootsAreObjects();
      heap.SetRoot(map_, cons);
      heap.RootsAreObjects();
      return Success(());
    }

    /** Schedules the evaluation of an expression: create_cons, create_function and push_cont in a row. */
    method ScheduleEval(envs: Ptr, expr: Ptr) returns (r: Result<()>)
      requires Valid() && envs in heap.vals && expr in heap.vals
      modifies heap, contStack
      ensures heap.registered <= old(heap.registered) + 3
      ensures Follows(r, Success(M.PushCont(Eval, Cons(old(heap.vals[envs]), old(heap.vals[expr])), old(State()))))
      ensures r.Success? ==> heap.Keeps(contStack, null)
    {
      hide Heap.Valid, Heap.Full;
      heap.RootsAreObjects();
      var functionData :- heap.CreateCons(envs, expr);
      heap.RootsAreObjects();
      var function_ :- heap.CreateFunction(Eval, functionData);
      heap.RootsAreObjects();
      var u :- PushCont(function_);
      return Success(());
    }

    method PrintAtom() returns (r: Result<()>)
      requires Valid()
      modifies this, heap, operandStack
      ensures heap.registered <= old(heap.registered) + 1
      ensures Follows(r, M.PrintStep(old(State())))
      ensures r.Failure? ==> Printed(old(output), M.PrintStep(old(State())))
      ensures r.Success? ==> heap.Keeps(operandStack, null)
    {
      hide Heap.Valid, Heap.Full;
      var arg :- Pop();
      heap.ObjectMeaning(arg);
      if !heap.mem[arg].body.AtomBody? {
        return Failure(ArgumentNotAnAtom);
      }
      output := output + [heap.mem[arg].body.chars];
      var nilValue := heap.CreateNil();
      var u :- Push(nilValue);
      return Success(());
    }

    method QuoteFunction() returns (r: Result<()>)
      requires Valid()
      modifies heap, operandStack
      ensures heap.registered <= old(heap.registered) + 1
      ensures Follows(r, M.QuoteStep(old(State())))
      ensures r.Success? ==> heap.Keeps(operandStack, null)
    {
      hide Heap.Valid, Heap.Full;
      var arg :- Pop();
      var parts :- DestructCons(arg);
      var u :- Push(parts.1);
      return Success(());
    }

    method FunFunction() returns (r: Result<()>)
      requires Valid()
      modifies heap, operandStack
      ensures heap.registered <= old(heap.registered) + 2
      ensures Follows(r, M.FunStep(old(State())))
      ensures r.Success? ==> heap.Keeps(operandStack, null)
    {
      hide Heap.Valid, Heap.Full;
      var arg :- Pop();
      heap.RootsAreObjects();
      var newFunction :- heap.CreateFunction(FunApply, arg);
      heap.RootsAreObjects();
      var u :- Push(newFunction);
      return Success(());
    }

    method FunApplyFunction(data: Ptr) returns (r: Result<()>)
      requires Valid() && data in heap.vals
      modifies heap, operandStack, contStack
      ensures heap.registered <= old(heap.registered) + 6
      ensures Follows(r, M.FunApplyStep(old(heap.vals[data]), old(State())))
      ensures r.Success? ==> heap.Keeps(operandStack, contStack)
    {
      hide Heap.Valid, Heap.Full;
      var arg :- Pop();
      var dataParts :- DestructCons(data);
      var (envs, expr) := dataParts;
      var envsParts :- DestructCons(envs);
      var (forms, env) := envsParts;
      var exprParts :- DestructCons(expr);
      var (param, body) := exprParts;
      heap.ObjectMeaning(param);
      heap.RootsAreObjects();
      if !heap.mem[param].body.AtomBody? {
        return Failure(ParamNotAnAtom);
      }
      var u :- EnterBody(param, arg, forms, env, body);
      return Success(());
    }

    /** The last part of fun_apply_function: bind the parameter and schedule the body. */
    method EnterBody(param: Ptr, arg: Ptr, forms: Ptr, env: Ptr, body: Ptr) returns (r: Result<()>)
      requires Valid()
      requires param in heap.vals && arg in heap.vals && forms in heap.vals && env in heap.vals && body in heap.vals
      modifies heap, contStack
      ensures heap.registered <= old(heap.registered) + 6
      ensures var newEnv := Cons(Cons(old(heap.vals[param]), old(heap.vals[arg])), old(heap.vals[env]));
              Follows(r, Success(M.PushCont(Eval, Cons(Cons(old(heap.vals[forms]), newEnv), old(heap.vals[body])),
                                            old(State()))))
      ensures r.Success? ==> heap.Keeps(contStack, null)
    {
      hide Heap.Valid, Heap.Full;
      heap.RootsAreObjects();
      var newEnv := new Root(env);
      var formsVar := new Root(forms);
      var bodyVar := new Root(body);
      PushThree(newEnv, formsVar, bodyVar);
      var u :- BindAndSchedule(param, arg, newEnv, formsVar, bodyVar);
      PopThree(newEnv, formsVar, bodyVar, old(heap.roots));
      heap.RootsAreObjects();
      return Success(());
    }

    method BindAndSchedule(param: Ptr, arg: Ptr, newEnv: Root, forms: Root, body: Root) returns (r: Result<()>)
      requires Valid() && param in heap.vals && arg in heap.vals
      requires newEnv in heap.roots && newEnv.value in heap.vals && newEnv != heap.nilRoot
      requires forms in heap.roots && forms.value in heap.vals && body in heap.roots && body.value in heap.vals
      requires newEnv != forms && newEnv != body && newEnv != operandStack && newEnv != contStack
      requires forms != operandStack && forms != contStack && body != operandStack && body != contStack
      modifies heap, contStack, newEnv
      ensures heap.registered <= old(heap.registered) + 6
      ensures var env := Cons(Cons(old(heap.vals[param]), old(heap.vals[arg])), old(heap.vals[newEnv.value]));
              var thunk := Cons(Cons(old(heap.vals[forms.value]), env), old(heap.vals[body.value]));
              Follows(r, Success(M.PushCont(Eval, thunk, old(State()))))
      ensures r.Success? ==> heap.Keeps(contStack, newEnv)
    {
      hide Heap.Valid, Heap.Full;
      heap.RootsAreObjects();
      var u :- MapCons(param, arg, newEnv);
      heap.RootsAreObjects();
      var newEnvs :- heap.CreateCons(forms.value, newEnv.value);
      heap.RootsAreObjects();
      u :- ScheduleEval(newEnvs, body.value);
      return Success(());
    }

    /** 'apply'. It calls itself only through pop_apply and the form branch of eval, and never more than
        once more: the C stack stays bounded. */
    method Apply(function_: Ptr) returns (r: Result<()>)
      requires Valid() && function_ in heap.vals && M.Callable(heap.vals[function_], State())
      modifies this, heap, operandStack, contStack
      ensures heap.registered <= old(heap.registered) + (if old(M.Primitive(heap.vals[function_])) then 6 else 8)
      ensures Follows(r, M.Apply(old(heap.vals[function_]), old(State())))
      ensures r.Failure? ==> Printed(old(output), M.Apply(old(heap.vals[function_]), old(State())))
      ensures r.Success? ==> heap.Keeps(operandStack, contStack)
      decreases if M.Primitive(heap.vals[function_]) then 1 else 3
    {
      hide Heap.Valid, Heap.Full;
      heap.ObjectMeaning(function_);
      if !heap.mem[function_].body.FunctionBody? {
        return Failure(NotAFunction);
      }
      var data := heap.mem[function_].body.data;
      match heap.mem[function_].body.code {
        case PopApply => r := PopApplyFunction();
        case Eval => r := EvalFunction(data);
        case PrintAtom => r := PrintAtom();
        case Quote => r := QuoteFunction();
        case Fun => r := FunFunction();
        case FunApply => r := FunApplyFunction(data);
      }
    }

    /** 'pop_apply' */
    method PopApplyFunction() returns (r: Result<()>)
      requires Valid() && (State().ops.Cons? ==> M.Primitive(State().ops.head))
      modifies this, heap, operandStack, contStack
      ensures heap.registered <= old(heap.registered) + 6
      ensures Follows(r, M.Apply(Func(PopApply, Nil), old(State())))
      ensures r.Failure? ==> Printed(old(output), M.Apply(Func(PopApply, Nil), old(State())))
      ensures r.Success? ==> heap.Keeps(operandStack, contStack)
      decreases 2
    {
      hide Heap.Valid, Heap.Full;
      var f :- Pop();
      r := Apply(f);
    }

    method PushPair(head: Ptr, tail: Ptr) returns (r: Result<()>)
      requires Valid() && head in heap.vals && tail in heap.vals
      modifies heap, operandStack
      ensures heap.registered <= old(heap.registered) + 2
      ensures Follows(r, Success(M.Push(Cons(old(heap.vals[head]), old(heap.vals[tail])), old(State()))))
      ensures r.Success? ==> heap.Keeps(operandStack, null)
    {
      hide Heap.Valid, Heap.Full;
      heap.RootsAreObjects();
      var value :- heap.CreateCons(head, tail);
      heap.RootsAreObjects();
      r := Push(value);
    }

    /** The branch of 'eval' for a form: the form itself gets the environments and the argument expression. */
    method ApplyForm(form: Ptr, envs: Ptr, argExpr: Ptr) returns (r: Result<()>)
      requires Valid() && form in heap.vals && envs in heap.vals && argExpr in heap.vals
      requires M.Primitive(heap.vals[form])
      modifies this, heap, operandStack, contStack
      ensures heap.registered <= old(heap.registered) + 8
      ensures Follows(r, M.ApplyPrimitive(old(heap.vals[form]),
                                          M.Push(Cons(old(heap.vals[envs]), old(heap.vals[argExpr])), old(State()))))
      ensures r.Failure? ==> Printed(old(output), M.ApplyPrimitive(old(heap.vals[form]),
                                          M.Push(Cons(old(heap.vals[envs]), old(heap.vals[argExpr])), old(State()))))
      ensures r.Success? ==> heap.Keeps(operandStack, contStack)
      decreases 2, 0
    {
      hide Heap.Valid, Heap.Full, M.ApplyPrimitive, Interp.State;
      var kept :- PushPairBeside(form, envs, argExpr);
      r := Apply(kept);
    }

    /** The form is kept by a variable while the value is created and pushed. */
    method PushPairBeside(form: Ptr, head: Ptr, tail: Ptr) returns (r: Result<Ptr>)
      requires Valid() && form in heap.vals && head in heap.vals && tail in heap.vals
      modifies heap, operandStack
      ensures heap.registered <= old(heap.registered) + 2
      ensures r.Failure? ==> r.error == ObjectLimit && heap.Full()
      ensures r.Success? ==>
                && Valid() && r.value in heap.vals && heap.vals[r.value] == old(heap.vals[form])
                && State() == M.Push(Cons(old(heap.vals[head]), old(heap.vals[tail])), old(State()))
                && heap.Keeps(operandStack, null)
    {
      hide Heap.Valid, Heap.Full;
      heap.RootsAreObjects();
      var formVar := new Root(form);
      heap.PushRoot(formVar);
      heap.RootsAreObjects();
      assert State() == old(State()) && formVar in heap.roots;
      var u :- PushPair(head, tail);
      assert formVar.value in heap.vals && heap.vals[formVar.value] == old(heap.vals[form]);
      assert State() == M.Push(Cons(old(heap.vals[head]), old(heap.vals[tail])), old(State()));
      heap.PopRoot(formVar, old(heap.roots));
      return Success(formVar.value);
    }

    /** The branch of 'eval' for an application: the call, the function expression and the argument
        expression are scheduled, so that the argument is evaluated first. */
    method ScheduleApplication(envs: Ptr, fExpr: Ptr, argExpr: Ptr) returns (r: Result<()>)
      requires Valid() && envs in heap.vals && fExpr in heap.vals && argExpr in heap.vals
      modifies heap, contStack
      ensures heap.registered <= old(heap.registered) + 8
      ensures var e, f, a := old(heap.vals[envs]), old(heap.vals[fExpr]), old(heap.vals[argExpr]);
              Follows(r, Success(M.PushCont(Eval, Cons(e, a),
                                            M.PushCont(Eval, Cons(e, f), M.PushCont(PopApply, Nil, old(State()))))))
      ensures r.Success? ==> heap.Keeps(contStack, null)
    {
      hide Heap.Valid, Heap.Full;
      heap.RootsAreObjects();
      var envsVar := new Root(envs);
      var fExprVar := new Root(fExpr);
      var argExprVar := new Root(argExpr);
      PushThree(envsVar, fExprVar, argExprVar);
      var u :- ScheduleParts(envsVar, fExprVar, argExprVar);
      PopThree(envsVar, fExprVar, argExprVar, old(heap.roots));
      heap.RootsAreObjects();
      return Success(());
    }

    method ScheduleParts(envs: Root, fExpr: Root, argExpr: Root) returns (r: Result<()>)
      requires Valid() && envs in heap.roots && fExpr in heap.roots && argExpr in heap.roots
      requires envs.value in heap.vals && fExpr.value in heap.vals && argExpr.value in heap.vals
      requires envs != contStack && fExpr != contStack && argExpr != contStack
      modifies heap, contStack
      ensures heap.registered <= old(heap.registered) + 8
      ensures var e, f, a := old(heap.vals[envs.value]), old(heap.vals[fExpr.value]), old(heap.vals[argExpr.value]);
              Follows(r, Success(M.PushCont(Eval, Cons(e, a),
                                            M.PushCont(Eval, Cons(e, f), M.PushCont(PopApply, Nil, old(State()))))))
      ensures r.Success? ==> heap.Keeps(contStack, null)
    {
      hide Heap.Valid, Heap.Full;
      var u :- ScheduleCall();
      heap.RootsAreObjects();
      u :- ScheduleEval(envs.value, fExpr.value);
      heap.RootsAreObjects();
      u :- ScheduleEval(envs.value, argExpr.value);
      return Success(());
    }

    method ScheduleCall() returns (r: Result<()>)
      requires Valid()
      modifies heap, contStack
      ensures heap.registered <= old(heap.registered) + 2
      ensures Follows(r, Success(M.PushCont(PopApply, Nil, old(State()))))
      ensures r.Success? ==> heap.Keeps(contStack, null)
    {
      hide Heap.Valid, Heap.Full;
      var functionData := heap.CreateNil();
      heap.RootsAreObjects();
      var function_ :- heap.CreateFunction(PopApply, functionData);
      heap.RootsAreObjects();
      var u :- PushCont(function_);
      return Success(());
    }

    /** 'eval' */
    method EvalFunction(data: Ptr) returns (r: Result<()>)
      requires Valid() && data in heap.vals && M.EvalReady(heap.vals[data])
      modifies this, heap, operandStack, contStack
      ensures heap.registered <= old(heap.registered) + 8
      ensures Follows(r, M.EvalStep(old(heap.vals[data]), old(State())))
      ensures r.Failure? ==> Printed(old(output), M.EvalStep(old(heap.vals[data]), old(State())))
      ensures r.Success? ==> heap.Keeps(operandStack, contStack)
      decreases 2, 1
    {
      hide Heap.Valid, Heap.Full;
      var dataParts :- DestructCons(data);
      var (envs, expr) := dataParts;
      var envsParts :- DestructCons(envs);
      var (forms, env) := envsParts;
      heap.ObjectMeaning(expr);
      if heap.mem[expr].body.AtomBody? {
        var value :- Assoc(expr, env);
        if value == NULL {
          return Failure(NoSuchBinding);
        }
        r := Push(value);
      } else if heap.mem[expr].body.ConsBody? {
        var exprParts := DestructCons(expr);
        var (fExpr, argExpr) := exprParts.value;
        heap.ObjectMeaning(fExpr);
        var form := heap.nil;
        var isForm := heap.mem[fExpr].body.AtomBody?;
        if isForm {
          var value :- Assoc(fExpr, forms);
          form := value;
          isForm := form != NULL;
        }
        if isForm {
          r := ApplyForm(form, envs, argExpr);
        } else {
          r := ScheduleApplication(envs, fExpr, argExpr);
        }
      } else {
        return Failure(CannotEvaluate);
      }
    }

    /** 'map_cons_s': binds a name to a value. */
    method MapConsString(name: string, value: Ptr, map_: Root) returns (r: Result<()>)
      requires Valid() && map_ in heap.roots && map_ != heap.nilRoot && map_ != operandStack && map_ != contStack
      requires value in heap.vals
      modifies heap, map_
      ensures heap.registered <= old(heap.registered) + 3
      ensures r.Success? ==> Valid() && State() == old(State()) && heap.Keeps(map_, null)
      ensures r.Success? ==>
                && map_.value in heap.vals && old(map_.value in heap.vals)
                && heap.vals[map_.value] == Cons(Cons(Atom(name), old(heap.vals[value])), old(heap.vals[map_.value]))
      ensures r.Failure? ==> r.error == ObjectLimit && heap.Full()
    {
      hide Heap.Valid, Heap.Full, Interp.State;
      var atom :- heap.CreateAtomBeside(name, value);
      heap.RootsAreObjects();
      StateKept();
      var u :- MapCons(atom, value, map_);
      return Success(());
    }

    /** 'map_cons_s_func_nil': binds a name to a built-in function. */
    method MapConsFunction(name: string, code: Code, map_: Root) returns (r: Result<()>)
      requires Valid() && map_ in heap.roots && map_ != heap.nilRoot && map_ != operandStack && map_ != contStack
      modifies heap, map_
      ensures heap.registered <= old(heap.registered) + 4
      ensures r.Success? ==> Valid() && State() == old(State()) && heap.Keeps(map_, null)
      ensures r.Success? ==>
                && map_.value in heap.vals && old(map_.value in heap.vals)
                && heap.vals[map_.value] == Cons(Cons(Atom(name), Func(code, Nil)), old(heap.vals[map_.value]))
      ensures r.Failure? ==> r.error == ObjectLimit && heap.Full()
    {
      hide Heap.Valid, Heap.Full;
      heap.RootsAreObjects();
      var nilValue := heap.CreateNil();
      var func :- heap.CreateFunction(code, nilValue);
      heap.RootsAreObjects();
      var u :- MapConsString(name, func, map_);
      return Success(());
    }

    /** A variable of 'main' that starts as nil and stays registered. */
    method Declare() returns (x: Root)
      requires Valid()
      modifies heap`roots
      ensures Valid() && fresh(x) && heap.roots == [x] + old(heap.roots) && x.value == heap.nil
      ensures State() == old(State())
      ensures x != heap.nilRoot && x.value in heap.vals && heap.vals[x.value] == Nil
    {
      hide Heap.Valid;
      heap.RootsAreObjects();
      x := new Root(heap.nil);
      heap.PushRoot(x);
      heap.RootsAreObjects();
    }

    method DeclareForms() returns (r: Result<Root>)
      requires Valid()
      modifies heap
      ensures heap.registered <= old(heap.registered) + 8
      ensures r.Success? ==> Valid() && State() == old(State()) && fresh(r.value) && r.value in heap.roots
      ensures r.Success? ==>
                && r.value != heap.nilRoot && r.value.value in heap.vals && heap.vals[r.value.value] == M.FORMS
      ensures r.Failure? ==> r.error == ObjectLimit && heap.Full()
    {
      hide Heap.Valid, Heap.Full;
      var forms := Declare();
      var u :- MapConsFunction("quote", Code.Quote, forms);
      u :- MapConsFunction("fun", Code.Fun, forms);
      return Success(forms);
    }

    method DeclareEnv() returns (r: Result<Root>)
      requires Valid()
      modifies heap
      ensures heap.registered <= old(heap.registered) + 4
      ensures r.Success? ==> Valid() && State() == old(State()) && fresh(r.value)
      ensures r.Success? ==> heap.roots == [r.value] + old(heap.roots)
      ensures r.Success? ==> r.value != heap.nilRoot && r.value.value in heap.vals && heap.vals[r.value.value] == M.ENV
      ensures r.Success? ==> heap.KeepsValues(old(heap.roots))
      ensures r.Failure? ==> r.error == ObjectLimit && heap.Full()
    {
      hide Heap.Valid, Heap.Full, Interp.State;
      heap.RootsAreObjects();
      var env := Declare();
      assert forall x | x in old(heap.roots) :: x in heap.roots && x != env;
      var u :- MapConsFunction("print_atom", Code.PrintAtom, env);
      return Success(env);
    }

    method DeclarePair(head: Root, tail: Root) returns (r: Result<Root>)
      requires Valid() && head.value in heap.vals && tail.value in heap.vals
      modifies heap
      ensures heap.registered <= old(heap.registered) + 1
      ensures r.Success? ==> Valid() && State() == old(State()) && fresh(r.value) && r.value in heap.roots
      ensures r.Success? ==>
                && r.value.value in heap.vals
                && heap.vals[r.value.value] == Cons(old(heap.vals[head.value]), old(heap.vals[tail.value]))
      ensures r.Failure? ==> r.error == ObjectLimit && heap.Full()
    {
      hide Heap.Valid, Heap.Full;
      heap.RootsAreObjects();
      var object_ :- heap.CreateCons(head.value, tail.value);
      heap.RootsAreObjects();
      var x := new Root(object_);
      heap.PushRoot(x);
      return Success(x);
    }

    /** The first part of 'main': the variable that holds the forms and the environment for all programs. */
    method Initialize() returns (r: Result<Root>)
      requires Valid()
      modifies heap
      ensures heap.registered <= old(heap.registered) + 13
      ensures r.Success? ==> Valid() && State() == old(State()) && Global(r.value)
      ensures r.Failure? ==> r.error == ObjectLimit && heap.Full()
    {
      hide Heap.Valid, Heap.Full, Interp.State, M.FORMS, M.ENV;
      var forms :- DeclareForms();
      var env :- DeclareEnv();
      assert heap.vals[forms.value] == M.FORMS;
      var envs :- DeclarePair(forms, env);
      return Success(envs);
    }

    /** The variable 'envs' of main. */
    ghost predicate Global(envs: Root)
      reads heap, envs, heap.roots
    {
      && envs in heap.roots && envs != operandStack && envs != contStack
      && envs.value in heap.vals && heap.vals[envs.value] == Cons(M.FORMS, M.ENV)
    }

    lemma StateOutput()
      requires Valid()
      ensures State().out == output
    {
    }

    twostate lemma StateKept()
      requires old(Valid()) && Valid() && heap.Keeps(null, null) && output == old(output)
      ensures State() == old(State())
    {
    }

    twostate lemma GlobalKept(envs: Root)
      requires old(Global(envs)) && heap.Keeps(operandStack, contStack)
      ensures Global(envs)
    {
    }

    /** One turn of the inner loop of 'main': true when there is no continuation left. */
    method Turn(ghost n: nat) returns (r: Result<bool>)
      requires Valid() && M.WellFormed(State())
      modifies this, heap, operandStack, contStack
      ensures heap.registered <= old(heap.registered) + 8
      ensures match r
              case Success(true) => Valid() && M.RunFor(n, old(State())) == M.Halted(State())
              case Success(false) =>
                && Valid() && M.WellFormed(State()) && old(State()).conts.Cons?
                && (n > 0 ==> M.RunFor(n, old(State())) == M.RunFor(n - 1, State()))
              case Failure(e) =>
                n > 0 ==>
                  || M.RunFor(n, old(State())) == M.Failed(e, output)
                  || (e == ObjectLimit && heap.Full() && output <= M.OutputOf(M.RunFor(n, old(State()))))
      ensures r.Success? ==> heap.Keeps(operandStack, contStack)
      ensures old(output) <= output
    {
      hide Heap.Valid, Heap.Full, M.WellFormed, M.Apply;
      heap.RootsAreObjects();
      ghost var st := State();
      var object_ := PopCont();
      if object_ == NULL {
        return Success(true);
      }
      M.StepIsSafe(st);
      M.OutputGrows(n, st);
      M.OutputGrows(1, st);
      ghost var spec := M.Apply(st.conts.head, st.(conts := st.conts.tail));
      if n > 0 && spec.Success? {
        M.OutputGrows(n - 1, spec.value);
      }
      var u :- Apply(object_);
      return Success(false);
    }

    /** The inner loop of 'main' for at most n turns: true when no continuation is left. Whatever is
        collected on the way, the stacks and the output are those of the machine that never collects. */
    method RunLoop(n: nat) returns (r: Result<bool>)
      requires Valid() && M.WellFormed(State())
      modifies this, heap, operandStack, contStack
      ensures heap.registered <= old(heap.registered) + 8 * n
      ensures match r
              case Success(true) => Valid() && M.RunFor(n, old(State())) == M.Halted(State())
              case Success(false) => Valid() && M.RunFor(n, old(State())) == M.Running(State())
              case Failure(e) =>
                || M.RunFor(n, old(State())) == M.Failed(e, output)
                || (e == ObjectLimit && heap.Full() && output <= M.OutputOf(M.RunFor(n, old(State()))))
      ensures r.Success? ==> heap.Keeps(operandStack, contStack)
      ensures old(output) <= output
    {
      hide Heap.Valid, Heap.Full, M.WellFormed, M.Apply, M.OutputOf, Interp.State;
      AllKept();
      var i := 0;
      while i < n
        invariant i <= n && Valid() && M.WellFormed(State())
        invariant M.RunFor(n, old(State())) == M.RunFor(n - i, State())
        invariant heap.Keeps(operandStack, contStack) && old(output) <= output
        invariant heap.registered <= old(heap.registered) + 8 * i
      {
        var empty :- Turn(n - i);
        if empty {
          return Success(true);
        }
        i := i + 1;
      }
      ContsAtHand();
      return Success(!heap.mem[contStack.value].body.ConsBody?);
    }

    /** The middle of the outer loop of 'main': the expression is scheduled, the inner loop runs for at most
        n turns, and the value is popped. The result is the object of the value, or the null pointer if the
        turns did not suffice. */
    method EvaluateProgram(envs: Root, expr: Ptr, n: nat) returns (r: Result<Ptr>)
      requires Valid() && Global(envs) && State().ops == Nil && State().conts == Nil
      requires expr in heap.vals && M.IsExpr(heap.vals[expr])
      modifies this, heap, operandStack, contStack
      ensures heap.registered <= old(heap.registered) + 3 + 8 * n
      ensures var e := old(heap.vals[expr]);
              match r
              case Success(o) =>
                && Valid() && Global(envs)
                && (o == NULL ==> B.RunProgram(n, e, old(output)) == M.Running(State()))
                && (o != NULL ==>
                      && State() == M.State(Nil, Nil, output) && o in heap.vals
                      && B.Computes(n, e, heap.vals[o], old(output), output))
              case Failure(x) =>
                || B.Stops(n, e, x, old(output), output)
                || (x == ObjectLimit && heap.Full() && old(output) <= output
                    && output <= M.OutputOf(B.RunProgram(n, e, old(output))))
    {
      hide Heap.Valid, Heap.Full, M.WellFormed, M.RunFor, B.Computes, B.Stops, M.IsExpr, Interp.State, M.OutputOf;
      heap.RootsAreObjects();
      StateOutput();
      ghost var e := heap.vals[expr];
      B.ProgramIsWellFormed(e, output);
      B.RunProgramDecides(n, e, output);
      var u :- ScheduleEval(envs.value, expr);
      GlobalKept(envs);
      StateOutput();
      label Scheduled:
      var halted :- RunLoop(n);
      GlobalKept@Scheduled(envs);
      StateOutput();
      if !halted {
        return Success(NULL);
      }
      label Halted:
      var popped := Pop();
      var value := popped.value;
      GlobalKept@Halted(envs);
      StateOutput();
      heap.ObjectMeaning(value);
      return Success(value);
    }

    /** One turn of the outer loop of 'main': an expression is read, evaluated, and its value dropped.

        The program does what evaluation of the parsed expression says: it prints that output and computes
        that value, or fails with that error. The only other way to stop is a heap full of reachable
        objects, and what has been printed by then is the beginning of the right output. */
    method ReadEvalPrint(tokenizer: Tokenizer, envs: Root, n: nat) returns (r: Result<Ptr>)
      requires Valid() && tokenizer.Valid() && Global(envs) && State().ops == Nil && State().conts == Nil
      modifies this, heap, operandStack, contStack, tokenizer
      ensures heap.registered <= old(heap.registered) + old(|tokenizer.Rest()|) + 3 + 8 * n
      ensures r.Success? ==>
                && tokenizer.Valid()
                && heap.registered + |tokenizer.Rest()| <= old(heap.registered) + old(|tokenizer.Rest()|) + 3 + 8 * n
      ensures match Syntax.Parse(old(tokenizer.Rest()))
              case Failure(e) =>
                output == old(output) && (r == Failure(e) || (r == Failure(ObjectLimit) && heap.Full()))
              case Success((e, rest)) =>
                && M.IsExpr(e)
                && match r
                   case Success(o) =>
                     && Valid() && Global(envs) && tokenizer.Valid() && tokenizer.Rest() == rest
                     && (o == NULL ==> B.RunProgram(n, e, old(output)) == M.Running(State()))
                     && (o != NULL ==>
                           && State() == M.State(Nil, Nil, output) && o in heap.vals
                           && B.Computes(n, e, heap.vals[o], old(output), output))
                   case Failure(x) =>
                     || B.Stops(n, e, x, old(output), output)
                     || (x == ObjectLimit && heap.Full() && old(output) <= output
                         && output <= M.OutputOf(B.RunProgram(n, e, old(output))))
    {
      hide Heap.Valid, Heap.Full, M.WellFormed, M.RunFor, Syntax.Parse, B.Computes, B.Stops, M.IsExpr, B.RunProgram;
      heap.RootsAreObjects();
      ghost var ts := tokenizer.Rest();
      if Syntax.Parse(ts).Success? {
        Syntax.ParsedIsPrinted(ts);
        B.RunProgramDecides(n, Syntax.Parse(ts).value.0, output);
      }
      var expr :- Reader.Parse(heap, tokenizer);
      heap.RootsAreObjects();
      r := EvaluateProgram(envs, expr, n);
    }

    /** The outer loop of 'main' for m programs, each for at most n turns. */
    method RunPrograms(tokenizer: Tokenizer, envs: Root, m: nat, n: nat) returns (r: S.Report)
      requires Valid() && tokenizer.Valid() && Global(envs) && State().ops == Nil && State().conts == Nil
      modifies this, heap, operandStack, contStack, tokenizer
      ensures S.Session(m, n, old(tokenizer.Rest()), old(output), r, output)
      ensures r == S.HeapFull ==> heap.Full()
      ensures heap.registered <= old(heap.registered) + old(|tokenizer.Rest()|) + m * (3 + 8 * n)
    {
      hide Heap.Valid, Heap.Full, Interp.State, S.Session;
      ghost var cost := 3 + 8 * n;
      ghost var ts, out := tokenizer.Rest(), output;
      for i := 0 to m
        invariant Valid() && tokenizer.Valid() && Global(envs) && State().ops == Nil && State().conts == Nil
        invariant forall report, after ::
                    S.Session(m - i, n, tokenizer.Rest(), output, report, after) ==>
                      S.Session(m, n, ts, out, report, after)
        invariant heap.registered + |tokenizer.Rest()| <= old(heap.registered) + |ts| + i * cost
      {
        MoreCost(i, m, cost);
        var stopped := RunProgram(tokenizer, envs, m - i, n);
        if stopped.Some? {
          return stopped.value;
        }
      }
      S.NothingToDo(n, tokenizer.Rest(), output);
      return S.Completed;
    }

    lemma MoreCost(i: nat, m: nat, cost: nat)
      requires i < m
      ensures i * cost + cost == (i + 1) * cost <= m * cost
    {
    }

    /** The body of the outer loop of 'main': how the program stops, if it does. */
    method RunProgram(tokenizer: Tokenizer, envs: Root, ghost m: nat, n: nat) returns (r: Option<S.Report>)
      requires Valid() && tokenizer.Valid() && Global(envs) && State().ops == Nil && State().conts == Nil && m > 0
      modifies this, heap, operandStack, contStack, tokenizer
      ensures heap.registered <= old(heap.registered) + old(|tokenizer.Rest()|) + 3 + 8 * n
      ensures r == None ==>
                && tokenizer.Valid()
                && heap.registered + |tokenizer.Rest()| <= old(heap.registered) + old(|tokenizer.Rest()|) + 3 + 8 * n
      ensures match r
              case None =>
                && Valid() && tokenizer.Valid() && Global(envs) && State().ops == Nil && State().conts == Nil
                && S.Continues(m, n, old(tokenizer.Rest()), old(output), tokenizer.Rest(), output)
              case Some(report) =>
                && S.Session(m, n, old(tokenizer.Rest()), old(output), report, output)
                && (report == S.HeapFull ==> heap.Full())
    {
      hide Heap.Valid, Heap.Full, Interp.State, S.Session, S.Continues, Syntax.Parse, B.Computes, B.Stops, B.RunProgram;
      ghost var ts, out := tokenizer.Rest(), output;
      if Syntax.Parse(ts).Failure? {
        S.NoProgram(m, n, ts, out);
      }
      var value := ReadEvalPrint(tokenizer, envs, n);
      match value {
        case Failure(x) =>
          if Syntax.Parse(ts).Success? {
            if B.Stops(n, Syntax.Parse(ts).value.0, x, out, output) {
              S.ProgramStops(m, n, ts, out, x, output);
            } else {
              S.ProgramCutShort(m, n, ts, out, S.HeapFull, output);
            }
          }
          return Some(if x == ObjectLimit then S.HeapFull else S.Stopped(x));
        case Success(o) =>
          StateOutput();
          if o == NULL {
            B.RunProgramDecides(n, Syntax.Parse(ts).value.0, out);
            S.ProgramCutShort(m, n, ts, out, S.OutOfTurns, output);
            return Some(S.OutOfTurns);
          }
          S.ProgramComputes(m, n, ts, out, heap.vals[o], output);
          return None;
      }
    }
  }
}
