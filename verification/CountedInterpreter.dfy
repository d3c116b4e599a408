/** The interpreter of rcl.c on the reference-counted heap: it does to the values of its data structures what
    the machine on values does, and gives up every reference that it obtains. */
module CountedInterpreter {
  import opened Basics
  import opened Values
  import opened Objects
  import opened CountedHeap
  import opened Counting
  import opened Tokens
  import CountedReader
  import Syntax
  import M = Machine
  import B = BigStep
  import S = Sessions

  /** The stacks of rcl.c are linked lists of their own, not objects. */
  function StackValue(vals: map<Ptr, Val>, stack: seq<Ptr>): Val
    requires forall o | o in stack :: o in vals
  {
    if stack == [] then Nil else Cons(vals[stack[0]], StackValue(vals, stack[1..]))
  }

  lemma {:induction false} StackValueSame(a: map<Ptr, Val>, b: map<Ptr, Val>, stack: seq<Ptr>)
    requires forall o | o in stack :: o in a && o in b && a[o] == b[o]
    ensures StackValue(a, stack) == StackValue(b, stack)
  {
    if stack != [] {
      StackValueSame(a, b, stack[1..]);
    }
  }

  lemma ValueFirst(own: multiset<Ptr>, a: multiset<Ptr>, b: multiset<Ptr>, c: multiset<Ptr>, d: multiset<Ptr>,
                   v: multiset<Ptr>)
    ensures own + a + b + c + d + v == own + v + a + b + c + d
  {
  }

  lemma TwoForOne(own: multiset<Ptr>, a: multiset<Ptr>, b: multiset<Ptr>, o: multiset<Ptr>, ops: multiset<Ptr>,
                  conts: multiset<Ptr>)
    ensures own + a + b + ops + conts - (a + b) + o == own + o + ops + conts
  {
  }

  lemma OneForTwo(own: multiset<Ptr>, o: Ptr, a: Ptr, b: Ptr, ops: multiset<Ptr>, conts: multiset<Ptr>)
    ensures own + multiset{o} + ops + conts - multiset{o} + multiset{a, b}
         == own + multiset{a} + multiset{b} + ops + conts
  {
  }

  lemma ArgLast(own: multiset<Ptr>, arg: multiset<Ptr>, forms: multiset<Ptr>, env: multiset<Ptr>, param: multiset<Ptr>,
                body: multiset<Ptr>)
    ensures own + arg + forms + env + param + body == own + forms + body + env + param + arg
  {
  }

  lemma FunctionLast(own: multiset<Ptr>, e: multiset<Ptr>, f: multiset<Ptr>, a: multiset<Ptr>)
    ensures own + e + f + a + e == own + e + a + e + f
  {
  }

  lemma EnvsLast(own: multiset<Ptr>, e: multiset<Ptr>, forms: multiset<Ptr>, env: multiset<Ptr>, f: multiset<Ptr>,
                 a: multiset<Ptr>, form: multiset<Ptr>)
    ensures own + e + forms + env + f + a + form == own + e + f + a + form + forms + env
    ensures own + e + f + a + form == own + form + e + a + f
    ensures form == multiset{} ==> own + e + f + a + form == own + e + f + a
  {
  }

  /** Evaluating a pair when it is known which form, if any, its head names. */
  function PairStep(form: Option<Val>, envs: Val, fExpr: Val, argExpr: Val, st: M.State): Result<M.State>
    requires form.Some? ==> M.Primitive(form.value)
  {
    if form.Some? then M.ApplyPrimitive(form.value, M.Push(Cons(envs, argExpr), st))
    else
      Success(M.PushCont(Eval, Cons(envs, argExpr),
                         M.PushCont(Eval, Cons(envs, fExpr), M.PushCont(PopApply, Nil, st))))
  }

  function FindFormIn(fExpr: Val, forms: Val): Result<Option<Val>> {
    if fExpr.Atom? then M.Assoc(fExpr.chars, forms) else Success(None)
  }

  lemma PairIsEvaluated(envs: Val, fExpr: Val, argExpr: Val, st: M.State)
    requires envs.Cons? && M.EvalReady(Cons(envs, Cons(fExpr, argExpr)))
    ensures var form := FindFormIn(fExpr, envs.head);
            && (form.Success? && form.value.Some? ==> M.Primitive(form.value.value))
            && M.EvalStep(Cons(envs, Cons(fExpr, argExpr)), st) ==
               if form.Failure? then Failure(form.error) else PairStep(form.value, envs, fExpr, argExpr, st)
  {
    hide M.Assoc, M.ApplyPrimitive, M.Primitive;
  }

  lemma FirstAndRest(stack: seq<Ptr>)
    requires stack != []
    ensures multiset(stack) == multiset{stack[0]} + multiset(stack[1..])
    ensures forall o | o in stack[1..] :: o in stack
  {
    assert stack == [stack[0]] + stack[1..];
  }

  class Interp {
    const heap: Heap
    var operandStack: seq<Ptr>
    var contStack: seq<Ptr>
    var output: seq<string>

    constructor (nil: Ptr)
      requires nil != NULL
      ensures Holding(multiset{}) && fresh(heap) && heap.nil == nil && State() == M.State(Nil, Nil, [])
      ensures operandStack == [] && contStack == []
    {
      heap := new Heap(nil);
      operandStack, contStack, output := [], [], [];
    }

    /** No block is off the list of objects while the interpreter runs. */
    ghost predicate Valid()
      reads this, heap
    {
      heap.Valid() && heap.Loose() == {} && forall o | o in operandStack || o in contStack :: o in heap.vals
    }

    /** The references that exist besides those kept by objects: one for each entry of the stacks, and 'own',
        which are those of local variables. */
    ghost predicate Holding(own: multiset<Ptr>)
      reads this, heap
    {
      Valid() && Owns(own)
    }

    ghost predicate Owns(own: multiset<Ptr>)
      reads this, heap
    {
      heap.held == own + multiset(operandStack) + multiset(contStack)
    }

    ghost function State(): M.State
      reads this, heap
      requires Valid()
    {
      M.State(StackValue(heap.vals, operandStack), StackValue(heap.vals, contStack), output)
    }

    /** What local variables refer to keeps its value. */
    twostate predicate Keeps(own: multiset<Ptr>)
      reads heap
    {
      forall o | o in own :: o in old(heap.vals) && o in heap.vals && heap.vals[o] == old(heap.vals[o])
    }

    /** A step ends in the state that the machine prescribes, or stops with the machine's error. */
    ghost predicate Follows(r: Result<()>, spec: Result<M.State>)
      reads this, heap
    {
      match r
      case Success(_) => Valid() && spec == Success(State())
      case Failure(e) => spec == Failure(e)
    }

    lemma OwnedAreObjects(own: multiset<Ptr>)
      requires Holding(own)
      ensures forall o | o in own ::
                o in heap.held && o in heap.vals && o in heap.mem && o in heap.published && o != NULL
      ensures heap.Valid() && heap.nil in heap.vals && NULL !in heap.vals
    {
      heap.HeldIsPublished();
    }

    /** An operation of the heap that changes no value leaves the state alone. */
    twostate lemma Settled(new own: multiset<Ptr>, new rest: multiset<Ptr>)
      requires old(Valid()) && heap.Valid() && heap.Loose() == old(heap.Loose()) && rest <= own
      requires operandStack == old(operandStack) && contStack == old(contStack) && output == old(output)
      requires forall o | o in rest :: o in old(heap.vals)
      requires heap.held == own + multiset(operandStack) + multiset(contStack)
      requires forall o | o in heap.vals && o in old(heap.vals) :: heap.vals[o] == old(heap.vals[o])
      ensures Holding(own) && State() == old(State()) && Keeps(rest)
    {
      heap.HeldIsPublished();
      assert forall o | o in operandStack || o in contStack :: o in heap.held;
      StackValueSame(old(heap.vals), heap.vals, operandStack);
      StackValueSame(old(heap.vals), heap.vals, contStack);
    }

    method AddRef(o: Ptr, ghost own: multiset<Ptr>)
      requires Holding(own) && o in own
      modifies heap
      ensures Holding(own + multiset{o}) && State() == old(State()) && Keeps(own)
    {
      hide Heap.Valid;
      OwnedAreObjects(own);
      heap.AddRef(o);
      Settled(own + multiset{o}, own);
    }

    /** A reference to an object that an object refers to. */
    method AddRefInside(o: Ptr, ghost own: multiset<Ptr>)
      requires Holding(own) && o in heap.vals
      modifies heap
      ensures Holding(own + multiset{o}) && State() == old(State()) && Keeps(own)
      ensures o in heap.vals && heap.vals[o] == old(heap.vals[o])
    {
      hide Heap.Valid;
      OwnedAreObjects(own);
      heap.HeldIsPublished();
      heap.AddRef(o);
      Settled(own + multiset{o}, own);
    }

    method Release(o: Ptr, ghost own: multiset<Ptr>)
      requires Holding(own + multiset{o})
      modifies heap
      ensures Holding(own) && State() == old(State()) && Keeps(own)
    {
      hide Heap.Valid;
      OwnedAreObjects(own + multiset{o});
      ghost var _ := heap.Release(o);
      Settled(own, own);
    }

    method DestructCons(o: Ptr, ghost own: multiset<Ptr>) returns (r: Result<(Ptr, Ptr)>)
      requires Holding(own + multiset{o})
      modifies heap
      ensures r.Failure? ==> r.error == ConsExpected && o in old(heap.vals) && !old(heap.vals[o]).Cons?
      ensures r.Success? ==>
                && Holding(own + multiset{r.value.0} + multiset{r.value.1}) && State() == old(State()) && Keeps(own)
                && r.value.0 in heap.vals && r.value.1 in heap.vals
                && o in old(heap.vals) && old(heap.vals[o]) == Cons(heap.vals[r.value.0], heap.vals[r.value.1])
    {
      hide Heap.Valid;
      OwnedAreObjects(own + multiset{o});
      var parts :- heap.DestructCons(o);
      OneForTwo(own, o, parts.0, parts.1, multiset(operandStack), multiset(contStack));
      Settled(own + multiset{parts.0} + multiset{parts.1}, own);
      return Success(parts);
    }

    method CreateNil(ghost own: multiset<Ptr>) returns (o: Ptr)
      requires Holding(own)
      modifies heap
      ensures Holding(own + multiset{o}) && State() == old(State()) && Keeps(own)
      ensures o in heap.vals && heap.vals[o] == Nil
    {
      hide Heap.Valid;
      OwnedAreObjects(own);
      o := heap.CreateNil();
      Settled(own + multiset{o}, own);
    }

    method CreateCons(head: Ptr, tail: Ptr, ghost own: multiset<Ptr>) returns (o: Ptr)
      requires Holding(own + multiset{head} + multiset{tail})
      modifies heap
      ensures Holding(own + multiset{o}) && State() == old(State()) && Keeps(own)
      ensures head in old(heap.vals) && tail in old(heap.vals)
      ensures o in heap.vals && heap.vals[o] == Cons(old(heap.vals[head]), old(heap.vals[tail]))
    {
      hide Heap.Valid, Heap.Loose;
      OwnedAreObjects(own + multiset{head} + multiset{tail});
      heap.HeldIsPublished();
      o := heap.CreateCons(head, tail);
      TwoForOne(own, multiset{head}, multiset{tail}, multiset{o}, multiset(operandStack), multiset(contStack));
      Settled(own + multiset{o}, own);
    }

    method CreateAtom(chars: string, ghost own: multiset<Ptr>) returns (o: Ptr)
      requires Holding(own)
      modifies heap
      ensures Holding(own + multiset{o}) && State() == old(State()) && Keeps(own)
      ensures o in heap.vals && heap.vals[o] == Atom(chars)
    {
      hide Heap.Valid;
      OwnedAreObjects(own);
      heap.HeldIsPublished();
      o := heap.CreateAtom(chars);
      Settled(own + multiset{o}, own);
    }

    method CreateFunction(code: Code, data: Ptr, ghost own: multiset<Ptr>) returns (o: Ptr)
      requires Holding(own + multiset{data})
      modifies heap
      ensures Holding(own + multiset{o}) && State() == old(State()) && Keeps(own)
      ensures data in old(heap.vals) && o in heap.vals && heap.vals[o] == Func(code, old(heap.vals[data]))
    {
      hide Heap.Valid;
      OwnedAreObjects(own + multiset{data});
      heap.HeldIsPublished();
      o := heap.CreateFunction(code, data);
      Settled(own + multiset{o}, own);
    }

    method Push(o: Ptr, ghost own: multiset<Ptr>)
      requires Holding(own + multiset{o})
      modifies `operandStack
      ensures Holding(own) && o in heap.vals && State() == M.Push(heap.vals[o], old(State()))
    {
      OwnedAreObjects(own + multiset{o});
      operandStack := [o] + operandStack;
    }

    method PushCont(o: Ptr, ghost own: multiset<Ptr>)
      requires Holding(own + multiset{o}) && o in heap.vals && heap.vals[o].Func?
      modifies `contStack
      ensures Holding(own) && State() == M.PushCont(heap.vals[o].code, heap.vals[o].data, old(State()))
    {
      OwnedAreObjects(own + multiset{o});
      contStack := [o] + contStack;
    }

    method Pop(ghost own: multiset<Ptr>) returns (r: Result<Ptr>)
      requires Holding(own)
      modifies `operandStack
      ensures match r
              case Failure(e) => M.Pop(old(State())) == Failure(e)
              case Success(o) =>
                && Holding(own + multiset{o}) && o in heap.vals
                && M.Pop(old(State())) == Success((heap.vals[o], State()))
    {
      hide Heap.Valid;
      OwnedAreObjects(own);
      if operandStack == [] {
        return Failure(StackUnderflow);
      }
      FirstAndRest(operandStack);
      var result := operandStack[0];
      operandStack := operandStack[1..];
      return Success(result);
    }

    method PopCont(ghost own: multiset<Ptr>) returns (o: Ptr)
      requires Holding(own) && contStack != []
      modifies `contStack
      ensures Holding(own + multiset{o}) && o in heap.vals && old(State()).conts.Cons?
      ensures heap.vals[o] == old(State()).conts.head && State() == old(State()).(conts := old(State()).conts.tail)
    {
      hide Heap.Valid;
      OwnedAreObjects(own);
      FirstAndRest(contStack);
      o := contStack[0];
      contStack := contStack[1..];
    }

    /** The value bound to a key, or the null pointer if there is none. The reference to the list is given up. */
    method Assoc(key: Ptr, map_: Ptr, ghost own: multiset<Ptr>) returns (r: Result<Ptr>)
      requires Holding(own + multiset{map_}) && key in own && key in heap.vals && heap.vals[key].Atom?
      modifies heap
      ensures map_ in old(heap.vals)
      ensures match M.Assoc(old(heap.vals[key]).chars, old(heap.vals[map_]))
              case Failure(e) => r == Failure(e)
              case Success(None) => r == Success(NULL) && Owns(own)
              case Success(Some(v)) =>
                && r.Success? && r.value != NULL && Owns(own + multiset{r.value})
                && r.value in heap.vals && heap.vals[r.value] == v
      ensures r.Success? ==> Valid() && State() == old(State()) && Keeps(own)
    {
      hide Heap.Valid, Interp.Valid, Interp.Owns, Interp.State, M.Assoc;
      OwnedAreObjects(own + multiset{map_});
      ghost var name, target := heap.vals[key].chars, M.Assoc(heap.vals[key].chars, heap.vals[map_]);
      var m := map_;
      while true
        invariant Holding(own + multiset{m}) && State() == old(State()) && Keeps(own) && m in heap.vals
        invariant M.Assoc(name, heap.vals[m]) == target
        decreases heap.vals[m]
      {
        OwnedAreObjects(own + multiset{m});
        heap.ObjectMeaning(m);
        if m == heap.nil {
          AssocStep(name, Nil);
          Release(m, own);
          return Success(NULL);
        }
        var result;
        result, m := AssocCell(key, m, own);
        var value :- result;
        if value != NULL {
          return Success(value);
        }
      }
    }

    /** The body of the loop of 'assoc': the value if the first entry of the list has the key, otherwise the
        null pointer and the rest of the list. */
    method AssocCell(key: Ptr, m: Ptr, ghost own: multiset<Ptr>) returns (r: Result<Ptr>, mapTail: Ptr)
      requires Holding(own + multiset{m}) && key in own && key in heap.vals && heap.vals[key].Atom?
      requires m in heap.vals && heap.vals[m] != Nil
      modifies heap
      ensures var spec := M.Assoc(old(heap.vals[key]).chars, old(heap.vals[m]));
              match r
              case Failure(e) => spec == Failure(e)
              case Success(o) =>
                && Valid() && State() == old(State()) && Keeps(own)
                && (o == NULL ==>
                      && Owns(own + multiset{mapTail}) && mapTail in heap.vals && old(heap.vals[m]).Cons?
                      && heap.vals[mapTail] == old(heap.vals[m]).tail
                      && spec == M.Assoc(old(heap.vals[key]).chars, heap.vals[mapTail]))
                && (o != NULL ==> Owns(own + multiset{o}) && o in heap.vals && spec == Success(Some(heap.vals[o])))
    {
      hide Heap.Valid, Interp.Valid, Interp.Owns, Interp.State, M.Assoc;
      AssocStep(heap.vals[key].chars, heap.vals[m]);
      mapTail := NULL;
      var cell :- DestructCons(m, own);
      var mapHead := cell.0;
      mapTail := cell.1;
      assert own + multiset{mapHead} + multiset{mapTail} == own + multiset{mapTail} + multiset{mapHead};
      var entry :- AssocEntry(key, mapHead, own + multiset{mapTail});
      if entry != NULL {
        assert own + multiset{mapTail} + multiset{entry} == own + multiset{entry} + multiset{mapTail};
        Release(mapTail, own + multiset{entry});
        return Success(entry), mapTail;
      }
      return Success(NULL), mapTail;
    }

    /** The body of the loop of 'assoc' for one entry: the value of the entry if the key is its key, otherwise
        the null pointer. */
    method AssocEntry(key: Ptr, mapHead: Ptr, ghost own: multiset<Ptr>) returns (r: Result<Ptr>)
      requires Holding(own + multiset{mapHead}) && key in own && key in heap.vals && heap.vals[key].Atom?
      modifies heap
      ensures mapHead in old(heap.vals)
      ensures var entry := old(heap.vals[mapHead]);
              match r
              case Failure(e) =>
                if entry.Cons? then !entry.head.Atom? && e == AtomsExpected else e == ConsExpected
              case Success(o) =>
                && entry.Cons? && entry.head.Atom? && Valid() && State() == old(State()) && Keeps(own)
                && (o == NULL ==> entry.head != old(heap.vals[key]) && Owns(own))
                && (o != NULL ==> entry.head == old(heap.vals[key]) && Owns(own + multiset{o})
                                  && o in heap.vals && heap.vals[o] == entry.tail)
    {
      hide Heap.Valid, Interp.Valid, Interp.Owns, Interp.State;
      OwnedAreObjects(own + multiset{mapHead});
      var entry :- DestructCons(mapHead, own);
      var (entryHead, entryTail) := entry;
      assert own + multiset{entryHead} + multiset{entryTail} == own + multiset{entryTail} + multiset{entryHead};
      OwnedAreObjects(own + multiset{entryHead} + multiset{entryTail});
      heap.ObjectMeaning(entryHead);
      heap.ObjectMeaning(key);
      if entryHead == key {
        Release(entryHead, own + multiset{entryTail});
        return Success(entryTail);
      }
      if !heap.mem[entryHead].body.AtomBody? {
        return Failure(AtomsExpected);
      }
      var eq := heap.mem[key].body.chars == heap.mem[entryHead].body.chars;
      Release(entryHead, own + multiset{entryTail});
      if eq {
        return Success(entryTail);
      }
      Release(entryTail, own);
      return Success(NULL);
    }

    /** create_function and push_cont in a row. */
    method Schedule(code: Code, data: Ptr, ghost own: multiset<Ptr>)
      requires Holding(own + multiset{data})
      modifies heap, `contStack
      ensures Holding(own) && Keeps(own) && data in old(heap.vals)
      ensures State() == M.PushCont(code, old(heap.vals[data]), old(State()))
    {
      hide Heap.Valid, Interp.Valid, Interp.Owns, Interp.State;
      var function_ := CreateFunction(code, data, own);
      PushCont(function_, own);
    }

    /** create_cons, create_function and push_cont in a row. */
    method ScheduleEval(envs: Ptr, expr: Ptr, ghost own: multiset<Ptr>)
      requires Holding(own + multiset{envs} + multiset{expr})
      modifies heap, `contStack
      ensures Holding(own) && Keeps(own) && envs in old(heap.vals) && expr in old(heap.vals)
      ensures State() == M.PushCont(Eval, Cons(old(heap.vals[envs]), old(heap.vals[expr])), old(State()))
    {
      hide Heap.Valid, Interp.Valid, Interp.Owns, Interp.State;
      var functionData := CreateCons(envs, expr, own);
      Schedule(Eval, functionData, own);
    }

    /** 'print_atom' */
    method PrintAtom(data: Ptr, ghost own: multiset<Ptr>) returns (r: Result<()>)
      requires Holding(own + multiset{data})
      modifies heap, `operandStack, `output
      ensures Follows(r, M.PrintStep(old(State())))
      ensures if r.Success? then Owns(own) && Keeps(own) else output == old(output)
    {
      hide Heap.Valid, Interp.Valid, Interp.Owns, Interp.State;
      var arg :- Pop(own + multiset{data});
      OwnedAreObjects(own + multiset{data} + multiset{arg});
      heap.ObjectMeaning(arg);
      if !heap.mem[arg].body.AtomBody? {
        return Failure(ArgumentNotAnAtom);
      }
      Print(arg, own + multiset{data} + multiset{arg});
      assert own + multiset{data} + multiset{arg} == own + multiset{arg} + multiset{data};
      Release(data, own + multiset{arg});
      Release(arg, own);
      var nilValue := CreateNil(own);
      Push(nilValue, own);
      return Success(());
    }

    /** 'print_string_buffer' applied to an atom. */
    method Print(arg: Ptr, ghost own: multiset<Ptr>)
      requires Holding(own) && arg in own && arg in heap.vals && heap.vals[arg].Atom?
      modifies `output
      ensures Holding(own) && State() == old(State()).(out := old(State()).out + [heap.vals[arg].chars])
    {
      heap.ObjectMeaning(arg);
      output := output + [heap.mem[arg].body.chars];
    }

    /** 'quote_function' */
    method QuoteFunction(data: Ptr, ghost own: multiset<Ptr>) returns (r: Result<()>)
      requires Holding(own + multiset{data})
      modifies heap, `operandStack
      ensures Follows(r, M.QuoteStep(old(State())))
      ensures r.Success? ==> Owns(own) && Keeps(own)
    {
      hide Heap.Valid, Interp.Valid, Interp.Owns, Interp.State;
      var arg :- Pop(own + multiset{data});
      var parts :- DestructCons(arg, own + multiset{data});
      var (envs, body) := parts;
      assert own + multiset{data} + multiset{envs} + multiset{body}
          == own + multiset{data} + multiset{body} + multiset{envs};
      Release(envs, own + multiset{data} + multiset{body});
      assert own + multiset{data} + multiset{body} == own + multiset{body} + multiset{data};
      Release(data, own + multiset{body});
      Push(body, own);
      return Success(());
    }

    /** 'fun_function' */
    method FunFunction(data: Ptr, ghost own: multiset<Ptr>) returns (r: Result<()>)
      requires Holding(own + multiset{data})
      modifies heap, `operandStack
      ensures Follows(r, M.FunStep(old(State())))
      ensures r.Success? ==> Owns(own) && Keeps(own)
    {
      hide Heap.Valid, Interp.Valid, Interp.Owns, Interp.State;
      var arg :- Pop(own + multiset{data});
      assert own + multiset{data} + multiset{arg} == own + multiset{arg} + multiset{data};
      Release(data, own + multiset{arg});
      var newFunction := CreateFunction(FunApply, arg, own);
      Push(newFunction, own);
      return Success(());
    }

    /** 'fun_apply_function' */
    method FunApplyFunction(data: Ptr, ghost own: multiset<Ptr>) returns (r: Result<()>)
      requires Holding(own + multiset{data}) && data in heap.vals
      modifies heap, `operandStack, `contStack
      ensures Follows(r, M.FunApplyStep(old(heap.vals[data]), old(State())))
      ensures r.Success? ==> Owns(own) && Keeps(own)
    {
      hide Heap.Valid, Interp.Valid, Interp.Owns, Interp.State;
      var arg :- Pop(own + multiset{data});
      assert own + multiset{data} + multiset{arg} == own + multiset{arg} + multiset{data};
      var parts :- DestructEnvs(data, own + multiset{arg});
      var (forms, env, expr) := parts;
      r := BindParam(arg, forms, env, expr, own);
    }

    /** Two calls of destruct_cons in a row: the forms and the environment, and what is to be done there. */
    method DestructEnvs(data: Ptr, ghost own: multiset<Ptr>) returns (r: Result<(Ptr, Ptr, Ptr)>)
      requires Holding(own + multiset{data}) && data in heap.vals
      modifies heap
      ensures r.Failure? ==>
                r.error == ConsExpected && (old(heap.vals[data]).Cons? ==> !old(heap.vals[data]).head.Cons?)
      ensures r.Success? ==>
                var (forms, env, expr) := r.value;
                && Holding(own + multiset{forms} + multiset{env} + multiset{expr}) && State() == old(State())
                && Keeps(own)
                && forms in heap.vals && env in heap.vals && expr in heap.vals
                && old(heap.vals[data]) == Cons(Cons(heap.vals[forms], heap.vals[env]), heap.vals[expr])
    {
      hide Heap.Valid, Interp.Valid, Interp.Owns, Interp.State;
      var dataParts :- DestructCons(data, own);
      var (envs, expr) := dataParts;
      assert own + multiset{envs} + multiset{expr} == own + multiset{expr} + multiset{envs};
      var envsParts :- DestructCons(envs, own + multiset{expr});
      var (forms, env) := envsParts;
      assert own + multiset{expr} + multiset{forms} + multiset{env}
          == own + multiset{forms} + multiset{env} + multiset{expr};
      return Success((forms, env, expr));
    }

    method BindParam(arg: Ptr, forms: Ptr, env: Ptr, expr: Ptr, ghost own: multiset<Ptr>) returns (r: Result<()>)
      requires Holding(own + multiset{arg} + multiset{forms} + multiset{env} + multiset{expr})
      requires arg in heap.vals && forms in heap.vals && env in heap.vals && expr in heap.vals
      modifies heap, `contStack
      ensures var e := old(heap.vals[expr]);
              match r
              case Failure(x) =>
                if e.Cons? then !e.head.Atom? && x == ParamNotAnAtom else x == ConsExpected
              case Success(_) =>
                && e.Cons? && e.head.Atom? && Valid()
                && State() == M.PushCont(Eval, Cons(Cons(old(heap.vals[forms]),
                                                         Cons(Cons(e.head, old(heap.vals[arg])), old(heap.vals[env]))),
                                                    e.tail), old(State()))
      ensures r.Success? ==> Owns(own) && Keeps(own)
    {
      hide Heap.Valid, Interp.Valid, Interp.Owns, Interp.State;
      ghost var kept := own + multiset{arg} + multiset{forms} + multiset{env};
      var exprParts :- DestructCons(expr, kept);
      var (param, body) := exprParts;
      assert arg in kept && forms in kept && env in kept && own <= kept;
      OwnedAreObjects(own + multiset{arg} + multiset{forms} + multiset{env} + multiset{param} + multiset{body});
      heap.ObjectMeaning(param);
      if !heap.mem[param].body.AtomBody? {
        return Failure(ParamNotAnAtom);
      }
      ArgLast(own, multiset{arg}, multiset{forms}, multiset{env}, multiset{param}, multiset{body});
      EnterBody(param, arg, env, forms, body, own);
      return Success(());
    }

    /** 'map_cons' */
    method MapCons(key: Ptr, value: Ptr, map_: Ptr, ghost own: multiset<Ptr>) returns (o: Ptr)
      requires Holding(own + multiset{map_} + multiset{key} + multiset{value})
      requires key in heap.vals && value in heap.vals && map_ in heap.vals
      modifies heap
      ensures Holding(own + multiset{o}) && State() == old(State()) && Keeps(own)
      ensures o in heap.vals
      ensures heap.vals[o] == Cons(Cons(old(heap.vals[key]), old(heap.vals[value])), old(heap.vals[map_]))
    {
      hide Heap.Valid, Interp.Valid, Interp.Owns, Interp.State;
      var entry := CreateCons(key, value, own + multiset{map_});
      assert own + multiset{map_} + multiset{entry} == own + multiset{entry} + multiset{map_};
      o := CreateCons(entry, map_, own);
    }

    /** The last part of 'fun_apply_function': bind the parameter and schedule the body. */
    method EnterBody(param: Ptr, arg: Ptr, env: Ptr, forms: Ptr, body: Ptr, ghost own: multiset<Ptr>)
      requires Holding(own + multiset{forms} + multiset{body} + multiset{env} + multiset{param} + multiset{arg})
      requires param in heap.vals && arg in heap.vals && env in heap.vals && forms in heap.vals && body in heap.vals
      modifies heap, `contStack
      ensures Holding(own) && Keeps(own)
      ensures var newEnv := Cons(Cons(old(heap.vals[param]), old(heap.vals[arg])), old(heap.vals[env]));
              State() ==
              M.PushCont(Eval, Cons(Cons(old(heap.vals[forms]), newEnv), old(heap.vals[body])), old(State()))
    {
      hide Heap.Valid, Interp.Valid, Interp.Owns, Interp.State;
      var newEnv := MapCons(param, arg, env, own + multiset{forms} + multiset{body});
      assert own + multiset{forms} + multiset{body} + multiset{newEnv}
          == own + multiset{body} + multiset{forms} + multiset{newEnv};
      var newEnvs := CreateCons(forms, newEnv, own + multiset{body});
      assert own + multiset{body} + multiset{newEnvs} == own + multiset{newEnvs} + multiset{body};
      ScheduleEval(newEnvs, body, own);
    }

    /** 'apply' */
    method Apply(function_: Ptr, ghost own: multiset<Ptr>) returns (r: Result<()>)
      requires Holding(own + multiset{function_}) && function_ in heap.vals
      requires M.Callable(heap.vals[function_], State())
      modifies heap, `operandStack, `contStack, `output
      ensures Follows(r, M.Apply(old(heap.vals[function_]), old(State())))
      ensures if r.Success? then Owns(own) && Keeps(own) else output == old(output)
      decreases if M.Primitive(heap.vals[function_]) then 1 else 3
    {
      hide Heap.Valid, Interp.Valid, Interp.Owns, Interp.State;
      OwnedAreObjects(own + multiset{function_});
      heap.ObjectMeaning(function_);
      if !heap.mem[function_].body.FunctionBody? {
        return Failure(NotAFunction);
      }
      var code := heap.mem[function_].body.code;
      var data := TakeData(function_, own);
      match code {
        case PopApply => r := PopApplyFunction(data, own);
        case Eval => r := EvalFunction(data, own);
        case PrintAtom => r := PrintAtom(data, own);
        case Quote => r := QuoteFunction(data, own);
        case Fun => r := FunFunction(data, own);
        case FunApply => r := FunApplyFunction(data, own);
      }
    }

    /** A reference to the data of a function is obtained before the reference to the function is given up. */
    method TakeData(function_: Ptr, ghost own: multiset<Ptr>) returns (data: Ptr)
      requires Holding(own + multiset{function_}) && function_ in heap.vals && heap.vals[function_].Func?
      modifies heap
      ensures Holding(own + multiset{data}) && State() == old(State()) && Keeps(own)
      ensures data in heap.vals && heap.vals[data] == old(heap.vals[function_]).data
    {
      hide Heap.Valid, Interp.Valid, Interp.Owns, Interp.State;
      OwnedAreObjects(own + multiset{function_});
      heap.ObjectMeaning(function_);
      data := heap.mem[function_].body.data;
      AddRefInside(data, own + multiset{function_});
      assert own + multiset{function_} + multiset{data} == own + multiset{data} + multiset{function_};
      Release(function_, own + multiset{data});
    }

    /** 'pop_apply' */
    method PopApplyFunction(data: Ptr, ghost own: multiset<Ptr>) returns (r: Result<()>)
      requires Holding(own + multiset{data}) && (State().ops.Cons? ==> M.Primitive(State().ops.head))
      modifies heap, `operandStack, `contStack, `output
      ensures Follows(r, M.Apply(Func(PopApply, Nil), old(State())))
      ensures if r.Success? then Owns(own) && Keeps(own) else output == old(output)
      decreases 2
    {
      hide Heap.Valid, Interp.Valid, Interp.Owns, Interp.State;
      var f :- Pop(own + multiset{data});
      assert own + multiset{data} + multiset{f} == own + multiset{f} + multiset{data};
      Release(data, own + multiset{f});
      r := Apply(f, own);
    }

    /** 'eval' */
    method EvalFunction(data: Ptr, ghost own: multiset<Ptr>) returns (r: Result<()>)
      requires Holding(own + multiset{data}) && data in heap.vals && M.EvalReady(heap.vals[data])
      modifies heap, `operandStack, `contStack, `output
      ensures Follows(r, M.EvalStep(old(heap.vals[data]), old(State())))
      ensures if r.Success? then Owns(own) && Keeps(own) else output == old(output)
      decreases 2, 1
    {
      hide Heap.Valid, Interp.Valid, Interp.Owns, Interp.State;
      var parts :- OpenThunk(data, own);
      var (envs, forms, env, expr) := parts;
      OwnedAreObjects(own + multiset{envs} + multiset{forms} + multiset{env} + multiset{expr});
      heap.ObjectMeaning(expr);
      if heap.mem[expr].body.AtomBody? {
        r := EvalAtom(envs, forms, env, expr, own);
      } else if heap.mem[expr].body.ConsBody? {
        r := EvalPair(envs, forms, env, expr, own);
      } else {
        return Failure(CannotEvaluate);
      }
    }

    /** The first part of 'eval': the environments, their two parts, and the expression. */
    method OpenThunk(data: Ptr, ghost own: multiset<Ptr>) returns (r: Result<(Ptr, Ptr, Ptr, Ptr)>)
      requires Holding(own + multiset{data}) && data in heap.vals
      modifies heap
      ensures r.Failure? ==>
                r.error == ConsExpected && (old(heap.vals[data]).Cons? ==> !old(heap.vals[data]).head.Cons?)
      ensures r.Success? ==>
                var (envs, forms, env, expr) := r.value;
                && Holding(own + multiset{envs} + multiset{forms} + multiset{env} + multiset{expr})
                && State() == old(State()) && Keeps(own)
                && envs in heap.vals && forms in heap.vals && env in heap.vals && expr in heap.vals
                && heap.vals[envs] == Cons(heap.vals[forms], heap.vals[env])
                && old(heap.vals[data]) == Cons(heap.vals[envs], heap.vals[expr])
    {
      hide Heap.Valid, Interp.Valid, Interp.Owns, Interp.State;
      var dataParts :- DestructCons(data, own);
      var (envs, expr) := dataParts;
      AddRef(envs, own + multiset{envs} + multiset{expr});
      var envsParts :- DestructCons(envs, own + multiset{envs} + multiset{expr});
      var (forms, env) := envsParts;
      assert own + multiset{envs} + multiset{expr} + multiset{forms} + multiset{env}
          == own + multiset{envs} + multiset{forms} + multiset{env} + multiset{expr};
      return Success((envs, forms, env, expr));
    }

    /** The branch of 'eval' for an atom. */
    method EvalAtom(envs: Ptr, forms: Ptr, env: Ptr, expr: Ptr, ghost own: multiset<Ptr>) returns (r: Result<()>)
      requires Holding(own + multiset{envs} + multiset{forms} + multiset{env} + multiset{expr})
      requires envs in heap.vals && forms in heap.vals
      requires env in heap.vals && expr in heap.vals && heap.vals[expr].Atom?
      modifies heap, `operandStack
      ensures match M.Assoc(old(heap.vals[expr]).chars, old(heap.vals[env]))
              case Failure(e) => r == Failure(e)
              case Success(None) => r == Failure(NoSuchBinding)
              case Success(Some(v)) => r == Success(()) && Valid() && State() == M.Push(v, old(State()))
      ensures r.Success? ==> Owns(own) && Keeps(own)
    {
      hide Heap.Valid, Interp.Valid, Interp.Owns, Interp.State, M.Assoc;
      ghost var own1 := own + multiset{envs} + multiset{forms} + multiset{env} + multiset{expr};
      assert expr in own1 && env in own1 && own <= own1;
      AddRef(env, own1);
      var value :- Assoc(expr, env, own1);
      if value == NULL {
        return Failure(NoSuchBinding);
      }
      ValueFirst(own, multiset{envs}, multiset{forms}, multiset{env}, multiset{expr}, multiset{value});
      ReleaseFour(envs, forms, env, expr, own + multiset{value}, own1 + multiset{value});
      Push(value, own);
      return Success(());
    }

    /** Two references are given up in a row. */
    method ReleaseTwo(a: Ptr, b: Ptr, ghost own: multiset<Ptr>, ghost all: multiset<Ptr>)
      requires Holding(all) && all == own + multiset{a} + multiset{b}
      modifies heap
      ensures Holding(own) && State() == old(State()) && Keeps(own)
    {
      hide Heap.Valid, Interp.Valid, Interp.Owns, Interp.State;
      assert all == own + multiset{b} + multiset{a};
      Release(a, own + multiset{b});
      Release(b, own);
    }

    /** Four references are given up in a row. */
    method ReleaseFour(a: Ptr, b: Ptr, c: Ptr, d: Ptr, ghost own: multiset<Ptr>, ghost all: multiset<Ptr>)
      requires Holding(all) && all == own + multiset{a} + multiset{b} + multiset{c} + multiset{d}
      modifies heap
      ensures Holding(own) && State() == old(State()) && Keeps(own)
    {
      hide Heap.Valid, Interp.Valid, Interp.Owns, Interp.State;
      assert all == own + multiset{c} + multiset{d} + multiset{a} + multiset{b};
      ReleaseTwo(a, b, own + multiset{c} + multiset{d}, all);
      ReleaseTwo(c, d, own, own + multiset{c} + multiset{d});
    }

    /** The branch of 'eval' for a cons: the use of a form or an application. */
    method EvalPair(envs: Ptr, forms: Ptr, env: Ptr, expr: Ptr, ghost own: multiset<Ptr>) returns (r: Result<()>)
      requires Holding(own + multiset{envs} + multiset{forms} + multiset{env} + multiset{expr})
      requires envs in heap.vals && forms in heap.vals
      requires env in heap.vals && expr in heap.vals && heap.vals[expr].Cons?
      requires heap.vals[envs] == Cons(heap.vals[forms], heap.vals[env])
      requires M.EvalReady(Cons(heap.vals[envs], heap.vals[expr]))
      modifies heap, `operandStack, `contStack, `output
      ensures Follows(r, M.EvalStep(Cons(old(heap.vals[envs]), old(heap.vals[expr])), old(State())))
      ensures if r.Success? then Owns(own) && Keeps(own) else output == old(output)
      decreases 2, 0
    {
      hide Heap.Valid, Interp.Valid, Interp.Owns, Interp.State;
      hide M.EvalStep, M.EvalReady, PairStep, FindFormIn, M.Primitive;
      var exprParts := DestructCons(expr, own + multiset{envs} + multiset{forms} + multiset{env});
      var (fExpr, argExpr) := exprParts.value;
      PairIsEvaluated(heap.vals[envs], heap.vals[fExpr], heap.vals[argExpr], State());
      r := EvalParts(envs, forms, env, fExpr, argExpr, own);
    }

    /** The two parts of a cons that is evaluated. */
    method EvalParts(envs: Ptr, forms: Ptr, env: Ptr, fExpr: Ptr, argExpr: Ptr, ghost own: multiset<Ptr>)
      returns (r: Result<()>)
      requires Holding(own + multiset{envs} + multiset{forms} + multiset{env} + multiset{fExpr} + multiset{argExpr})
      requires envs in heap.vals && forms in heap.vals && fExpr in heap.vals && argExpr in heap.vals
      requires var form := FindFormIn(heap.vals[fExpr], heap.vals[forms]);
               form.Success? && form.value.Some? ==> M.Primitive(form.value.value)
      modifies heap, `operandStack, `contStack, `output
      ensures match FindFormIn(old(heap.vals[fExpr]), old(heap.vals[forms]))
              case Failure(e) => r == Failure(e)
              case Success(form) =>
                Follows(r, PairStep(form, old(heap.vals[envs]), old(heap.vals[fExpr]), old(heap.vals[argExpr]),
                                    old(State())))
      ensures if r.Success? then Owns(own) && Keeps(own) else output == old(output)
      decreases 2, 0, 2
    {
      hide Heap.Valid, Interp.Valid, Interp.Owns, Interp.State, Interp.RefTo, PairStep, FindFormIn, M.Primitive;
      ghost var all := own + multiset{envs} + multiset{forms} + multiset{env} + multiset{fExpr} + multiset{argExpr};
      var form :- FindForm(forms, fExpr, all);
      assert envs in all && fExpr in all && argExpr in all && own <= all;
      assert IsForm(form) && Success(FormAt(form)) == FindFormIn(old(heap.vals[fExpr]), old(heap.vals[forms]));
      r := EvalUse(form, envs, forms, env, fExpr, argExpr, own);
    }

    /** The reference to a form that was found, if one was. */
    ghost function RefTo(form: Ptr): multiset<Ptr> {
      if form == NULL then multiset{} else multiset{form}
    }

    ghost predicate IsForm(form: Ptr)
      reads heap
    {
      form != NULL ==> form in heap.vals && M.Primitive(heap.vals[form])
    }

    ghost function FormAt(form: Ptr): Option<Val>
      reads heap
      requires IsForm(form)
    {
      if form == NULL then None else Some(heap.vals[form])
    }

    /** The rest of 'eval' when it is known whether the head names a form. */
    method EvalUse(form: Ptr, envs: Ptr, forms: Ptr, env: Ptr, fExpr: Ptr, argExpr: Ptr, ghost own: multiset<Ptr>)
      returns (r: Result<()>)
      requires Holding(own + multiset{envs} + multiset{forms} + multiset{env} + multiset{fExpr} + multiset{argExpr}
                       + RefTo(form))
      requires envs in heap.vals && fExpr in heap.vals && argExpr in heap.vals
      requires IsForm(form)
      modifies heap, `operandStack, `contStack, `output
      ensures Follows(r, PairStep(old(FormAt(form)), old(heap.vals[envs]), old(heap.vals[fExpr]),
                                  old(heap.vals[argExpr]), old(State())))
      ensures if r.Success? then Owns(own) && Keeps(own) else output == old(output)
      decreases 2, 0, 1
    {
      hide Heap.Valid, Interp.Valid, Interp.Owns, Interp.State, M.ApplyPrimitive;
      EnvsLast(own, multiset{envs}, multiset{forms}, multiset{env}, multiset{fExpr}, multiset{argExpr}, RefTo(form));
      ReleaseTwo(forms, env, own + multiset{envs} + multiset{fExpr} + multiset{argExpr} + RefTo(form),
                  own + multiset{envs} + multiset{forms} + multiset{env} + multiset{fExpr} + multiset{argExpr}
                  + RefTo(form));
      r := EvalBranch(form, envs, fExpr, argExpr, own);
    }

    method EvalBranch(form: Ptr, envs: Ptr, fExpr: Ptr, argExpr: Ptr, ghost own: multiset<Ptr>) returns (r: Result<()>)
      requires Holding(own + multiset{envs} + multiset{fExpr} + multiset{argExpr} + RefTo(form))
      requires envs in heap.vals && fExpr in heap.vals && argExpr in heap.vals
      requires IsForm(form)
      modifies heap, `operandStack, `contStack, `output
      ensures Follows(r, PairStep(old(FormAt(form)), old(heap.vals[envs]), old(heap.vals[fExpr]),
                                  old(heap.vals[argExpr]), old(State())))
      ensures if r.Success? then Owns(own) && Keeps(own) else output == old(output)
      decreases 2, 0, 0, 1
    {
      hide Heap.Valid, Interp.Valid, Interp.Owns, Interp.State, M.ApplyPrimitive;
      EnvsLast(own, multiset{envs}, multiset{}, multiset{}, multiset{fExpr}, multiset{argExpr}, RefTo(form));
      if form != NULL {
        Release(fExpr, own + multiset{form} + multiset{envs} + multiset{argExpr});
        r := ApplyForm(form, envs, argExpr, own);
      } else {
        ScheduleApplication(envs, fExpr, argExpr, own);
        r := Success(());
      }
    }

    /** The form that an expression in head position names, or the null pointer if it names none. */
    method FindForm(forms: Ptr, fExpr: Ptr, ghost own: multiset<Ptr>) returns (r: Result<Ptr>)
      requires Holding(own) && forms in own && fExpr in own && forms in heap.vals && fExpr in heap.vals
      modifies heap
      ensures match FindFormIn(old(heap.vals[fExpr]), old(heap.vals[forms]))
              case Failure(e) => r == Failure(e)
              case Success(None) => r == Success(NULL)
              case Success(Some(v)) => r.Success? && r.value != NULL && r.value in heap.vals && heap.vals[r.value] == v
      ensures r.Success? ==> Holding(own + RefTo(r.value)) && State() == old(State()) && Keeps(own)
    {
      hide Heap.Valid, Interp.Valid, Interp.Owns, Interp.State, M.Assoc;
      assert own + multiset{} == own;
      OwnedAreObjects(own);
      heap.ObjectMeaning(fExpr);
      if !heap.mem[fExpr].body.AtomBody? {
        return Success(NULL);
      }
      AddRef(forms, own);
      r := Assoc(fExpr, forms, own);
    }

    /** The branch of 'eval' for a form: the form itself gets the environments and the argument expression. */
    method ApplyForm(form: Ptr, envs: Ptr, argExpr: Ptr, ghost own: multiset<Ptr>) returns (r: Result<()>)
      requires Holding(own + multiset{form} + multiset{envs} + multiset{argExpr})
      requires form in heap.vals && envs in heap.vals && argExpr in heap.vals && M.Primitive(heap.vals[form])
      modifies heap, `operandStack, `contStack, `output
      ensures Follows(r, M.ApplyPrimitive(old(heap.vals[form]),
                                          M.Push(Cons(old(heap.vals[envs]), old(heap.vals[argExpr])), old(State()))))
      ensures if r.Success? then Owns(own) && Keeps(own) else output == old(output)
      decreases 2, 0, 0, 0
    {
      hide Heap.Valid, Interp.Valid, Interp.Owns, Interp.State, M.ApplyPrimitive;
      var value := CreateCons(envs, argExpr, own + multiset{form});
      Push(value, own + multiset{form});
      r := Apply(form, own);
    }

    /** The branch of 'eval' for an application: the call, the function expression and the argument
        expression are scheduled, so that the argument is evaluated first. */
    method ScheduleApplication(envs: Ptr, fExpr: Ptr, argExpr: Ptr, ghost own: multiset<Ptr>)
      requires Holding(own + multiset{envs} + multiset{fExpr} + multiset{argExpr})
      requires envs in heap.vals && fExpr in heap.vals && argExpr in heap.vals
      modifies heap, `contStack
      ensures var e, f, a := old(heap.vals[envs]), old(heap.vals[fExpr]), old(heap.vals[argExpr]);
              Holding(own) && Keeps(own)
              && State() == M.PushCont(Eval, Cons(e, a),
                                       M.PushCont(Eval, Cons(e, f), M.PushCont(PopApply, Nil, old(State()))))
    {
      hide Heap.Valid, Interp.Valid, Interp.Owns, Interp.State;
      ghost var own1 := own + multiset{envs} + multiset{fExpr} + multiset{argExpr};
      var nilValue := CreateNil(own1);
      Schedule(PopApply, nilValue, own1);
      AddRef(envs, own1);
      FunctionLast(own, multiset{envs}, multiset{fExpr}, multiset{argExpr});
      ScheduleEval(envs, fExpr, own + multiset{envs} + multiset{argExpr});
      ScheduleEval(envs, argExpr, own);
    }

    /** 'map_cons_s_func_nil' */
    method MapConsFunction(name: string, code: Code, map_: Ptr, ghost own: multiset<Ptr>) returns (o: Ptr)
      requires Holding(own + multiset{map_}) && map_ in heap.vals
      modifies heap
      ensures Holding(own + multiset{o}) && State() == old(State()) && Keeps(own)
      ensures o in heap.vals && heap.vals[o] == Cons(Cons(Atom(name), Func(code, Nil)), old(heap.vals[map_]))
    {
      hide Heap.Valid, Interp.Valid, Interp.Owns, Interp.State;
      var data := CreateNil(own + multiset{map_});
      var func := CreateFunction(code, data, own + multiset{map_});
      var atom := CreateAtom(name, own + multiset{map_} + multiset{func});
      assert own + multiset{map_} + multiset{func} + multiset{atom}
          == own + multiset{map_} + multiset{atom} + multiset{func};
      o := MapCons(atom, func, map_, own);
    }

    /** The variables 'forms' and 'env' of 'main'. */
    method Initialize() returns (forms: Ptr, env: Ptr)
      requires Holding(multiset{})
      modifies heap
      ensures Globals(forms, env) && State() == old(State())
    {
      hide Heap.Valid, Interp.Valid, Interp.Owns, Interp.State;
      forms := CreateNil(multiset{});
      forms := MapConsFunction("quote", Code.Quote, forms, multiset{});
      forms := MapConsFunction("fun", Code.Fun, forms, multiset{});
      assert multiset{} + multiset{forms} == multiset{forms};
      env := CreateNil(multiset{forms});
      env := MapConsFunction("print_atom", Code.PrintAtom, env, multiset{forms});
    }

    /** Between two programs 'main' holds the forms and the environment and nothing else. */
    ghost predicate Globals(forms: Ptr, env: Ptr)
      reads this, heap
    {
      && Holding(multiset{forms} + multiset{env})
      && forms in heap.vals && heap.vals[forms] == M.FORMS && env in heap.vals && heap.vals[env] == M.ENV
    }

    method ReadExpression(tokenizer: Tokenizer, ghost own: multiset<Ptr>) returns (r: Result<Ptr>)
      requires Holding(own) && tokenizer.Valid()
      modifies heap, tokenizer
      ensures match r
              case Failure(e) => Syntax.Parse(old(tokenizer.Rest())) == Failure(e)
              case Success(o) =>
                && Holding(own + multiset{o}) && State() == old(State()) && Keeps(own) && o in heap.vals
                && tokenizer.Valid() && Syntax.Parse(old(tokenizer.Rest())) == Success((heap.vals[o], tokenizer.Rest()))
    {
      hide Heap.Valid, Syntax.Parse;
      OwnedAreObjects(own);
      var expr :- CountedReader.Parse(heap, tokenizer);
      Settled(own + multiset{expr}, own);
      return Success(expr);
    }

    lemma ContsAtHand()
      requires Valid()
      ensures contStack == [] <==> !State().conts.Cons?
    {
    }

    /** One turn of the inner loop of 'main'. */
    method Turn(ghost n: nat, ghost own: multiset<Ptr>) returns (r: Result<()>)
      requires Holding(own) && M.WellFormed(State()) && contStack != []
      modifies heap, `operandStack, `contStack, `output
      ensures match r
              case Success(_) =>
                && Valid() && Owns(own) && Keeps(own) && M.WellFormed(State())
                && (n > 0 ==> M.RunFor(n, old(State())) == M.RunFor(n - 1, State()))
              case Failure(e) => n > 0 ==> M.RunFor(n, old(State())) == M.Failed(e, output)
    {
      hide Heap.Valid, Interp.Valid, Interp.Owns, Interp.State, M.WellFormed, M.Apply;
      ContsAtHand();
      StateOutput();
      M.StepIsSafe(State());
      var object_ := PopCont(own);
      StateOutput();
      var u :- Apply(object_, own);
      return Success(());
    }

    lemma StateOutput()
      requires Valid()
      ensures State().out == output
    {
    }

    /** The inner loop of 'main' for at most n turns: true when no continuation is left. */
    method RunLoop(n: nat, ghost own: multiset<Ptr>) returns (r: Result<bool>)
      requires Holding(own) && M.WellFormed(State())
      modifies heap, `operandStack, `contStack, `output
      ensures match r
              case Success(halted) =>
                && Valid() && Owns(own) && Keeps(own)
                && M.RunFor(n, old(State())) == (if halted then M.Halted(State()) else M.Running(State()))
                && (halted ==> contStack == [])
              case Failure(e) => M.RunFor(n, old(State())) == M.Failed(e, output)
    {
      hide Heap.Valid, Interp.Valid, Interp.Owns, Interp.State, M.WellFormed;
      OwnedAreObjects(own);
      var i := 0;
      while i < n
        invariant i <= n && Holding(own) && M.WellFormed(State()) && Keeps(own)
        invariant M.RunFor(n, old(State())) == M.RunFor(n - i, State())
      {
        ContsAtHand();
        if contStack == [] {
          return Success(true);
        }
        var u :- Turn(n - i, own);
        i := i + 1;
      }
      ContsAtHand();
      return Success(contStack == []);
    }

    /** One turn of the outer loop of 'main': an expression is read, evaluated for at most n turns, and its value
        dropped. The result is true if the evaluation came to its end; the value it then had is 'v'.

        The program does what evaluation of the parsed expression says, and fails only with its errors.
        Afterwards the references held are the same as before. */
    method ReadEvalPrint(tokenizer: Tokenizer, forms: Ptr, env: Ptr, n: nat) returns (r: Result<bool>, ghost v: Val)
      requires Globals(forms, env) && tokenizer.Valid() && operandStack == [] && contStack == []
      modifies heap, `operandStack, `contStack, `output, tokenizer
      ensures match Syntax.Parse(old(tokenizer.Rest()))
              case Failure(e) => r == Failure(e) && output == old(output)
              case Success((e, rest)) =>
                && M.IsExpr(e)
                && match r
                   case Success(halted) =>
                     && tokenizer.Valid() && tokenizer.Rest() == rest && Valid()
                     && (!halted ==> B.RunProgram(n, e, old(output)) == M.Running(State()))
                     && (halted ==>
                           && Globals(forms, env) && operandStack == [] && contStack == []
                           && B.Computes(n, e, v, old(output), output))
                   case Failure(x) => B.Stops(n, e, x, old(output), output)
    {
      hide Heap.Valid, Interp.Valid, Interp.Owns, Interp.State, M.WellFormed, M.RunFor, Syntax.Parse;
      hide B.Computes, B.Stops, M.IsExpr, B.RunProgram, M.FORMS, M.ENV;
      ghost var ts, own := tokenizer.Rest(), multiset{forms} + multiset{env};
      v := Nil;
      if Syntax.Parse(ts).Success? {
        Syntax.ParsedIsPrinted(ts);
      }
      var expr :- ReadExpression(tokenizer, own);
      r, v := EvaluateProgram(forms, env, expr, n);
    }

    /** The middle of the outer loop of 'main'. */
    method EvaluateProgram(forms: Ptr, env: Ptr, expr: Ptr, n: nat) returns (r: Result<bool>, ghost v: Val)
      requires Holding(multiset{forms} + multiset{env} + multiset{expr}) && operandStack == [] && contStack == []
      requires forms in heap.vals && heap.vals[forms] == M.FORMS && env in heap.vals && heap.vals[env] == M.ENV
      requires expr in heap.vals && M.IsExpr(heap.vals[expr])
      modifies heap, `operandStack, `contStack, `output
      ensures var e := old(heap.vals[expr]);
              match r
              case Success(halted) =>
                && Valid()
                && (!halted ==> B.RunProgram(n, e, old(output)) == M.Running(State()))
                && (halted ==>
                      && Globals(forms, env) && operandStack == [] && contStack == []
                      && B.Computes(n, e, v, old(output), output))
              case Failure(x) => B.Stops(n, e, x, old(output), output)
    {
      hide Heap.Valid, Interp.Valid, Interp.Owns, Interp.State, M.WellFormed, M.RunFor;
      hide B.Computes, B.Stops, M.IsExpr, M.FORMS, M.ENV;
      ghost var own, e := multiset{forms} + multiset{env}, heap.vals[expr];
      v := Nil;
      EmptyState();
      B.ProgramIsWellFormed(e, output);
      B.RunProgramDecides(n, e, output);
      ScheduleProgram(forms, env, expr);
      var halted :- RunLoop(n, own);
      if !halted {
        return Success(false), Nil;
      }
      StateOutput();
      v := DropResult(own);
      return Success(true), v;
    }

    lemma EmptyState()
      requires Valid() && operandStack == [] && contStack == []
      ensures State() == M.State(Nil, Nil, output)
    {
    }

    /** The expression with the forms and the environment becomes the only continuation. */
    method ScheduleProgram(forms: Ptr, env: Ptr, expr: Ptr)
      requires Holding(multiset{forms} + multiset{env} + multiset{expr})
      requires forms in heap.vals && env in heap.vals && expr in heap.vals
      modifies heap, `contStack
      ensures Holding(multiset{forms} + multiset{env}) && Keeps(multiset{forms} + multiset{env})
      ensures State() == M.PushCont(Eval, Cons(Cons(old(heap.vals[forms]), old(heap.vals[env])), old(heap.vals[expr])),
                                    old(State()))
    {
      hide Heap.Valid, Interp.Valid, Interp.Owns, Interp.State;
      ghost var own := multiset{forms} + multiset{env};
      AddRef(forms, own + multiset{expr});
      AddRef(env, own + multiset{expr} + multiset{forms});
      var envs := CreateCons(forms, env, own + multiset{expr});
      assert own + multiset{expr} + multiset{envs} == own + multiset{envs} + multiset{expr};
      ScheduleEval(envs, expr, own);
    }

    /** The value of a program that has come to its end is popped and released. */
    method DropResult(ghost own: multiset<Ptr>) returns (ghost v: Val)
      requires Holding(own) && contStack == [] && State().ops.Cons? && State().ops.tail == Nil
      modifies heap, `operandStack
      ensures Holding(own) && Keeps(own) && operandStack == [] && v == old(State()).ops.head
    {
      hide Heap.Valid, Interp.Owns;
      var popped := Pop(own);
      v := heap.vals[popped.value];
      Release(popped.value, own);
    }

    /** The outer loop of 'main' for m programs, each for at most n turns. */
    method RunPrograms(tokenizer: Tokenizer, forms: Ptr, env: Ptr, m: nat, n: nat) returns (r: S.Report)
      requires Globals(forms, env) && tokenizer.Valid() && operandStack == [] && contStack == []
      modifies heap, `operandStack, `contStack, `output, tokenizer
      ensures S.Session(m, n, old(tokenizer.Rest()), old(output), r, output) && r != S.HeapFull
      ensures r == S.Completed ==> Globals(forms, env) && operandStack == [] && contStack == []
    {
      hide Heap.Valid, Interp.Valid, Interp.State, Interp.Globals, S.Session;
      ghost var ts, out := tokenizer.Rest(), output;
      for i := 0 to m
        invariant Globals(forms, env) && tokenizer.Valid() && operandStack == [] && contStack == []
        invariant forall report, after ::
                    S.Session(m - i, n, tokenizer.Rest(), output, report, after) ==>
                      S.Session(m, n, ts, out, report, after)
      {
        var stopped := RunProgram(tokenizer, forms, env, m - i, n);
        if stopped.Some? {
          return stopped.value;
        }
      }
      S.NothingToDo(n, tokenizer.Rest(), output);
      return S.Completed;
    }

    /** The body of the outer loop of 'main': how the program stops, if it does. */
    method RunProgram(tokenizer: Tokenizer, forms: Ptr, env: Ptr, ghost m: nat, n: nat) returns (r: Option<S.Report>)
      requires Globals(forms, env) && tokenizer.Valid() && operandStack == [] && contStack == [] && m > 0
      modifies heap, `operandStack, `contStack, `output, tokenizer
      ensures match r
              case None =>
                && Globals(forms, env) && tokenizer.Valid() && operandStack == [] && contStack == []
                && S.Continues(m, n, old(tokenizer.Rest()), old(output), tokenizer.Rest(), output)
              case Some(report) =>
                && S.Session(m, n, old(tokenizer.Rest()), old(output), report, output)
                && (report == S.OutOfTurns || report.Stopped?)
    {
      hide Heap.Valid, Interp.Valid, Interp.State, Interp.Globals, S.Session, S.Continues;
      hide Syntax.Parse, B.Computes, B.Stops, B.RunProgram;
      ghost var ts, out := tokenizer.Rest(), output;
      if Syntax.Parse(ts).Failure? {
        S.NoProgram(m, n, ts, out);
      }
      var halted, v := ReadEvalPrint(tokenizer, forms, env, n);
      match halted {
        case Failure(x) =>
          if Syntax.Parse(ts).Success? {
            S.ProgramStops(m, n, ts, out, x, output);
          }
          return Some(S.Stopped(x));
        case Success(done) =>
          StateOutput();
          if !done {
            B.RunProgramDecides(n, Syntax.Parse(ts).value.0, out);
            S.ProgramCutShort(m, n, ts, out, S.OutOfTurns, output);
            return Some(S.OutOfTurns);
          }
          S.ProgramComputes(m, n, ts, out, v, output);
          return None;
      }
    }

    /** When no program runs, the blocks that are allocated are those that the forms, the environment and nil
        need. */
    lemma NothingIsLeft(forms: Ptr, env: Ptr, o: Ptr) returns (h: Ptr)
      requires Globals(forms, env) && operandStack == [] && contStack == [] && o in heap.mem
      ensures h in {forms, env, heap.nil} && Reaches(ReferenceGraph(BodiesOf(heap.mem, heap.mem.Keys)), {}, h, o)
    {
      hide Heap.Valid, Reaches, ReferenceGraph, BodiesOf;
      heap.EveryBlockIsListed();
      h := heap.NothingLeaks(o);
    }
  }

  /** What looking up does with a list, by its first cell. */
  lemma AssocStep(key: string, entries: Val)
    ensures entries == Nil ==> M.Assoc(key, entries) == Success(None)
    ensures entries != Nil && !entries.Cons? ==> M.Assoc(key, entries) == Failure(ConsExpected)
    ensures entries.Cons? && !entries.head.Cons? ==> M.Assoc(key, entries) == Failure(ConsExpected)
    ensures entries.Cons? && entries.head.Cons? && !entries.head.head.Atom? ==>
              M.Assoc(key, entries) == Failure(AtomsExpected)
    ensures entries.Cons? && entries.head.Cons? && entries.head.head.Atom? ==>
              M.Assoc(key, entries) ==
              if entries.head.head.chars == key then Success(Some(entries.head.tail)) else M.Assoc(key, entries.tail)
  {
  }
}
