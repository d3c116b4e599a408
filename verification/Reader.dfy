/** Function 'parse' of gcl.c on the garbage-collected heap: no recursion, the pairs that are still open are
    linked through their tail fields. */
module Reader {
  import opened Basics
  import opened Values
  import opened Objects
  import opened Sweeping
  import opened Collector
  import opened Syntax
  import opened OpenPairs
  import opened Tokens

  /** The variable 'parent' and the open pairs below it; no variable of a caller refers to an open pair. */
  ghost predicate Parsing(heap: Heap, callers: seq<Root>, parent: Root, open: seq<Ptr>, pending: seq<Pending>)
    reads heap, heap.roots, parent, callers
  {
    && heap.Valid()
    && parent in heap.roots && parent !in callers
    && Open(heap.mem, heap.vals, heap.nil, parent.value, open, pending)
    && Unshared(heap.mem, open)
    && (forall x | x in callers :: x in heap.roots && x.value !in open)
  }

  /** A value of a caller's variable is not affected by what happens to the open pairs. */
  twostate predicate CallersKeep(heap: Heap, callers: seq<Root>)
    reads heap, callers
  {
    forall x | x in callers ::
      && x.value == old(x.value) && x.value in heap.vals && x.value in old(heap.vals)
      && heap.vals[x.value] == old(heap.vals[x.value])
  }

  /** The expression becomes the head of the innermost open pair. */
  method FillHead(heap: Heap, ghost callers: seq<Root>, parent: Root, expr: Root, ghost open: seq<Ptr>,
                  ghost pending: seq<Pending>)
    requires Parsing(heap, callers, parent, open, pending) && open != [] && pending[0].AwaitHead?
    requires expr in heap.roots && expr.value in heap.vals && heap.vals[expr.value] != Nil && expr.value !in open
    modifies heap`mem, heap`vals
    ensures Parsing(heap, callers, parent, open, [AwaitTail(old(heap.vals[expr.value]))] + pending[1..])
    ensures CallersKeep(heap, callers)
  {
    hide Heap.Valid, Unshared, ValueOf;
    heap.RootsAreObjects();
    heap.ObjectMeaning(expr.value);
    ghost var mem0, vals0 := heap.mem, heap.vals;
    var p := parent.value;
    OpenIsConses(heap.mem, heap.vals, heap.nil, p, open, pending);
    InnermostIsUnreferenced(heap.mem, heap.vals, heap.nil, p, open, pending);
    var b := heap.mem[p].body.(head := expr.value);
    heap.ObjectMeaning(p);
    assert heap.mem[p].body.tail in Refs(heap.mem[p].body);
    heap.SetBody(p, b);
    HeadFilled(mem0, vals0, heap.nil, p, open, pending, expr.value, heap.mem, heap.vals);
  }

  /** The expression becomes the tail of the innermost open pair, which becomes the expression. */
  method FillTail(heap: Heap, ghost callers: seq<Root>, parent: Root, expr: Root, ghost open: seq<Ptr>,
                  ghost pending: seq<Pending>)
    requires Parsing(heap, callers, parent, open, pending) && open != [] && pending[0].AwaitTail?
    requires expr in heap.roots && expr.value in heap.vals && heap.vals[expr.value] != Nil && expr.value !in open
    requires expr != parent && expr !in callers && expr != heap.nilRoot && parent != heap.nilRoot
    modifies heap`mem, heap`vals, parent, expr
    ensures Parsing(heap, callers, parent, open[1..], pending[1..])
    ensures expr.value in heap.vals && expr.value !in open[1..]
    ensures heap.vals[expr.value] == Cons(pending[0].head, old(heap.vals[expr.value]))
    ensures CallersKeep(heap, callers)
  {
    hide Heap.Valid, Unshared;
    heap.RootsAreObjects();
    heap.ObjectMeaning(expr.value);
    ghost var mem0, vals0 := heap.mem, heap.vals;
    var p := parent.value;
    OpenIsConses(heap.mem, heap.vals, heap.nil, p, open, pending);
    InnermostIsUnreferenced(heap.mem, heap.vals, heap.nil, p, open, pending);
    var newParent := heap.mem[p].body.tail;
    heap.ObjectMeaning(p);
    var b := heap.mem[p].body.(tail := expr.value);
    assert heap.mem[p].body.head in Refs(heap.mem[p].body);
    heap.SetBody(p, b);
    TailFilled(mem0, vals0, heap.nil, p, open, pending, expr.value, heap.mem, heap.vals);
    heap.SetRoot(expr, p);
    heap.SetRoot(parent, newParent);
  }

  /** What the parser sees at the innermost pair. */
  lemma AtHand(heap: Heap, callers: seq<Root>, parent: Root, open: seq<Ptr>, pending: seq<Pending>)
    requires Parsing(heap, callers, parent, open, pending)
    ensures |open| == |pending| && (parent.value == heap.nil <==> open == [])
    ensures open != [] ==> parent.value in heap.mem && heap.mem[parent.value].body.ConsBody?
    ensures open != [] ==> (heap.mem[parent.value].body.head == heap.nil <==> pending[0].AwaitHead?)
    ensures forall x | x in callers :: x in heap.roots
    ensures forall x | x in heap.roots :: x.value in heap.vals
    ensures heap.vals.Keys == heap.mem.Keys && NULL !in heap.vals
  {
    hide Heap.Valid, Open;
    if NULL in heap.vals {
      heap.ObjectMeaning(NULL);
    }
    heap.RootsAreObjects();
    Innermost(heap.mem, heap.vals, heap.nil, parent.value, open, pending);
  }

  /** What an expression that has been parsed completes: the head of the innermost open pair, or its tail and
      with it the pair, and so on outwards. The result is true when no pair is open any more. */
  method Complete(heap: Heap, tokenizer: Tokenizer, ghost callers: seq<Root>, parent: Root, expr: Root,
                  ghost open: seq<Ptr>, ghost pending: seq<Pending>, ghost target: Result<(Val, seq<Token>)>)
    returns (r: Result<bool>, ghost open': seq<Ptr>, ghost pending': seq<Pending>)
    requires Parsing(heap, callers, parent, open, pending) && tokenizer.Valid()
    requires expr in heap.roots && expr.value in heap.vals && heap.vals[expr.value] != Nil && expr.value !in open
    requires expr != parent && expr !in callers && expr != heap.nilRoot && parent != heap.nilRoot
    requires Resume(pending, Success((heap.vals[expr.value], tokenizer.Rest()))) == target
    modifies heap`mem, heap`vals, parent, expr, tokenizer
    ensures r.Success? ==> Parsing(heap, callers, parent, open', pending') && tokenizer.Valid()
    ensures r.Success? && r.value ==>
              expr.value in heap.vals && target == Success((heap.vals[expr.value], tokenizer.Rest())) && open' == []
    ensures r.Success? && !r.value ==> target == Resume(pending', Syntax.Parse(tokenizer.Rest()))
    ensures r.Failure? ==> target == Failure(r.error)
    ensures r.Success? ==> CallersKeep(heap, callers) && |tokenizer.Rest()| <= old(|tokenizer.Rest()|)
  {
    hide Heap.Valid, Unshared, Syntax.Parse, Open, Parsing;
    open', pending' := open, pending;
    AtHand(heap, callers, parent, open, pending);
    while parent.value != heap.nil
      invariant Parsing(heap, callers, parent, open', pending') && tokenizer.Valid()
      invariant expr.value in heap.vals && heap.vals[expr.value] != Nil && expr.value !in open'
      invariant Resume(pending', Success((heap.vals[expr.value], tokenizer.Rest()))) == target
      invariant CallersKeep(heap, callers) && |tokenizer.Rest()| <= old(|tokenizer.Rest()|)
      decreases |open'|
    {
      AtHand(heap, callers, parent, open', pending');
      if heap.mem[parent.value].body.head == heap.nil {
        ghost var v := heap.vals[expr.value];
        FillHead(heap, callers, parent, expr, open', pending');
        pending' := [AwaitTail(v)] + pending'[1..];
        return Success(false), open', pending';
      }
      FillTail(heap, callers, parent, expr, open', pending');
      open', pending' := open'[1..], pending'[1..];
      var newToken := tokenizer.Next();
      if newToken != RParen {
        return Failure(MissingParen), open', pending';
      }
    }
    AtHand(heap, callers, parent, open', pending');
    return Success(true), open', pending';
  }

  /** An atom is allocated while pairs are open. */
  method NewAtom(heap: Heap, ghost callers: seq<Root>, parent: Root, chars: string, ghost open: seq<Ptr>,
                 ghost pending: seq<Pending>)
    returns (r: Result<Ptr>)
    requires Parsing(heap, callers, parent, open, pending)
    modifies heap
    ensures heap.registered <= old(heap.registered) + 1
    ensures r.Success? ==> Parsing(heap, callers, parent, open, pending) && heap.roots == old(heap.roots)
    ensures r.Success? ==> r.value in heap.vals && heap.vals[r.value] == Atom(chars) && r.value !in open
    ensures r.Success? ==> CallersKeep(heap, callers)
    ensures r.Failure? ==> r.error == ObjectLimit && heap.Full()
  {
    hide Heap.Valid, Heap.Full, Unshared, Open, Meaning, Survives;
    ghost var mem0, vals0 := heap.mem, heap.vals;
    heap.HasMeaning();
    OpenIsConses(heap.mem, heap.vals, heap.nil, parent.value, open, pending);
    var atom :- heap.CreateAtom(chars);
    heap.RootsAreObjects();
    heap.HasMeaning();
    OpenSurvives(mem0, vals0, heap.mem, heap.vals, heap.nil, parent.value, open, pending, atom);
    UnsharedSurvives(mem0, vals0, heap.mem, heap.vals, open, atom);
    return Success(atom);
  }

  /** A pair is opened. */
  method OpenPair(heap: Heap, ghost callers: seq<Root>, parent: Root, ghost open: seq<Ptr>, ghost pending: seq<Pending>)
    returns (r: Result<()>, ghost o: Ptr)
    requires Parsing(heap, callers, parent, open, pending) && parent != heap.nilRoot
    modifies heap, parent
    ensures heap.registered <= old(heap.registered) + 1
    ensures r.Success? ==> Parsing(heap, callers, parent, [o] + open, [AwaitHead] + pending)
    ensures r.Success? ==> heap.roots == old(heap.roots) && CallersKeep(heap, callers)
    ensures r.Failure? ==> r.error == ObjectLimit && heap.Full()
  {
    hide Heap.Valid, Heap.Full, Unshared, Open;
    ghost var mem0, vals0, parent0 := heap.mem, heap.vals, parent.value;
    o := NULL;
    heap.RootsAreObjects();
    heap.HasMeaning();
    var nilValue := heap.CreateNil();
    var cons :- heap.CreateCons(nilValue, parent.value);
    heap.RootsAreObjects();
    heap.HasMeaning();
    PairOpened(mem0, vals0, heap.mem, heap.vals, heap.nil, parent.value, open, pending, cons);
    assert forall x | x in callers :: x.value !in [cons] + open;
    heap.SetRoot(parent, cons);
    return Success(()), cons;
  }

  /** The branch of 'parse' for a symbol: the object for the whole expression, or the null pointer if a pair
      is still open. */
  method ReadSymbol(heap: Heap, tokenizer: Tokenizer, ghost callers: seq<Root>, parent: Root, chars: string,
                    ghost open: seq<Ptr>, ghost pending: seq<Pending>, ghost target: Result<(Val, seq<Token>)>)
    returns (r: Result<Ptr>, ghost open': seq<Ptr>, ghost pending': seq<Pending>)
    requires Parsing(heap, callers, parent, open, pending) && parent != heap.nilRoot
    requires heap.roots == [parent] + callers && tokenizer.Valid()
    requires Resume(pending, Success((Atom(chars), tokenizer.Rest()))) == target
    modifies heap, parent, tokenizer
    ensures heap.registered <= old(heap.registered) + 1
    ensures r.Success? ==>
              && Parsing(heap, callers, parent, open', pending') && heap.roots == old(heap.roots)
              && CallersKeep(heap, callers) && tokenizer.Valid() && |tokenizer.Rest()| <= old(|tokenizer.Rest()|)
    ensures r.Success? && r.value != NULL ==>
              r.value in heap.vals && target == Success((heap.vals[r.value], tokenizer.Rest()))
    ensures r.Success? && r.value == NULL ==> target == Resume(pending', Syntax.Parse(tokenizer.Rest()))
    ensures r.Failure? ==> target == Failure(r.error) || (r.error == ObjectLimit && heap.Full())
  {
    hide Heap.Valid, Heap.Full, Unshared, Resume, Syntax.Parse, Open, Parsing;
    open', pending' := open, pending;
    var atom :- NewAtom(heap, callers, parent, chars, open, pending);
    var result;
    result, open', pending' := CompleteAtom(heap, tokenizer, callers, parent, atom, open, pending, target);
    return result, open', pending';
  }

  /** The expression is kept by a variable while it completes heads and tails. */
  method CompleteAtom(heap: Heap, tokenizer: Tokenizer, ghost callers: seq<Root>, parent: Root, atom: Ptr,
                      ghost open: seq<Ptr>, ghost pending: seq<Pending>, ghost target: Result<(Val, seq<Token>)>)
    returns (r: Result<Ptr>, ghost open': seq<Ptr>, ghost pending': seq<Pending>)
    requires Parsing(heap, callers, parent, open, pending) && parent != heap.nilRoot
    requires heap.roots == [parent] + callers && tokenizer.Valid()
    requires atom in heap.vals && heap.vals[atom] != Nil && atom !in open
    requires Resume(pending, Success((heap.vals[atom], tokenizer.Rest()))) == target
    modifies heap, parent, tokenizer
    ensures heap.registered == old(heap.registered)
    ensures r.Success? ==>
              && Parsing(heap, callers, parent, open', pending') && heap.roots == old(heap.roots)
              && CallersKeep(heap, callers) && tokenizer.Valid() && |tokenizer.Rest()| <= old(|tokenizer.Rest()|)
    ensures r.Success? && r.value != NULL ==>
              r.value in heap.vals && target == Success((heap.vals[r.value], tokenizer.Rest()))
    ensures r.Success? && r.value == NULL ==> target == Resume(pending', Syntax.Parse(tokenizer.Rest()))
    ensures r.Failure? ==> target == Failure(r.error)
  {
    hide Heap.Valid, Heap.Full, Unshared, Resume, Syntax.Parse, Open, Parsing;
    open', pending' := open, pending;
    var expr := KeepExpr(heap, callers, parent, atom, open, pending);
    var result;
    result, open', pending' := Complete(heap, tokenizer, callers, parent, expr, open, pending, target);
    var complete :- result;
    AtHand(heap, callers, parent, open', pending');
    DropExpr(heap, callers, parent, expr, open', pending');
    return Success(if complete then expr.value else NULL), open', pending';
  }

  /** The variable 'expr' is registered while it may become part of a pair. */
  method KeepExpr(heap: Heap, ghost callers: seq<Root>, parent: Root, atom: Ptr, ghost open: seq<Ptr>,
                  ghost pending: seq<Pending>)
    returns (expr: Root)
    requires Parsing(heap, callers, parent, open, pending) && heap.roots == [parent] + callers
    requires atom in heap.vals
    modifies heap`roots
    ensures Parsing(heap, callers, parent, open, pending) && fresh(expr) && expr.value == atom
    ensures heap.roots == [expr] + old(heap.roots) && expr != heap.nilRoot && expr != parent && expr !in callers
  {
    hide Heap.Valid, Unshared, Open;
    heap.RootsAreObjects();
    expr := new Root(atom);
    heap.PushRoot(expr);
  }

  method DropExpr(heap: Heap, ghost callers: seq<Root>, parent: Root, ghost expr: Root, ghost open: seq<Ptr>,
                  ghost pending: seq<Pending>)
    requires Parsing(heap, callers, parent, open, pending) && heap.roots == [expr] + ([parent] + callers)
    requires parent != heap.nilRoot && expr != heap.nilRoot
    modifies heap`roots
    ensures Parsing(heap, callers, parent, open, pending) && heap.roots == [parent] + callers
  {
    hide Heap.Valid, Unshared, Open;
    heap.RootsAreObjects();
    heap.PopRoot(expr, [parent] + callers);
  }

  /** 'parse': the iterative parser returns an object that stands for the expression that recursive descent
      finds, with the same tokens consumed, and fails exactly as it does, unless the heap is full. */
  method Parse(heap: Heap, tokenizer: Tokenizer) returns (r: Result<Ptr>)
    requires heap.Valid() && tokenizer.Valid()
    modifies heap, tokenizer
    ensures heap.registered <= old(heap.registered) + old(|tokenizer.Rest()|)
    ensures r.Success? ==>
              && tokenizer.Valid()
              && heap.registered + |tokenizer.Rest()| <= old(heap.registered) + old(|tokenizer.Rest()|)
    ensures match r
            case Success(o) =>
              && heap.Valid() && tokenizer.Valid() && o in heap.vals
              && Syntax.Parse(old(tokenizer.Rest())) == Success((heap.vals[o], tokenizer.Rest()))
            case Failure(e) =>
              Syntax.Parse(old(tokenizer.Rest())) == Failure(e) || (e == ObjectLimit && heap.Full())
    ensures r.Success? ==> heap.Keeps(null, null)
  {
    hide Heap.Valid, Heap.Full, Unshared, Resume, Syntax.Parse;
    heap.RootsAreObjects();
    ghost var callers := heap.roots;
    ghost var target := Syntax.Parse(tokenizer.Rest());
    var parent := new Root(heap.nil);
    heap.PushRoot(parent);
    ghost var open: seq<Ptr>, pending: seq<Pending> := [], [];
    NothingOpen(heap.mem, target);
    while true
      invariant heap.roots == [parent] + callers && tokenizer.Valid()
      invariant Parsing(heap, callers, parent, open, pending) && parent != heap.nilRoot
      invariant target == Resume(pending, Syntax.Parse(tokenizer.Rest()))
      invariant CallersKeep(heap, callers)
      invariant heap.registered + |tokenizer.Rest()| <= old(heap.registered) + old(|tokenizer.Rest()|)
      decreases |tokenizer.Rest()|
    {
      ParseToken(pending, tokenizer.Rest());
      var token := tokenizer.Next();
      match token {
        case Symbol(chars) =>
          var result;
          result, open, pending := ReadSymbol(heap, tokenizer, callers, parent, chars, open, pending, target);
          var complete :- result;
          if complete != NULL {
            heap.PopRoot(parent, callers);
            return Success(complete);
          }
        case LParen =>
          var result;
          ghost var o;
          result, o := OpenPair(heap, callers, parent, open, pending);
          var u :- result;
          open, pending := [o] + open, [AwaitHead] + pending;
        case _ =>
          return Failure(SymbolOrParenExpected);
      }
    }
  }

  lemma NothingOpen(mem: Memory, r: Result<(Val, seq<Token>)>)
    ensures Unshared(mem, []) && Resume([], r) == r
  {
  }
}
