/** Function 'parse' of rcl.c: as in gcl.c the open pairs are linked through their tail fields, but here they
    are kept off the list of objects until they are complete. */
module CountedReader {
  import opened Basics
  import opened Values
  import opened Objects
  import opened Counting
  import opened CountedHeap
  import opened Syntax
  import opened Tokens

  /** A pair that is open: its cell, and the expression in its head or the null pointer. */
  datatype OpenCell = OpenCell(cell: Ptr, head: Ptr)

  function Parent(open: seq<OpenCell>): Ptr {
    if open == [] then NULL else open[0].cell
  }

  /** From 'Parent(open)' the tails lead through the open cells, innermost first, to the null pointer. */
  predicate Linked(mem: Cells, published: set<Ptr>, open: seq<OpenCell>) {
    if open == [] then true
    else
      var (p, rest) := (open[0].cell, open[1..]);
      && p != NULL && p in mem && p !in published && (forall c | c in rest :: c.cell != p)
      && mem[p] == Cell(1, ConsBody(false, open[0].head, Parent(rest)))
      && Linked(mem, published, rest)
  }

  /** The references kept by the heads of open cells. */
  function Heads(open: seq<OpenCell>): multiset<Ptr> {
    if open == [] then multiset{}
    else (if open[0].head == NULL then multiset{} else multiset{open[0].head}) + Heads(open[1..])
  }

  /** What is pending for the open cells. */
  function PendingOf(vals: map<Ptr, Val>, open: seq<OpenCell>): seq<Pending> {
    if open == [] then []
    else
      [if open[0].head in vals then AwaitTail(vals[open[0].head]) else AwaitHead] + PendingOf(vals, open[1..])
  }

  predicate Extends(vals: map<Ptr, Val>, vals': map<Ptr, Val>) {
    forall o | o in vals :: o in vals' && vals'[o] == vals[o]
  }

  lemma {:induction false} LinkedFrame(mem: Cells, published: set<Ptr>, mem': Cells, published': set<Ptr>,
                                       open: seq<OpenCell>)
    requires Linked(mem, published, open)
    requires forall c | c in open && c.cell in mem && c.cell !in published ::
               c.cell in mem' && mem'[c.cell] == mem[c.cell] && c.cell !in published'
    ensures Linked(mem', published', open)
  {
    if open != [] {
      assert open[0] in open;
      LinkedFrame(mem, published, mem', published', open[1..]);
    }
  }

  lemma {:induction false} PendingKept(vals: map<Ptr, Val>, vals': map<Ptr, Val>, open: seq<OpenCell>)
    requires Extends(vals, vals') && forall c | c in open :: c.head == NULL || c.head in vals
    requires NULL !in vals'
    ensures PendingOf(vals', open) == PendingOf(vals, open)
  {
    if open != [] {
      assert open[0] in open;
      PendingKept(vals, vals', open[1..]);
    }
  }

  lemma {:induction false} HeadsInside(open: seq<OpenCell>)
    ensures forall c | c in open :: c.head == NULL || c.head in Heads(open)
  {
    if open != [] {
      HeadsInside(open[1..]);
      assert forall c | c in open :: c == open[0] || c in open[1..];
    }
  }

  /** The open cells. */
  function CellsOf(open: seq<OpenCell>): set<Ptr> {
    set c | c in open :: c.cell
  }

  /** While pairs are open: 'own' are the references that the program holds besides those in the heads of open
      cells, 'loose' the blocks off the list of objects besides the open cells. */
  ghost predicate Parsing(heap: Heap, open: seq<OpenCell>, own: multiset<Ptr>, loose: set<Ptr>)
    reads heap
  {
    && heap.Valid() && heap.held == own + Heads(open) && Linked(heap.mem, heap.published, open)
    && loose !! CellsOf(open) && heap.Loose() == loose + CellsOf(open)
  }

  lemma CellsOfRest(open: seq<OpenCell>, loose: set<Ptr>)
    requires open != [] && loose !! CellsOf(open) && forall c | c in open[1..] :: c.cell != open[0].cell
    ensures loose + CellsOf(open) - {open[0].cell} == loose + CellsOf(open[1..]) && loose !! CellsOf(open[1..])
  {
    assert open == [open[0]] + open[1..];
    assert CellsOf(open) == {open[0].cell} + CellsOf(open[1..]);
  }

  lemma CellsOfMore(open: seq<OpenCell>, c: OpenCell)
    ensures CellsOf([c] + open) == CellsOf(open) + {c.cell}
  {
    assert forall x | x in [c] + open :: x == c || x in open;
    assert c == ([c] + open)[0];
    assert forall x | x in open :: x in [c] + open;
  }

  /** The expression becomes the head of the innermost open pair. */
  method FillHead(heap: Heap, parent: Ptr, expr: Ptr, ghost open: seq<OpenCell>, ghost own: multiset<Ptr>,
                  ghost loose: set<Ptr>)
    requires Parsing(heap, open, own + multiset{expr}, loose) && open != [] && parent == open[0].cell
    requires open[0].head == NULL
    modifies heap
    ensures Parsing(heap, [OpenCell(parent, expr)] + open[1..], own, loose) && heap.vals == old(heap.vals)
    ensures expr in heap.vals
    ensures PendingOf(heap.vals, [OpenCell(parent, expr)] + open[1..])
         == [AwaitTail(heap.vals[expr])] + PendingOf(heap.vals, open)[1..]
  {
    hide Heap.Valid;
    heap.HeldIsPublished();
    assert expr in heap.held;
    ghost var open' := [OpenCell(parent, expr)] + open[1..];
    assert open'[1..] == open[1..];
    ghost var mem0 := heap.mem;
    heap.Assign(parent, heap.mem[parent].body.(head := expr));
    LinkedFrame(mem0, heap.published, heap.mem, heap.published, open[1..]);
    SameCells(open, OpenCell(parent, expr));
  }

  lemma SameCells(open: seq<OpenCell>, c: OpenCell)
    requires open != [] && c.cell == open[0].cell
    ensures CellsOf([c] + open[1..]) == CellsOf(open)
  {
    CellsOfMore(open[1..], c);
    CellsOfMore(open[1..], open[0]);
    assert open == [open[0]] + open[1..];
  }

  lemma HeadTaken(own: multiset<Ptr>, e: multiset<Ptr>, h: multiset<Ptr>, rest: multiset<Ptr>, p: multiset<Ptr>)
    ensures h + e <= own + e + (h + rest)
    ensures own + e + (h + rest) - (h + e) + p == own + p + rest
  {
  }

  lemma InnermostCell(mem: Cells, published: set<Ptr>, open: seq<OpenCell>)
    requires Linked(mem, published, open) && open != [] && open[0].head != NULL
    ensures Linked(mem, published, open[1..]) && Heads(open) == multiset{open[0].head} + Heads(open[1..])
    ensures open[0].cell in mem && open[0].cell !in published && forall c | c in open[1..] :: c.cell != open[0].cell
    ensures mem[open[0].cell] == Cell(1, ConsBody(false, open[0].head, Parent(open[1..])))
  {
  }

  /** The expression becomes the tail of the innermost open pair, which is complete and becomes an object. */
  method FillTail(heap: Heap, parent: Ptr, expr: Ptr, ghost open: seq<OpenCell>, ghost own: multiset<Ptr>,
                  ghost loose: set<Ptr>)
    returns (newParent: Ptr)
    requires Parsing(heap, open, own + multiset{expr}, loose) && open != [] && parent == open[0].cell
    requires open[0].head != NULL
    modifies heap
    ensures newParent == Parent(open[1..]) && Parsing(heap, open[1..], own + multiset{parent}, loose)
    ensures Extends(old(heap.vals), heap.vals)
    ensures expr in old(heap.vals) && open[0].head in old(heap.vals) && parent in heap.vals
    ensures heap.vals[parent] == Cons(old(heap.vals[open[0].head]), old(heap.vals[expr]))
  {
    hide Heap.Valid, Linked, Heads, Parent, CellsOf;
    heap.HeldIsPublished();
    InnermostCell(heap.mem, heap.published, open);
    CellsOfRest(open, loose);
    assert expr in heap.held && open[0].head in heap.held;
    ghost var mem0 := heap.mem;
    newParent := heap.mem[parent].body.tail;
    heap.Assign(parent, heap.mem[parent].body.(tail := expr));
    ghost var published0 := heap.published;
    HeadTaken(own, multiset{expr}, multiset{open[0].head}, Heads(open[1..]), multiset{parent});
    heap.PublishCons(parent);
    LinkedFrame(mem0, published0, heap.mem, heap.published, open[1..]);
  }

  /** What an expression that has been parsed completes: the head of the innermost open pair, or its tail and
      with it the pair, and so on outwards. The result is the object of the whole expression, or the null pointer if
      a pair is still open. */
  method Complete(heap: Heap, tokenizer: Tokenizer, parent: Ptr, expr: Ptr, ghost open: seq<OpenCell>,
                  ghost own: multiset<Ptr>, ghost loose: set<Ptr>)
    returns (r: Result<Ptr>, parent': Ptr, ghost open': seq<OpenCell>)
    requires Parsing(heap, open, own + multiset{expr}, loose) && tokenizer.Valid() && parent == Parent(open)
    requires expr in heap.vals
    modifies heap, tokenizer
    ensures var found := Success((old(heap.vals[expr]), old(tokenizer.Rest())));
            var target := Resume(PendingOf(old(heap.vals), open), found);
            match r
            case Failure(e) => target == Failure(e)
            case Success(o) =>
              && tokenizer.Valid() && Extends(old(heap.vals), heap.vals)
              && |tokenizer.Rest()| <= old(|tokenizer.Rest()|)
              && (o == NULL ==>
                    && Parsing(heap, open', own, loose) && parent' == Parent(open')
                    && target == Resume(PendingOf(heap.vals, open'), Syntax.Parse(tokenizer.Rest())))
              && (o != NULL ==>
                    && Parsing(heap, [], own + multiset{o}, loose) && o in heap.vals
                    && target == Success((heap.vals[o], tokenizer.Rest())))
  {
    hide Heap.Valid, Syntax.Parse, Linked, Parsing, Heads, CellsOf;
    var e := expr;
    parent', open' := parent, open;
    ghost var target := Resume(PendingOf(heap.vals, open), Success((heap.vals[expr], tokenizer.Rest())));
    while parent' != NULL
      invariant Parsing(heap, open', own + multiset{e}, loose) && tokenizer.Valid() && parent' == Parent(open')
      invariant e in heap.vals
      invariant Resume(PendingOf(heap.vals, open'), Success((heap.vals[e], tokenizer.Rest()))) == target
      invariant Extends(old(heap.vals), heap.vals) && |tokenizer.Rest()| <= old(|tokenizer.Rest()|)
      decreases |open'|
    {
      OpenOne(heap, open', own + multiset{e}, loose);
      if heap.mem[parent'].body.head == NULL {
        FillHead(heap, parent', e, open', own, loose);
        open' := [OpenCell(parent', e)] + open'[1..];
        return Success(NULL), parent', open';
      }
      ghost var vals0, open0 := heap.vals, open';
      var newParent := FillTail(heap, parent', e, open', own, loose);
      e, parent', open' := parent', newParent, open'[1..];
      OpenOne(heap, open', own + multiset{e}, loose);
      PendingKept(vals0, heap.vals, open');
      var newToken := tokenizer.Next();
      if newToken != RParen {
        return Failure(MissingParen), parent', open';
      }
    }
    OpenOne(heap, open', own + multiset{e}, loose);
    return Success(e), parent', open';
  }

  /** What the parser sees at the innermost pair. */
  lemma OpenOne(heap: Heap, open: seq<OpenCell>, own: multiset<Ptr>, loose: set<Ptr>)
    requires Parsing(heap, open, own, loose)
    ensures Parent(open) == NULL <==> open == []
    ensures open != [] ==> Parent(open) in heap.mem && heap.mem[Parent(open)].body.ConsBody?
    ensures open != [] ==> heap.mem[Parent(open)].body.head == open[0].head
    ensures forall c | c in open :: c.head == NULL || c.head in heap.vals
    ensures forall o | o in own :: o in heap.vals && o != NULL
    ensures NULL !in heap.vals
  {
    HeadsInside(open);
    heap.HeldIsPublished();
  }

  /** 'parse': it returns an object that stands for the expression that recursive descent finds, with the same
      tokens consumed, and fails exactly as recursive descent does. The caller gets one reference to it, and every
      cell that was opened has become an object. */
  method Parse(heap: Heap, tokenizer: Tokenizer) returns (r: Result<Ptr>)
    requires heap.Valid() && tokenizer.Valid()
    modifies heap, tokenizer
    ensures match r
            case Failure(e) => Syntax.Parse(old(tokenizer.Rest())) == Failure(e)
            case Success(o) =>
              && heap.Valid() && heap.held == old(heap.held) + multiset{o} && Extends(old(heap.vals), heap.vals)
              && heap.Loose() == old(heap.Loose())
              && o in heap.vals && tokenizer.Valid()
              && Syntax.Parse(old(tokenizer.Rest())) == Success((heap.vals[o], tokenizer.Rest()))
  {
    hide Heap.Valid, Resume, Syntax.Parse, Linked;
    ghost var own, loose, target := heap.held, heap.Loose(), Syntax.Parse(tokenizer.Rest());
    ghost var open: seq<OpenCell> := [];
    var parent := NULL;
    NothingOpen(heap.mem, heap.published, target);
    while true
      invariant Parsing(heap, open, own, loose) && tokenizer.Valid() && parent == Parent(open)
      invariant target == Resume(PendingOf(heap.vals, open), Syntax.Parse(tokenizer.Rest()))
      invariant Extends(old(heap.vals), heap.vals)
      decreases |tokenizer.Rest()|
    {
      ParseToken(PendingOf(heap.vals, open), tokenizer.Rest());
      var token := tokenizer.Next();
      match token {
        case Symbol(chars) =>
          var expr := NewAtom(heap, chars, open, own, loose);
          var result;
          result, parent, open := Complete(heap, tokenizer, parent, expr, open, own, loose);
          var complete :- result;
          if complete != NULL {
            return Success(complete);
          }
        case LParen =>
          parent := OpenPair(heap, parent, open, own, loose);
          open := [OpenCell(parent, NULL)] + open;
        case _ =>
          return Failure(SymbolOrParenExpected);
      }
    }
  }

  lemma NothingOpen(mem: Cells, published: set<Ptr>, r: Result<(Val, seq<Token>)>)
    ensures Linked(mem, published, []) && Resume([], r) == r
  {
  }

  /** An atom is created while pairs are open. */
  method NewAtom(heap: Heap, chars: string, ghost open: seq<OpenCell>, ghost own: multiset<Ptr>, ghost loose: set<Ptr>)
    returns (o: Ptr)
    requires Parsing(heap, open, own, loose)
    modifies heap
    ensures Parsing(heap, open, own + multiset{o}, loose) && Extends(old(heap.vals), heap.vals)
    ensures o in heap.vals && heap.vals[o] == Atom(chars)
    ensures PendingOf(heap.vals, open) == PendingOf(old(heap.vals), open)
  {
    hide Heap.Valid, Linked;
    OpenOne(heap, open, own, loose);
    heap.HeldIsPublished();
    ghost var mem0, published0, vals0 := heap.mem, heap.published, heap.vals;
    o := heap.CreateAtom(chars);
    LinkedFrame(mem0, published0, heap.mem, heap.published, open);
    heap.HeldIsPublished();
    PendingKept(vals0, heap.vals, open);
  }

  /** A pair is opened. */
  method OpenPair(heap: Heap, parent: Ptr, ghost open: seq<OpenCell>, ghost own: multiset<Ptr>, ghost loose: set<Ptr>)
    returns (o: Ptr)
    requires Parsing(heap, open, own, loose) && parent == Parent(open)
    modifies heap
    ensures Parsing(heap, [OpenCell(o, NULL)] + open, own, loose) && heap.vals == old(heap.vals)
    ensures PendingOf(heap.vals, [OpenCell(o, NULL)] + open) == [AwaitHead] + PendingOf(heap.vals, open)
  {
    hide Heap.Valid;
    OpenOne(heap, open, own, loose);
    CellsInside(heap.mem, heap.published, open);
    ghost var mem0 := heap.mem;
    o := heap.Construct(ConsBody(false, NULL, parent));
    LinkedFrame(mem0, heap.published, heap.mem, heap.published, open);
    CellsOfMore(open, OpenCell(o, NULL));
    assert ([OpenCell(o, NULL)] + open)[1..] == open;
  }

  lemma {:induction false} CellsInside(mem: Cells, published: set<Ptr>, open: seq<OpenCell>)
    requires Linked(mem, published, open)
    ensures forall c | c in open :: c.cell in mem
  {
    if open != [] {
      CellsInside(mem, published, open[1..]);
      assert forall c | c in open :: c == open[0] || c in open[1..];
    }
  }
}
