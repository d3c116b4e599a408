/** The theory of the non-recursive parser of gcl.c: the pairs that are open, which the parser links through
    their own tail fields, and why completing one of them disturbs nothing else. */
module OpenPairs {
  import opened Basics
  import opened Values
  import opened Objects
  import opened Sweeping
  import opened Syntax

  /** From 'parent' the tails lead through the open pairs, innermost first, to nil. The head of an open pair
      is nil as long as it is awaited. */
  predicate Open(mem: Memory, vals: map<Ptr, Val>, nil: Ptr, parent: Ptr, open: seq<Ptr>, pending: seq<Pending>)
    decreases |open|
  {
    && |open| == |pending|
    && if open == [] then parent == nil
       else
         && parent == open[0] && parent != nil && parent in mem && mem[parent].body.ConsBody? && parent !in open[1..]
         && (match pending[0]
             case AwaitHead => mem[parent].body.head == nil
             case AwaitTail(v) =>
               var h := mem[parent].body.head;
               h != nil && h in vals && vals[h] == v)
         && Open(mem, vals, nil, mem[parent].body.tail, open[1..], pending[1..])
  }

  /** Open pairs are referred to only by the tails of other open pairs. */
  predicate Unshared(mem: Memory, open: seq<Ptr>) {
    forall x | x in mem ::
      match mem[x].body
      case ConsBody(_, head, tail) => head !in open && (tail in open ==> x in open)
      case FunctionBody(_, data) => data !in open
      case _ => true
  }

  lemma {:induction false} TailsInside(mem: Memory, vals: map<Ptr, Val>, nil: Ptr, parent: Ptr, open: seq<Ptr>,
                                       pending: seq<Pending>)
    requires Open(mem, vals, nil, parent, open, pending) && open != []
    ensures forall x | x in open ::
              && x in mem && x != nil && mem[x].body.ConsBody?
              && (mem[x].body.tail == nil || mem[x].body.tail in open[1..])
    decreases |open|
  {
    var tail, rest := mem[parent].body.tail, open[1..];
    if rest != [] {
      TailsInside(mem, vals, nil, tail, rest, pending[1..]);
    }
    forall x | x in open ensures x in mem && x != nil && mem[x].body.ConsBody?
    ensures mem[x].body.tail == nil || mem[x].body.tail in open[1..] {
      if x != open[0] {
        assert x in rest;
      } else if rest != [] {
        assert tail == rest[0];
      }
    }
  }

  /** Nothing in memory refers to the innermost open pair. */
  lemma InnermostIsUnreferenced(mem: Memory, vals: map<Ptr, Val>, nil: Ptr, parent: Ptr, open: seq<Ptr>,
                                pending: seq<Pending>)
    requires Open(mem, vals, nil, parent, open, pending) && Unshared(mem, open) && open != []
    ensures forall x | x in mem :: parent !in Refs(mem[x].body)
  {
    TailsInside(mem, vals, nil, parent, open, pending);
    forall x | x in mem ensures parent !in Refs(mem[x].body) {
      assert open[0] in open;
    }
  }

  /** The pairs below the innermost one do not depend on it. */
  lemma {:induction false} OpenFrame(mem: Memory, vals: map<Ptr, Val>, mem': Memory, vals': map<Ptr, Val>, nil: Ptr,
                                     parent: Ptr, open: seq<Ptr>, pending: seq<Pending>, p: Ptr)
    requires Open(mem, vals, nil, parent, open, pending) && p !in open
    requires forall x | x in open && x in mem :: x in mem' && mem'[x] == mem[x] && mem[x].body.ConsBody?
    requires forall x | x in open && x in mem && mem[x].body.ConsBody? :: mem[x].body.head != p
    requires forall x | x in vals && x != p :: x in vals' && vals'[x] == vals[x]
    ensures Open(mem', vals', nil, parent, open, pending)
    decreases |open|
  {
    if open != [] {
      OpenFrame(mem, vals, mem', vals', nil, mem[parent].body.tail, open[1..], pending[1..], p);
    }
  }

  /** Collections and allocations leave the open pairs alone as long as the innermost one is kept. */
  lemma {:induction false} OpenSurvives(mem: Memory, vals: map<Ptr, Val>, mem': Memory, vals': map<Ptr, Val>, nil: Ptr,
                                        parent: Ptr, open: seq<Ptr>, pending: seq<Pending>, o: Ptr)
    requires Open(mem, vals, nil, parent, open, pending) && Meaning(mem', vals') && Meaning(mem, vals)
    requires Allocated(mem, vals, mem', vals', o) && parent in mem'
    ensures Open(mem', vals', nil, parent, open, pending)
    decreases |open|
  {
    if open != [] {
      assert Denotes(mem'[parent].body, vals', vals'[parent]);
      assert Content(mem'[parent].body) == Content(mem[parent].body);
      OpenSurvives(mem, vals, mem', vals', nil, mem[parent].body.tail, open[1..], pending[1..], o);
    }
  }

  lemma UnsharedSurvives(mem: Memory, vals: map<Ptr, Val>, mem': Memory, vals': map<Ptr, Val>, open: seq<Ptr>, o: Ptr)
    requires Unshared(mem, open) && Allocated(mem, vals, mem', vals', o)
    requires forall c | c in Refs(mem'[o].body) :: c !in open
    ensures Unshared(mem', open)
  {
    forall x | x in mem'
      ensures match mem'[x].body
              case ConsBody(_, head, tail) => head !in open && (tail in open ==> x in open)
              case FunctionBody(_, data) => data !in open
              case _ => true
    {
      if x != o {
        assert Content(mem'[x].body) == Content(mem[x].body);
      } else if mem'[o].body.ConsBody? {
        assert mem'[o].body.head in Refs(mem'[o].body) && mem'[o].body.tail in Refs(mem'[o].body);
      } else if mem'[o].body.FunctionBody? {
        assert mem'[o].body.data in Refs(mem'[o].body);
      }
    }
  }

  /** An object that was there before does not refer to a new one, and to open pairs only as it did. */
  lemma OldReferences(mem: Memory, vals: map<Ptr, Val>, mem': Memory, vals': map<Ptr, Val>, open: seq<Ptr>, o: Ptr,
                      x: Ptr)
    requires Unshared(mem, open) && Meaning(mem, vals) && Allocated(mem, vals, mem', vals', o) && x in mem' && x != o
    ensures match mem'[x].body
            case ConsBody(_, head, tail) => head != o && tail != o && head !in open && (tail in open ==> x in open)
            case FunctionBody(_, data) => data != o && data !in open
            case _ => true
  {
    assert Content(mem'[x].body) == Content(mem[x].body);
    assert Denotes(mem[x].body, vals, vals[x]);
  }

  /** A newly opened pair becomes the innermost one. */
  lemma PairOpened(mem: Memory, vals: map<Ptr, Val>, mem': Memory, vals': map<Ptr, Val>, nil: Ptr, parent: Ptr,
                   open: seq<Ptr>, pending: seq<Pending>, o: Ptr)
    requires Open(mem, vals, nil, parent, open, pending) && Unshared(mem, open)
    requires Meaning(mem, vals) && Meaning(mem', vals') && parent in mem' && nil in mem
    requires Allocated(mem, vals, mem', vals', o) && mem'[o].body.ConsBody?
    requires mem'[o].body.head == nil && mem'[o].body.tail == parent
    ensures Open(mem', vals', nil, o, [o] + open, [AwaitHead] + pending)
    ensures Unshared(mem', [o] + open)
  {
    OpenSurvives(mem, vals, mem', vals', nil, parent, open, pending, o);
    assert ([o] + open)[1..] == open && ([AwaitHead] + pending)[1..] == pending;
    if open != [] {
      TailsInside(mem, vals, nil, parent, open, pending);
    }
    NewPairUnshared(mem, vals, mem', vals', nil, open, o);
  }

  lemma NewPairUnshared(mem: Memory, vals: map<Ptr, Val>, mem': Memory, vals': map<Ptr, Val>, nil: Ptr, open: seq<Ptr>,
                        o: Ptr)
    requires Unshared(mem, open) && Meaning(mem, vals) && nil != o && nil !in open
    requires Allocated(mem, vals, mem', vals', o) && mem'[o].body.ConsBody? && mem'[o].body.head == nil
    ensures Unshared(mem', [o] + open)
  {
    var all := [o] + open;
    assert forall c :: c in all <==> c == o || c in open;
    forall x | x in mem'
      ensures match mem'[x].body
              case ConsBody(_, head, tail) => head !in all && (tail in all ==> x in all)
              case FunctionBody(_, data) => data !in all
              case _ => true
    {
      if x != o {
        hide Meaning, Allocated;
        OldReferences(mem, vals, mem', vals', open, o, x);
      }
    }
  }

  /** The head of the innermost pair has been parsed. */
  lemma HeadFilled(mem: Memory, vals: map<Ptr, Val>, nil: Ptr, parent: Ptr, open: seq<Ptr>, pending: seq<Pending>,
                   e: Ptr, mem': Memory, vals': map<Ptr, Val>)
    requires Open(mem, vals, nil, parent, open, pending) && Unshared(mem, open)
    requires open != [] && pending[0].AwaitHead? && e in vals && e != nil && e !in open
    requires mem' == mem[parent := mem[parent].(body := mem[parent].body.(head := e))]
    requires parent in vals && parent in vals' && vals' == vals[parent := vals'[parent]]
    ensures Open(mem', vals', nil, parent, open, [AwaitTail(vals[e])] + pending[1..])
    ensures Unshared(mem', open)
  {
    var pending' := [AwaitTail(vals[e])] + pending[1..];
    assert pending'[1..] == pending[1..];
    OpenIsConses(mem, vals, nil, parent, open, pending);
    assert forall x | x in open :: mem[x].body.head !in open;
    OpenFrame(mem, vals, mem', vals', nil, mem[parent].body.tail, open[1..], pending[1..], parent);
  }

  /** The tail of the innermost pair has been parsed: the pair is complete and leaves the chain. */
  lemma TailFilled(mem: Memory, vals: map<Ptr, Val>, nil: Ptr, parent: Ptr, open: seq<Ptr>, pending: seq<Pending>,
                   e: Ptr, mem': Memory, vals': map<Ptr, Val>)
    requires Open(mem, vals, nil, parent, open, pending) && Unshared(mem, open)
    requires open != [] && e !in open
    requires mem' == mem[parent := mem[parent].(body := mem[parent].body.(tail := e))]
    requires parent in vals && parent in vals' && vals' == vals[parent := vals'[parent]]
    ensures Open(mem', vals', nil, mem[parent].body.tail, open[1..], pending[1..])
    ensures Unshared(mem', open[1..]) && parent !in open[1..]
  {
    OpenIsConses(mem, vals, nil, parent, open, pending);
    TailsInside(mem, vals, nil, parent, open, pending);
    assert forall x | x in open :: mem[x].body.head !in open;
    OpenFrame(mem, vals, mem', vals', nil, mem[parent].body.tail, open[1..], pending[1..], parent);
    InnermostIsUnreferenced(mem, vals, nil, parent, open, pending);
    forall x | x in mem'
      ensures match mem'[x].body
              case ConsBody(_, head, tail) => head !in open[1..] && (tail in open[1..] ==> x in open[1..])
              case FunctionBody(_, data) => data !in open[1..]
              case _ => true
    {
      assert forall y | y in open[1..] :: y in open;
      if x != parent && x in open {
        assert x in open[1..];
      }
    }
  }

  lemma OpenIsConses(mem: Memory, vals: map<Ptr, Val>, nil: Ptr, parent: Ptr, open: seq<Ptr>, pending: seq<Pending>)
    requires Open(mem, vals, nil, parent, open, pending)
    ensures forall x | x in open :: x in mem && x != nil && mem[x].body.ConsBody?
  {
    if open != [] {
      TailsInside(mem, vals, nil, parent, open, pending);
    }
  }

  /** What the parser sees at the innermost pair. */
  lemma Innermost(mem: Memory, vals: map<Ptr, Val>, nil: Ptr, parent: Ptr, open: seq<Ptr>, pending: seq<Pending>)
    requires Open(mem, vals, nil, parent, open, pending)
    ensures |open| == |pending| && (parent == nil <==> open == [])
    ensures open != [] ==> parent in mem && mem[parent].body.ConsBody?
    ensures open != [] ==> (mem[parent].body.head == nil <==> pending[0].AwaitHead?)
  {
  }
}
