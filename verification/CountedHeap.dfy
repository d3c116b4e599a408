/** The reference-counted heap of rcl.c: adding and releasing references, recursive disposal, creation of
    objects and taking a cons apart. */
module CountedHeap {
  import opened Basics
  import opened Values
  import opened Objects
  import opened Counting

  datatype Snapshot = Snapshot(mem: Cells, published: set<Ptr>, vals: map<Ptr, Val>)

  /** From a to b nothing was published and the objects that are still there stand for what they stood for;
      unpublished ones were not touched, except that 'gone' was freed. */
  predicate Survives(a: Snapshot, b: Snapshot, gone: Ptr) {
    && b.published <= a.published
    && (forall x | x in b.vals :: x in a.vals && b.vals[x] == a.vals[x])
    && (forall x | x in b.mem && x !in b.published :: x in a.mem && x !in a.published && b.mem[x] == a.mem[x])
    && (forall x | x in a.mem && x !in a.published && x != gone :: x in b.mem && x !in b.published)
  }

  /** The blocks that are not on the list of objects. */
  function OffList(s: Snapshot): set<Ptr> {
    s.mem.Keys - s.published
  }

  lemma SurvivesLoose(a: Snapshot, b: Snapshot, gone: Ptr)
    requires Survives(a, b, gone) && NULL !in a.mem && gone !in b.mem
    ensures OffList(b) == OffList(a) - {gone}
  {
  }

  lemma SurvivesBoth(a: Snapshot, b: Snapshot, c: Snapshot, gone: Ptr)
    requires Survives(a, b, NULL) && Survives(b, c, gone) && NULL !in a.mem
    ensures Survives(a, c, gone)
  {
  }

  lemma SurvivesValue(a: Snapshot, b: Snapshot, o: Ptr)
    requires Survives(a, b, NULL) && o in b.vals
    ensures o in a.vals && b.vals[o] == a.vals[o] && b.published <= a.published
  {
  }

  lemma SurvivesCount(a: Snapshot, o: Ptr, n: int)
    requires o in a.published && o in a.mem
    ensures Survives(a, a.(mem := a.mem[o := a.mem[o].(refCount := n)]), NULL)
  {
  }

  lemma Untouched(a: Snapshot, b: Snapshot, o: Ptr)
    requires Survives(a, b, NULL) && o in a.mem && o !in a.published && o != NULL
    ensures o in b.mem && o !in b.published && b.mem[o] == a.mem[o] && b.published <= a.published
  {
  }

  lemma SurvivesFree(a: Snapshot, o: Ptr)
    requires o !in a.published
    ensures Survives(a, a.(mem := a.mem - {o}), o)
  {
  }

  /** Disposing an object whose last reference was given up. */
  lemma SurvivesDisposal(a: Snapshot, o: Ptr, b: Snapshot)
    requires o in a.published && a.vals.Keys == a.published <= a.mem.Keys && NULL !in a.mem
    requires Survives(Snapshot(a.mem[o := a.mem[o].(refCount := 0)], a.published - {o}, a.vals - {o}), b, o)
    requires o !in b.mem && b.published <= b.mem.Keys && b.vals.Keys == b.published
    ensures Survives(a, b, NULL)
  {
  }

  lemma FewerCount(mem: Cells, o: Ptr, published: set<Ptr>)
    requires o in mem && published <= mem.Keys
    ensures Fewer(mem, mem[o := mem[o].(refCount := mem[o].refCount - 1)], published)
  {
  }

  lemma FewerAfter(mem: Cells, n: int, o: Ptr, mem': Cells, published: set<Ptr>)
    requires o in mem && o !in published && Fewer(mem[o := mem[o].(refCount := n)], mem', published)
    ensures Fewer(mem, mem', published)
  {
  }

  lemma FewerBoth(a: Snapshot, b: Snapshot, c: Snapshot)
    requires Fewer(a.mem, b.mem, b.published) && Fewer(b.mem, c.mem, c.published) && Survives(b, c, NULL)
    ensures Fewer(a.mem, c.mem, c.published)
  {
  }

  lemma FewerFree(mem: Cells, mem': Cells, o: Ptr, published: set<Ptr>)
    requires Fewer(mem, mem', published) && o !in published
    ensures Fewer(mem, mem' - {o}, published)
  {
  }

  lemma AtomDisposed(a: Snapshot, o: Ptr)
    requires o in a.mem && o !in a.published && a.mem[o].body.AtomBody? && a.published <= a.mem.Keys
    ensures Survives(a, a.(mem := a.mem - {o}), o) && Fewer(a.mem, a.mem - {o}, a.published)
    ensures Refs(a.mem[o].body) == [] && Covers(0, a.mem, [])
  {
  }

  lemma RefsOfCons(b: Body, vals: map<Ptr, Val>)
    requires b.ConsBody? && forall c | c in Refs(b) :: c in vals
    ensures b.head in vals && b.tail in vals
    ensures Refs(b) == [b.head, b.tail] && multiset(Refs(b)) == multiset{b.head} + multiset{b.tail}
    ensures ValueOf(b, vals) == Cons(vals[b.head], vals[b.tail])
  {
    assert b.head == Refs(b)[0] && b.tail == Refs(b)[1];
  }

  lemma RefsOfFunction(b: Body, vals: map<Ptr, Val>)
    requires b.FunctionBody? && forall c | c in Refs(b) :: c in vals
    ensures b.data in vals
    ensures Refs(b) == [b.data] && multiset(Refs(b)) == multiset{b.data}
    ensures Height(ValueOf(b, vals)) == 1 + Height(vals[b.data])
  {
    assert b.data == Refs(b)[0];
  }

  /** A release that ends in a disposal. */
  lemma DisposalIsRelease(a: Snapshot, b: Snapshot, nil: Ptr, held: multiset<Ptr>, o: Ptr, depth: nat)
    requires Conserved(a.mem, a.published, a.vals, nil, held) && o in a.published && a.mem[o].refCount == 1
    requires var zero := a.mem[o := a.mem[o].(refCount := 0)];
             && Survives(Snapshot(zero, a.published - {o}, a.vals - {o}), b, o)
             && Fewer(zero, b.mem, b.published) && Covers(depth, zero, Refs(a.mem[o].body))
    requires a.vals.Keys == a.published && o !in b.mem && b.published <= b.mem.Keys && b.vals.Keys == b.published
    ensures Survives(a, b, NULL) && Fewer(a.mem, b.mem, b.published) && OffList(b) == OffList(a)
    ensures Covers(1 + depth, a.mem, [o])
  {
    hide Survives, Fewer, Covers, Understood, References;
    SurvivesDisposal(a, o, b);
    FewerAfter(a.mem, 0, o, b.mem, b.published);
    SurvivesLoose(a, b, NULL);
    OneMoreLevel(a.mem, a.published, a.vals, nil, held, o, depth);
  }

  /** A release of an object that has other references. */
  lemma CountIsRelease(a: Snapshot, nil: Ptr, held: multiset<Ptr>, o: Ptr)
    requires Conserved(a.mem, a.published, a.vals, nil, held) && o in a.published && a.mem[o].refCount > 1
    ensures var b := a.(mem := a.mem[o := a.mem[o].(refCount := a.mem[o].refCount - 1)]);
            Survives(a, b, NULL) && Fewer(a.mem, b.mem, b.published) && OffList(b) == OffList(a)
    ensures Covers(1, a.mem, [o])
  {
    hide Survives, Fewer, Covers, Understood, References;
    SurvivesCount(a, o, a.mem[o].refCount - 1);
    FewerCount(a.mem, o, a.published);
    OneMoreLevel(a.mem, a.published, a.vals, nil, held, o, 0);
  }

  class Heap {
    /** The memory, and the address of nil_value. */
    var mem: Cells
    const nil: Ptr

    /** The objects that are on the list of objects, what they stand for, and the references held by the
        program's stacks and local variables. An object that is not on the list is under construction or
        is being disposed. */
    ghost var published: set<Ptr>
    ghost var vals: map<Ptr, Val>
    ghost var held: multiset<Ptr>

    /** The static object nil_value starts with a reference that is never released. */
    ghost predicate Valid()
      reads this
    {
      Conserved(mem, published, vals, nil, held + multiset{nil})
    }

    ghost function Now(): Snapshot
      reads this
    {
      Snapshot(mem, published, vals)
    }

    /** The blocks that are not on the list of objects: those under construction or being disposed, and those
        that got lost, if there were any. */
    ghost function Loose(): set<Ptr>
      reads this
    {
      OffList(Now())
    }

    constructor (nil: Ptr)
      requires nil != NULL
      ensures Valid() && this.nil == nil && published == {nil} && vals == map[nil := Nil] && held == multiset{}
      ensures mem == map[nil := Cell(1, NilBody)] && Loose() == {}
    {
      this.nil := nil;
      mem := map[nil := Cell(1, NilBody)];
      published, vals, held := {nil}, map[nil := Nil], multiset{};
      new;
      assert BodiesOf(mem, published) == map[nil := NilBody];
      ReferencesOf(map[nil := NilBody], nil);
    }

    lemma HeldIsPublished()
      requires Valid()
      ensures forall o | o in held :: o in published && o in vals
      ensures nil in published && nil in vals && vals.Keys == published <= mem.Keys && NULL !in mem
    {
    }

    /** Reading a published object: its body says what it stands for, and nil is the only object that
        stands for Nil. */
    lemma ObjectMeaning(o: Ptr)
      requires Valid() && o in vals
      ensures o in mem && o in published && o != NULL && Denotes(mem[o].body, vals, vals[o])
      ensures vals[o] == Nil <==> o == nil
    {
      assert Denotes(BodiesOf(mem, published)[o], vals, vals[o]);
    }

    lemma EveryBlockIsListed()
      requires Valid() && Loose() == {}
      ensures published == mem.Keys && forall o | o in held :: o in published
    {
      HeldIsPublished();
      forall o | o in mem ensures o in published {
        assert o !in mem.Keys - published;
      }
    }

    /** What the counts are good for: each block that is allocated is under construction, or it is reached from
        a held reference (or from nil_value). */
    lemma NothingLeaks(o: Ptr) returns (h: Ptr)
      requires Valid() && o in mem
      ensures o in Loose() ||
              ((h in held || h == nil) && Reaches(ReferenceGraph(BodiesOf(mem, published)), {}, h, o))
    {
      h := nil;
      if o in published {
        h := NoGarbage(mem, published, vals, nil, held + multiset{nil}, o);
      }
    }

    /** 'object_add_ref' */
    method AddRef(o: Ptr)
      requires Valid() && o in published
      modifies this
      ensures Valid() && held == old(held) + multiset{o} && published == old(published) && vals == old(vals)
      ensures Survives(old(Now()), Now(), NULL) && Loose() == old(Loose())
      ensures o in old(mem) && mem == old(mem)[o := old(mem[o]).(refCount := old(mem[o]).refCount + 1)]
    {
      hide Conserved;
      HeldIsPublished();
      RefAdded(mem, published, vals, nil, held + multiset{nil}, o);
      mem := mem[o := mem[o].(refCount := mem[o].refCount + 1)];
      held := held + multiset{o};
      assert held + multiset{nil} == old(held) + multiset{nil} + multiset{o};
    }

    /** 'object_release'. The recursion through 'dispose' ends because each disposed object has left the
        list of objects before the objects it refers to are released.

        'depth' is how many calls of 'object_release' are nested in each other at most. */
    method Release(o: Ptr) returns (ghost depth: nat)
      requires Valid() && o in held
      modifies this
      ensures Valid() && held == old(held) - multiset{o} && Loose() == old(Loose())
      ensures Survives(old(Now()), Now(), NULL) && Fewer(old(mem), mem, published)
      ensures o in old(mem) && o in old(vals) && depth >= 1
      ensures depth > 1 <==> old(mem[o]).refCount == 1 && Refs(old(mem[o]).body) != []
      ensures Covers(depth, old(mem), [o]) && depth <= 1 + Height(old(vals[o]))
      decreases published, 0
    {
      hide Conserved, Survives, Fewer, Covers, Refs, Height;
      ghost var s0, held0 := Now(), held + multiset{nil};
      HeldIsPublished();
      CountIsPositive(o);
      ObjectMeaning(o);
      mem := mem[o := mem[o].(refCount := mem[o].refCount - 1)];
      GiveUp(o, s0.mem);
      if mem[o].refCount == 0 {
        OnlyDisposed(s0, o);
        depth := Dispose(o);
        HeldIsPublished();
        DisposalIsRelease(s0, Now(), nil, held0, o, depth);
        depth := 1 + depth;
      } else {
        CountIsRelease(s0, nil, held0, o);
        depth := 1;
      }
    }

    lemma OnlyDisposed(s: Snapshot, o: Ptr)
      requires Valid() && o in s.vals && o in s.mem && Denotes(s.mem[o].body, s.vals, s.vals[o])
      requires vals == s.vals - {o} && multiset(Refs(s.mem[o].body)) <= held
      ensures forall c | c in Refs(s.mem[o].body) :: c in vals
      ensures ValueOf(s.mem[o].body, vals) == s.vals[o]
    {
      hide Conserved;
      HeldIsPublished();
      assert forall c | c in Refs(s.mem[o].body) :: c in multiset(Refs(s.mem[o].body));
    }

    /** What a decrement means: an object whose count has become zero leaves the list of objects, and the
        references that it keeps are to be given up next. */
    ghost method GiveUp(o: Ptr, before: Cells)
      requires Conserved(before, published, vals, nil, held + multiset{nil}) && o in held && o in before
      requires mem == before[o := before[o].(refCount := before[o].refCount - 1)]
      modifies `published, `vals, `held
      ensures Valid()
      ensures mem[o].refCount == 0 ==>
                && o !in published && published == old(published) - {o} && vals == old(vals) - {o} && o != nil
                && held == old(held) - multiset{o} + multiset(Refs(mem[o].body)) && !mem[o].body.NilBody?
      ensures mem[o].refCount != 0 ==>
                published == old(published) && vals == old(vals) && held == old(held) - multiset{o}
    {
      hide Conserved, Refs;
      var total := held + multiset{nil};
      assert total - multiset{o} == held - multiset{o} + multiset{nil};
      OnlyNilIsNil(before, published, vals, nil, total, o);
      if mem[o].refCount == 0 {
        LastRefDropped(before, published, vals, nil, total, o);
        published, vals := published - {o}, vals - {o};
        held := held - multiset{o} + multiset(Refs(mem[o].body));
        assert held + multiset{nil} == total - multiset{o} + multiset(Refs(mem[o].body));
      } else {
        RefDropped(before, published, vals, nil, total, o);
        held := held - multiset{o};
      }
    }

    lemma CountIsPositive(o: Ptr)
      requires Valid() && o in published
      ensures o in mem && mem[o].refCount >= 1
    {
    }

    /** The call through 'class->dispose'. It is never made on nil, whose function would stop the program.
        'depth' counts the calls of 'object_release' that are nested in it. */
    method Dispose(o: Ptr) returns (ghost depth: nat)
      requires Valid() && o in mem && o !in published && !mem[o].body.NilBody?
      requires multiset(Refs(mem[o].body)) <= held && forall c | c in Refs(mem[o].body) :: c in vals
      modifies this
      ensures Valid() && held == old(held) - multiset(Refs(old(mem[o].body)))
      ensures Survives(old(Now()), Now(), o) && o !in mem && Fewer(old(mem), mem, published)
      ensures depth > 0 <==> Refs(old(mem[o]).body) != []
      ensures Covers(depth, old(mem), Refs(old(mem[o]).body))
      ensures depth <= Height(ValueOf(old(mem[o]).body, old(vals)))
      decreases published, 2
    {
      hide Conserved, Survives, Fewer, Covers, Height, Refs, ValueOf;
      match mem[o].body {
        case ConsBody(_, head, tail) =>
          RefsOfCons(mem[o].body, vals);
          depth := ConsDispose(o);
        case AtomBody(_) =>
          HeldIsPublished();
          AtomDisposed(Now(), o);
          Free(o);
          depth := 0;
        case FunctionBody(_, _) =>
          RefsOfFunction(mem[o].body, vals);
          depth := FunctionDispose(o);
      }
    }

    method ConsDispose(o: Ptr) returns (ghost depth: nat)
      requires Valid() && o in mem && o !in published && mem[o].body.ConsBody?
      requires multiset{mem[o].body.head} + multiset{mem[o].body.tail} <= held
      modifies this
      ensures Valid()
      ensures held == old(held) - (multiset{old(mem[o].body.head)} + multiset{old(mem[o].body.tail)})
      ensures Survives(old(Now()), Now(), o) && o !in mem && Fewer(old(mem), mem, published)
      ensures var head, tail := old(mem[o]).body.head, old(mem[o]).body.tail;
              && depth > 0 && Covers(depth, old(mem), [head, tail])
              && head in old(vals) && tail in old(vals)
              && depth <= Height(Cons(old(vals[head]), old(vals[tail])))
      decreases published, 1, 1
    {
      hide Conserved, Survives, Fewer, Covers, Height;
      HeldIsPublished();
      ghost var s0 := Now();
      depth := ReleaseBoth(mem[o].body.head, mem[o].body.tail);
      ghost var s1 := Now();
      Untouched(s0, s1, o);
      Free(o);
      HeldIsPublished();
      SurvivesFree(s1, o);
      SurvivesBoth(s0, s1, Now(), o);
      FewerFree(s0.mem, s1.mem, o, published);
    }

    /** The references to the parts of a cons are given up one after the other. */
    method ReleaseBoth(head: Ptr, tail: Ptr) returns (ghost depth: nat)
      requires Valid() && multiset{head} + multiset{tail} <= held
      modifies this
      ensures Valid() && held == old(held) - (multiset{head} + multiset{tail})
      ensures Survives(old(Now()), Now(), NULL) && Fewer(old(mem), mem, published)
      ensures depth > 0 && Covers(depth, old(mem), [head, tail])
      ensures head in old(vals) && tail in old(vals)
      ensures depth <= Height(Cons(old(vals[head]), old(vals[tail])))
      decreases published, 1, 0
    {
      hide Conserved, Survives, Fewer, Covers, Heap.Loose;
      ghost var s0 := Now();
      HeldIsPublished();
      ghost var headDepth := Release(head);
      ghost var s1, held1 := Now(), held + multiset{nil};
      HeldIsPublished();
      SurvivesValue(s0, s1, tail);
      ghost var tailDepth := Release(tail);
      SurvivesBoth(s0, s1, Now(), NULL);
      FewerBoth(s0, s1, Now());
      depth := if headDepth > tailDepth then headDepth else tailDepth;
      BothSides(s0.mem, s1.mem, s1.published, s1.vals, nil, held1, head, tail, headDepth, tailDepth, depth);
    }

    method FunctionDispose(o: Ptr) returns (ghost depth: nat)
      requires Valid() && o in mem && o !in published && mem[o].body.FunctionBody?
      requires mem[o].body.data in held
      modifies this
      ensures Valid() && held == old(held) - multiset{old(mem[o].body.data)}
      ensures Survives(old(Now()), Now(), o) && o !in mem && Fewer(old(mem), mem, published)
      ensures var data := old(mem[o]).body.data;
              && depth > 0 && Covers(depth, old(mem), [data])
              && data in old(vals) && depth <= 1 + Height(old(vals[data]))
      decreases published, 1
    {
      hide Conserved, Covers, Height;
      HeldIsPublished();
      ghost var mem0 := mem;
      depth := Release(mem[o].body.data);
      HeldIsPublished();
      Free(o);
    }

    /** 'free' */
    method Free(o: Ptr)
      requires Valid() && o in mem && o !in published
      modifies `mem
      ensures Valid() && mem == old(mem) - {o}
    {
      hide Conserved;
      HeldIsPublished();
      UnpublishedChanged(mem, mem - {o}, published, vals, nil, held + multiset{nil});
      mem := mem - {o};
    }

    /** A finished object is put on the list of objects. It takes over the references in its fields; the
        program gets the reference that the new object's count stands for. */
    ghost method Publish(o: Ptr)
      requires Valid() && o in mem && o !in published && mem[o].refCount == 1 && !mem[o].body.NilBody?
      requires multiset(Refs(mem[o].body)) <= held
      modifies `published, `vals, `held
      ensures Valid() && published == old(published) + {o} && Loose() == old(Loose()) - {o}
      ensures held == old(held) - multiset(Refs(mem[o].body)) + multiset{o}
      ensures forall c | c in Refs(mem[o].body) :: c in old(vals)
      ensures vals == old(vals)[o := ValueOf(mem[o].body, old(vals))]
    {
      hide Conserved, ValueOf, Refs;
      ghost var refs := multiset(Refs(mem[o].body));
      ObjectPublished(mem, published, vals, nil, held + multiset{nil}, o);
      assert held + multiset{nil} - refs + multiset{o} == held - refs + multiset{o} + multiset{nil};
      published, vals, held := published + {o}, vals[o := ValueOf(mem[o].body, vals)], held - refs + multiset{o};
    }

    /** The step from a cons under construction to a published one. */
    ghost method PublishCons(o: Ptr)
      requires Valid() && o in mem && o !in published && mem[o].refCount == 1 && mem[o].body.ConsBody?
      requires multiset{mem[o].body.head} + multiset{mem[o].body.tail} <= held
      modifies `published, `vals, `held
      ensures var head, tail := mem[o].body.head, mem[o].body.tail;
              && Valid() && published == old(published) + {o} && Loose() == old(Loose()) - {o}
              && held == old(held) - (multiset{head} + multiset{tail}) + multiset{o}
              && head in old(vals) && tail in old(vals)
              && vals == old(vals)[o := Cons(old(vals)[head], old(vals)[tail])]
    {
      hide Conserved;
      assert multiset(Refs(mem[o].body)) == multiset{mem[o].body.head} + multiset{mem[o].body.tail};
      assert mem[o].body.head in Refs(mem[o].body) && mem[o].body.tail in Refs(mem[o].body);
      Publish(o);
    }

    method CreateNil() returns (o: Ptr)
      requires Valid()
      modifies this
      ensures o == nil && Valid() && held == old(held) + multiset{o} && o in vals && vals[o] == Nil
      ensures published == old(published) && vals == old(vals) && Survives(old(Now()), Now(), NULL)
      ensures Loose() == old(Loose())
    {
      hide Conserved;
      HeldIsPublished();
      ObjectMeaning(nil);
      AddRef(nil);
      return nil;
    }

    /** An object that is not on the list of objects yet. */
    method Construct(body: Body) returns (o: Ptr)
      requires Valid() && !body.NilBody?
      modifies `mem
      ensures Valid() && o !in old(mem) && o !in published && o != NULL && mem == old(mem)[o := Cell(1, body)]
      ensures Loose() == old(Loose()) + {o}
    {
      hide Conserved;
      HeldIsPublished();
      o := Malloc(mem);
      UnpublishedChanged(mem, mem[o := Cell(1, body)], published, vals, nil, held + multiset{nil});
      mem := mem[o := Cell(1, body)];
    }

    /** Assignment to a field of an object that is not on the list of objects yet. */
    method Assign(o: Ptr, body: Body)
      requires Valid() && o in mem && o !in published
      modifies `mem
      ensures Valid() && mem == old(mem)[o := old(mem[o]).(body := body)] && Loose() == old(Loose())
    {
      hide Conserved;
      HeldIsPublished();
      UnpublishedChanged(mem, mem[o := mem[o].(body := body)], published, vals, nil, held + multiset{nil});
      mem := mem[o := mem[o].(body := body)];
    }

    method CreateCons(head: Ptr, tail: Ptr) returns (o: Ptr)
      requires Valid() && multiset{head} + multiset{tail} <= held
      modifies this
      ensures Valid() && held == old(held) - (multiset{head} + multiset{tail}) + multiset{o}
      ensures o !in old(mem) && published == old(published) + {o} && Loose() == old(Loose())
      ensures mem == old(mem)[o := Cell(1, ConsBody(false, head, tail))]
      ensures head in old(vals) && tail in old(vals) && vals == old(vals)[o := Cons(old(vals[head]), old(vals[tail]))]
    {
      hide Conserved;
      o := Construct(ConsBody(false, head, tail));
      PublishCons(o);
    }

    method CreateAtom(chars: string) returns (o: Ptr)
      requires Valid()
      modifies this
      ensures Valid() && held == old(held) + multiset{o}
      ensures o !in old(mem) && published == old(published) + {o} && Loose() == old(Loose())
      ensures mem == old(mem)[o := Cell(1, AtomBody(chars))]
      ensures vals == old(vals)[o := Atom(chars)]
    {
      hide Conserved;
      o := Construct(AtomBody(chars));
      Publish(o);
    }

    method CreateFunction(code: Code, data: Ptr) returns (o: Ptr)
      requires Valid() && data in held
      modifies this
      ensures Valid() && held == old(held) - multiset{data} + multiset{o}
      ensures o !in old(mem) && published == old(published) + {o} && Loose() == old(Loose())
      ensures mem == old(mem)[o := Cell(1, FunctionBody(code, data))]
      ensures data in old(vals) && vals == old(vals)[o := Func(code, old(vals[data]))]
    {
      hide Conserved;
      o := Construct(FunctionBody(code, data));
      assert multiset(Refs(mem[o].body)) == multiset{data} && data in Refs(mem[o].body);
      Publish(o);
    }

    /** References to the parts of a cons are obtained before the reference to the cons, which may be
        disposed, is given up. */
    method TakeParts(o: Ptr) returns (head: Ptr, tail: Ptr)
      requires Valid() && o in held && o in mem && mem[o].body.ConsBody?
      modifies this
      ensures Valid() && held == old(held) - multiset{o} + multiset{head, tail}
      ensures Survives(old(Now()), Now(), NULL) && Loose() == old(Loose())
      ensures head in vals && tail in vals && o in old(vals) && old(vals[o]) == Cons(vals[head], vals[tail])
    {
      hide Conserved, Survives;
      HeldIsPublished();
      ObjectMeaning(o);
      ghost var s0 := Now();
      head, tail := mem[o].body.head, mem[o].body.tail;
      AddTwoRefs(head, tail);
      ghost var s1 := Now();
      ghost var _ := Release(o);
      SurvivesBoth(s0, s1, Now(), NULL);
      HeldIsPublished();
      SurvivesValue(s0, Now(), head);
      SurvivesValue(s0, Now(), tail);
      assert held == old(held) - multiset{o} + multiset{head, tail};
    }

    method AddTwoRefs(a: Ptr, b: Ptr)
      requires Valid() && a in published && b in published
      modifies this
      ensures Valid() && held == old(held) + multiset{a, b} && published == old(published) && vals == old(vals)
      ensures Survives(old(Now()), Now(), NULL) && Loose() == old(Loose())
    {
      hide Conserved, Survives;
      HeldIsPublished();
      AddRef(a);
      ghost var s1 := Now();
      AddRef(b);
      SurvivesBoth(old(Now()), s1, Now(), NULL);
    }

    method DestructCons(o: Ptr) returns (r: Result<(Ptr, Ptr)>)
      requires Valid() && o in held
      modifies this
      ensures r.Failure? ==> r.error == ConsExpected && o in old(vals) && !old(vals[o]).Cons?
      ensures r.Success? ==> Valid() && held == old(held) - multiset{o} + multiset{r.value.0, r.value.1}
      ensures r.Success? ==> Survives(old(Now()), Now(), NULL) && Loose() == old(Loose())
      ensures r.Success? ==>
                && r.value.0 in vals && r.value.1 in vals
                && o in old(vals) && old(vals[o]) == Cons(vals[r.value.0], vals[r.value.1])
    {
      hide Conserved, Survives;
      HeldIsPublished();
      ObjectMeaning(o);
      if !mem[o].body.ConsBody? {
        return Failure(ConsExpected);
      }
      var head, tail := TakeParts(o);
      return Success((head, tail));
    }

    /** A list that nothing else refers to gets one more element. */
    method Prepend(chars: string, tail: Ptr, ghost p: seq<Ptr>) returns (o: Ptr)
      requires Valid() && tail in held && tail in vals && LonePath(mem, p) && p[0] == tail
      modifies this
      ensures Valid() && held == old(held) - multiset{tail} + multiset{o} && Loose() == old(Loose())
      ensures o in vals && vals[o] == Cons(Atom(chars), old(vals[tail]))
      ensures LonePath(mem, [o] + p)
    {
      hide Conserved;
      HeldIsPublished();
      ghost var mem0 := mem;
      var head := CreateAtom(chars);
      o := CreateCons(head, tail);
      LonePathKept(mem0, mem, p);
      assert ([o] + p)[1..] == p;
    }

    /** A list of n atoms; nothing but the reference to the first cell is kept. */
    method CreateList(chars: string, n: nat) returns (o: Ptr, ghost p: seq<Ptr>)
      requires Valid()
      modifies this
      ensures Valid() && held == old(held) + multiset{o} && Loose() == old(Loose())
      ensures o in vals && Height(vals[o]) == n
      ensures LonePath(mem, p) && |p| == n + 1 && p[0] == o
    {
      hide Conserved;
      o := CreateNil();
      p := [o];
      for i := 0 to n
        invariant Valid() && held == old(held) + multiset{o} && Loose() == old(Loose())
        invariant o in vals && Height(vals[o]) == i
        invariant LonePath(mem, p) && |p| == i + 1 && p[0] == o
      {
        o := Prepend(chars, o, p);
        p := [o] + p;
      }
    }

    /** The nesting of 'object_release' is not bounded: to release a list of n atoms takes n + 1 levels. */
    method ReleaseList(chars: string, n: nat) returns (ghost depth: nat)
      requires Valid()
      modifies this
      ensures Valid() && held == old(held) && Loose() == old(Loose())
      ensures depth == n + 1
    {
      hide Conserved, Height, LonePath;
      var o, p := CreateList(chars, n);
      assert p[0] in [o];
      depth := Release(o);
    }
  }
}
