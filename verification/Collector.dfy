/** The garbage-collected heap of gcl.c: marking by pointer reversal, the in-place sweep, registration of
    new objects and the list of roots. */
module Collector {
  import opened Basics
  import opened Values
  import opened Objects
  import opened Marking
  import opened Sweeping

  /** A C variable whose address is registered with the collector. */
  class Root {
    var value: Ptr

    constructor (value: Ptr)
      ensures this.value == value
    {
      this.value := value;
    }
  }

  function RootValues(roots: seq<Root>): (vs: seq<Ptr>)
    reads roots
    ensures |vs| == |roots| && forall i | 0 <= i < |roots| :: vs[i] == roots[i].value
  {
    if roots == [] then [] else [roots[0].value] + RootValues(roots[1..])
  }

  lemma VisitingBody(b: Body, cs: seq<Ptr>, i: nat, parent: Ptr)
    requires Visiting(b, cs, i, parent)
    ensures b.ConsBody? && i == 0 ==> b.tailIsNext && cs == [cs[0], b.tail] && b.head == parent
    ensures b.ConsBody? && i != 0 ==> !b.tailIsNext && i == 1 && cs == [b.head, cs[1]] && b.tail == parent
    ensures b.FunctionBody? ==> i == 0 && cs == [cs[0]] && b.data == parent
  {
    assert |cs| == |Refs(b)| && forall j | 0 <= j < |cs| :: Refs(b)[j] == if j == i then parent else cs[j];
  }

  class Heap {
    /** The memory, and the global variables heap_head, object_count and roots_head (first root first). */
    var mem: Memory
    var heapHead: Ptr
    var objectCount: nat
    var roots: seq<Root>

    /** The address of nil_value and the number of objects at which a collection starts. */
    const nil: Ptr
    const nilRoot: Root
    const limit: nat

    /** The objects in the order of the heap list, and what each of them stands for. */
    ghost var objects: seq<Ptr>
    ghost var vals: map<Ptr, Val>

    /** How many objects have been registered so far. */
    ghost var registered: nat

    ghost predicate Valid()
      reads this, roots
    {
      && HeapOk(mem, heapHead, objects, objectCount, limit, nil, vals, RootValues(roots))
      && nilRoot in roots && nilRoot.value == nil
      && objectCount <= 1 + registered
    }

    /** A full heap all of whose objects are reachable from the roots: the one case in which an
        allocation fails. Then at least limit - 1 objects have been registered. */
    ghost predicate Full()
      reads this, roots
    {
      objectCount == limit <= 1 + registered && mem.Keys == Live(GraphOf(mem), RootValues(roots))
    }

    /** The registered variables are the same ones as before, and what they stand for has not changed,
        except perhaps for two of them. */
    twostate predicate Keeps(a: Root?, b: Root?)
      reads this, roots
    {
      && roots == old(roots)
      && forall x | x in roots && x != a && x != b ::
           x.value == old(x.value) && x.value in vals && x.value in old(vals) && vals[x.value] == old(vals[x.value])
    }

    /** These variables hold objects that stand for what they stood for. */
    twostate predicate KeepsValues(xs: seq<Root>)
      reads this, xs
    {
      forall x | x in xs ::
        x.value == old(x.value) && x.value in vals && x.value in old(vals) && vals[x.value] == old(vals[x.value])
    }

    /** 'init_globals' up to and including the registration of nil_root. */
    constructor (nil: Ptr, limit: nat)
      requires nil != NULL && limit >= 1
      ensures Valid() && fresh(nilRoot) && roots == [nilRoot]
      ensures this.nil == nil && this.limit == limit && vals == map[nil := Nil] && nil in mem && registered == 0
    {
      this.nil, this.limit, registered := nil, limit, 0;
      mem := map[nil := Obj(NULL, false, NilBody)];
      heapHead, objectCount := nil, 1;
      var r := new Root(nil);
      nilRoot := r;
      roots := [r];
      objects := [nil];
      vals := map[nil := Nil];
      new;
      assert objects[1..] == [] && Elements(objects) == {nil};
      assert RootValues(roots)[0] == nil;
      assert Segment(mem, mem[nil].next, objects[1..], NULL);
      assert Denotes(mem[nil].body, vals, vals[nil]);
    }

    /** The heap list and the values do not depend on the roots. */
    lemma RootsChanged(vs: seq<Ptr>)
      requires HeapOk(mem, heapHead, objects, objectCount, limit, nil, vals, vs)
      requires nilRoot in roots && nilRoot.value == nil && objectCount <= 1 + registered
      requires forall r | r in roots :: r.value in mem
      ensures Valid()
    {
      var us := RootValues(roots);
      var i :| 0 <= i < |roots| && roots[i] == nilRoot;
      assert us[i] == nil;
      forall v | v in us ensures v in mem {
        var j :| 0 <= j < |us| && us[j] == v;
        assert roots[j] in roots;
      }
    }

    twostate lemma KeepsSurvivors(o: Ptr)
      requires old(Valid()) && Valid() && roots == old(roots) && (forall x | x in roots :: x.value == old(x.value))
      requires o !in old(mem) && Survives(old(mem), old(vals), mem, vals, o)
      ensures Keeps(null, null)
    {
      forall x | x in roots
        ensures x.value in vals && x.value in old(vals) && vals[x.value] == old(vals[x.value])
      {
        RootsAreObjects();
        OldRootsAreObjects();
      }
    }

    /** Reading an object: its body says what it stands for, and nil is the only object that stands for Nil. */
    lemma ObjectMeaning(o: Ptr)
      requires Valid() && o in vals
      ensures o in mem && o != NULL && Denotes(mem[o].body, vals, vals[o])
      ensures vals[o] == Nil <==> o == nil
    {
    }

    lemma HasMeaning()
      requires Valid()
      ensures Meaning(mem, vals)
    {
    }

    twostate lemma OldRootsAreObjects()
      requires old(Valid())
      ensures forall r | r in old(roots) :: old(r.value) in old(mem) && old(r.value) in old(vals)
    {
      forall r | r in old(roots) ensures old(r.value) in old(mem) {
        var i :| 0 <= i < |old(roots)| && old(roots)[i] == r;
        assert old(RootValues(roots))[i] == old(r.value);
      }
    }

    method PushRoot(r: Root)
      requires Valid() && r.value in mem
      modifies `roots
      ensures Valid() && roots == [r] + old(roots)
    {
      hide HeapOk;
      ghost var vs := RootValues(roots);
      RootsAreObjects();
      roots := [r] + roots;
      RootsChanged(vs);
    }

    method PopRoot(ghost r: Root, ghost rest: seq<Root>)
      requires Valid() && roots == [r] + rest && nilRoot in rest
      modifies `roots
      ensures Valid() && roots == rest
    {
      hide HeapOk;
      ghost var vs := RootValues(roots);
      RootsAreObjects();
      roots := roots[1..];
      RootsChanged(vs);
    }

    method SetRoot(r: Root, value: Ptr)
      requires Valid() && r in roots && r != nilRoot && value in mem
      modifies r
      ensures Valid() && r.value == value
    {
      hide HeapOk;
      ghost var vs := RootValues(roots);
      RootsAreObjects();
      r.value := value;
      RootsChanged(vs);
    }

    lemma RootsAreObjects()
      requires Valid()
      ensures forall r | r in roots :: r.value in mem && r.value in vals && r.value in RootValues(roots)
      ensures nilRoot in roots && nilRoot.value == nil
      ensures nil in mem && NULL !in mem && mem.Keys == vals.Keys && mem[nil].body.NilBody? && vals[nil] == Nil
    {
      forall r | r in roots ensures r.value in RootValues(roots) {
        var i :| 0 <= i < |roots| && roots[i] == r;
        assert RootValues(roots)[i] == r.value;
      }
      assert Denotes(mem[nil].body, vals, vals[nil]);
    }

    method ConsStartMarking(obj: Ptr, parent: Ptr) returns (obj': Ptr, parent': Ptr, more: bool, ghost b: Body)
      requires obj in mem && mem[obj].body.ConsBody?
      modifies `mem
      ensures more && obj' == Refs(old(mem[obj].body))[0] && parent' == obj
      ensures Visiting(b, Refs(old(mem[obj].body)), 0, parent) && Kind(b) == Kind(old(mem[obj].body))
      ensures mem == old(mem)[obj := old(mem[obj]).(body := b)]
    {
      obj' := mem[obj].body.head;
      mem := mem[obj := mem[obj].(body := mem[obj].body.(head := parent))];
      parent' := obj;
      mem := mem[obj := mem[obj].(body := mem[obj].body.(tailIsNext := true))];
      more := true;
      b := mem[obj].body;
    }

    method ConsMarkNext(obj: Ptr, parent: Ptr, ghost cs: seq<Ptr>, ghost i: nat, ghost above: Ptr)
      returns (obj': Ptr, parent': Ptr, more: bool, ghost b: Body)
      requires parent in mem && mem[parent].body.ConsBody?
      requires Visiting(mem[parent].body, cs, i, above) && obj == cs[i]
      modifies `mem
      ensures more == (i + 1 < |cs|)
      ensures more ==> obj' == cs[i + 1] && parent' == parent && Visiting(b, cs, i + 1, above)
      ensures !more ==> obj' == parent && parent' == above && Refs(b) == cs
      ensures Kind(b) == Kind(old(mem[parent].body))
      ensures mem == old(mem)[parent := old(mem[parent]).(body := b)]
    {
      VisitingBody(mem[parent].body, cs, i, above);
      if mem[parent].body.tailIsNext {
        var grandparent := mem[parent].body.head;
        mem := mem[parent := mem[parent].(body := mem[parent].body.(head := obj))];
        obj' := mem[parent].body.tail;
        mem := mem[parent := mem[parent].(body := mem[parent].body.(tail := grandparent))];
        mem := mem[parent := mem[parent].(body := mem[parent].body.(tailIsNext := false))];
        parent' := parent;
        more := true;
      } else {
        parent' := mem[parent].body.tail;
        mem := mem[parent := mem[parent].(body := mem[parent].body.(tail := obj))];
        obj' := parent;
        more := false;
      }
      b := mem[parent].body;
    }

    method FunctionStartMarking(obj: Ptr, parent: Ptr) returns (obj': Ptr, parent': Ptr, more: bool, ghost b: Body)
      requires obj in mem && mem[obj].body.FunctionBody?
      modifies `mem
      ensures more && obj' == Refs(old(mem[obj].body))[0] && parent' == obj
      ensures Visiting(b, Refs(old(mem[obj].body)), 0, parent) && Kind(b) == Kind(old(mem[obj].body))
      ensures mem == old(mem)[obj := old(mem[obj]).(body := b)]
    {
      obj' := mem[obj].body.data;
      mem := mem[obj := mem[obj].(body := mem[obj].body.(data := parent))];
      parent' := obj;
      more := true;
      b := mem[obj].body;
    }

    method FunctionMarkNext(obj: Ptr, parent: Ptr, ghost cs: seq<Ptr>, ghost i: nat, ghost above: Ptr)
      returns (obj': Ptr, parent': Ptr, more: bool, ghost b: Body)
      requires parent in mem && mem[parent].body.FunctionBody?
      requires Visiting(mem[parent].body, cs, i, above) && obj == cs[i]
      modifies `mem
      ensures !more && i + 1 == |cs| && obj' == parent && parent' == above && Refs(b) == cs
      ensures Kind(b) == Kind(old(mem[parent].body))
      ensures mem == old(mem)[parent := old(mem[parent]).(body := b)]
    {
      VisitingBody(mem[parent].body, cs, i, above);
      parent' := mem[parent].body.data;
      mem := mem[parent := mem[parent].(body := mem[parent].body.(data := obj))];
      obj' := parent;
      more := false;
      b := mem[parent].body;
    }

    /** The call through 'object->class->start_marking'; nil and atoms have no references. */
    method StartMarking(obj: Ptr, parent: Ptr) returns (obj': Ptr, parent': Ptr, more: bool, ghost b: Body)
      requires obj in mem
      modifies `mem
      ensures more == (Refs(old(mem[obj].body)) != [])
      ensures more ==> obj' == Refs(old(mem[obj].body))[0] && parent' == obj
      ensures more ==> Visiting(b, Refs(old(mem[obj].body)), 0, parent)
      ensures !more ==> obj' == obj && parent' == parent && b == old(mem[obj].body)
      ensures Kind(b) == Kind(old(mem[obj].body))
      ensures mem == old(mem)[obj := old(mem[obj]).(body := b)]
    {
      match mem[obj].body {
        case ConsBody(_, _, _) => obj', parent', more, b := ConsStartMarking(obj, parent);
        case FunctionBody(_, _) => obj', parent', more, b := FunctionStartMarking(obj, parent);
        case NilBody => obj', parent', more, b := obj, parent, false, mem[obj].body;
        case AtomBody(_) => obj', parent', more, b := obj, parent, false, mem[obj].body;
      }
    }

    /** The call through 'parent->class->mark_next'. It is never made on nil or an atom, whose functions
        would stop the program. */
    method MarkNext(obj: Ptr, parent: Ptr, ghost cs: seq<Ptr>, ghost i: nat, ghost above: Ptr)
      returns (obj': Ptr, parent': Ptr, more: bool, ghost b: Body)
      requires parent in mem && Visiting(mem[parent].body, cs, i, above) && obj == cs[i]
      modifies `mem
      ensures more == (i + 1 < |cs|)
      ensures more ==> obj' == cs[i + 1] && parent' == parent && Visiting(b, cs, i + 1, above)
      ensures !more ==> obj' == parent && parent' == above && Refs(b) == cs
      ensures Kind(b) == Kind(old(mem[parent].body))
      ensures mem == old(mem)[parent := old(mem[parent]).(body := b)]
    {
      match mem[parent].body {
        case ConsBody(_, _, _) => obj', parent', more, b := ConsMarkNext(obj, parent, cs, i, above);
        case FunctionBody(_, _) => obj', parent', more, b := FunctionMarkNext(obj, parent, cs, i, above);
        case NilBody => assert false;
        case AtomBody(_) => assert false;
      }
    }

    /** The block at label start_marking: turn back at a marked object, enter an unmarked one. */
    method StartBlock(obj: Ptr, parent: Ptr, ghost g: Graph, ghost m0: set<Ptr>, ghost root: Ptr, ghost stk: Stack)
      returns (obj': Ptr, parent': Ptr, pc: Label, ghost stk': Stack)
      requires Invariant(g, m0, root, stk, State(mem, obj, parent, Start))
      modifies `mem
      ensures Invariant(g, m0, root, stk', State(mem, obj', parent', pc)) && SameFrame(old(mem), mem)
      ensures Progress(g, stk, State(old(mem), obj, parent, Start), stk', State(mem, obj', parent', pc))
    {
      hide Invariant, Progress;
      ghost var s := State(mem, obj, parent, Start);
      Ready(g, m0, root, stk, s);
      if mem[obj].marked {
        TurnBack(g, m0, root, stk, s);
        return obj, parent, Next, stk;
      }
      mem := mem[obj := mem[obj].(marked := true)];
      var more;
      ghost var b;
      obj', parent', more, b := StartMarking(obj, parent);
      if more {
        Enter(g, m0, root, stk, s, b, State(mem, obj', parent', Start));
        pc, stk' := Start, Above(obj, 0, stk);
      } else {
        EnterLeaf(g, m0, root, stk, s, State(mem, obj', parent', Next));
        pc, stk' := Next, stk;
      }
      EnterProgress(g, stk, s, stk', State(mem, obj', parent', pc));
    }

    /** The block at label mark_next below a parent: go on to its next reference, or leave it. */
    method NextBlock(obj: Ptr, parent: Ptr, ghost g: Graph, ghost m0: set<Ptr>, ghost root: Ptr, ghost stk: Stack)
      returns (obj': Ptr, parent': Ptr, pc: Label, ghost stk': Stack)
      requires Invariant(g, m0, root, stk, State(mem, obj, parent, Next)) && parent != NULL
      modifies `mem
      ensures Invariant(g, m0, root, stk', State(mem, obj', parent', pc)) && SameFrame(old(mem), mem)
      ensures Progress(g, stk, State(old(mem), obj, parent, Next), stk', State(mem, obj', parent', pc))
    {
      hide Invariant, Progress;
      ghost var s := State(mem, obj, parent, Next);
      Ready(g, m0, root, stk, s);
      var more;
      ghost var b;
      obj', parent', more, b := MarkNext(obj, parent, g[parent], stk.i, stk.rest.Top());
      if more {
        Swing(g, m0, root, stk, s, b, State(mem, obj', parent', Start));
        pc, stk' := Start, stk.(i := stk.i + 1);
      } else {
        Leave(g, m0, root, stk, s, b, State(mem, obj', parent', Next));
        pc, stk' := Next, stk.rest;
      }
      NextProgress(g, stk, s, stk', State(mem, obj', parent', pc));
    }

    /** The pointer-reversing marker. It marks exactly what can be reached from 'root' around the marks
        that are already there, and leaves every reference as it was. */
    method Mark(root: Ptr)
      requires Closed(GraphOf(mem)) && NULL !in mem && root in mem
      modifies `mem
      ensures GraphOf(mem) == old(GraphOf(mem)) && SameFrame(old(mem), mem)
      ensures Marked(mem) == old(Marked(mem)) + Reach(old(GraphOf(mem)), old(Marked(mem)), root)
    {
      hide Invariant, Unmarked, ToVisit, Stack.Depth, Marked, GraphOf, Closed, Reach, SameFrame;
      SameFrameIsTransitive();
      ghost var g, m0, stk := GraphOf(mem), Marked(mem), Bottom;
      var obj, parent, pc := root, NULL, Start;
      Begin(mem, root);
      while pc == Start || parent != NULL
        invariant Invariant(g, m0, root, stk, State(mem, obj, parent, pc))
        invariant SameFrame(old(mem), mem)
        decreases Unmarked(g, State(mem, obj, parent, pc)), stk.Depth(), ToVisit(g, stk), pc == Start
      {
        if pc == Start {
          obj, parent, pc, stk := StartBlock(obj, parent, g, m0, root, stk);
        } else {
          obj, parent, pc, stk := NextBlock(obj, parent, g, m0, root, stk);
        }
      }
      Finished(g, m0, root, stk, State(mem, obj, parent, pc));
    }

    /** The first loop of 'gc': mark from every root. */
    method MarkRoots()
      requires Closed(GraphOf(mem)) && NULL !in mem && Marked(mem) == {}
      requires forall r | r in roots :: r.value in mem
      modifies `mem
      ensures GraphOf(mem) == old(GraphOf(mem)) && SameFrame(old(mem), mem)
      ensures Marked(mem) == Live(old(GraphOf(mem)), RootValues(roots))
    {
      hide Marked, Closed, Reach, SameFrame;
      SameFrameIsTransitive();
      ghost var g, vs := GraphOf(mem), RootValues(roots);
      var rs := 0;
      while rs < |roots|
        invariant 0 <= rs <= |roots|
        invariant GraphOf(mem) == g && SameFrame(old(mem), mem) && mem.Keys == old(mem.Keys)
        invariant Marked(mem) == Live(g, vs[..rs])
      {
        Mark(roots[rs].value);
        assert GraphOf(mem).Keys == mem.Keys && g.Keys == old(mem.Keys);
        LiveStep(g, vs[..rs], vs[rs]);
        assert vs[..rs + 1] == vs[..rs] + [vs[rs]];
        rs := rs + 1;
      }
      assert vs[..rs] == vs;
    }

    /** The second loop of 'gc': unmark what is marked, unlink and free what is not. */
    method Sweep(ghost live: set<Ptr>)
      requires Segment(mem, heapHead, objects, NULL) && NoDuplicates(objects) && mem.Keys == Elements(objects)
      requires objectCount == |objects| && Marked(mem) == live && nil in live && live <= mem.Keys
      modifies `mem, `heapHead, `objectCount, `objects
      ensures objects == Filter(old(objects), live)
      ensures Segment(mem, heapHead, objects, NULL) && NoDuplicates(objects) && mem.Keys == Elements(objects)
      ensures mem.Keys == live && objectCount == |objects|
      ensures forall o | o in mem :: o in old(mem) && mem[o].body == old(mem[o].body) && !mem[o].marked
    {
      hide Segment, Swept, Filter, NoDuplicates, Elements, Marked;
      ghost var mem0, rest := mem, objects;
      ghost var kept: seq<Ptr> := [];
      SweepBegin(mem, heapHead, objects, live);
      var h: Link := Head;
      var o: Ptr := heapHead;
      while o != NULL
        invariant Swept(mem0, live, mem, heapHead, kept, o, rest) && h == LinkAfter(kept)
        invariant kept + Filter(rest, live) == Filter(old(objects), live)
        invariant objectCount == |kept| + |rest|
        decreases |rest|
      {
        SweptNow(mem0, live, mem, heapHead, kept, o, rest);
        if mem[o].marked {
          KeepOne(mem0, live, mem, heapHead, kept, o, rest, mem[o := mem[o].(marked := false)]);
          mem := mem[o := mem[o].(marked := false)];
          h := NextOf(o);
          kept := kept + [o];
        } else {
          assert o != nil;
          objectCount := objectCount - 1;
          ghost var mem1, head1 := mem, heapHead;
          if h.Head? {
            heapHead := mem[o].next;
          } else {
            mem := mem[h.obj := mem[h.obj].(next := mem[o].next)];
          }
          DropOne(mem0, live, mem1, head1, kept, o, rest, mem, heapHead);
          mem := mem - {o};
        }
        rest := rest[1..];
        o := if h.Head? then heapHead else mem[h.obj].next;
      }
      objects := kept;
      SweepEnd(mem0, live, mem, heapHead, kept, rest, old(objects));
    }

    /** Collection: what is left are exactly the objects reachable from the roots, in their old order,
        with what they hold and stand for unchanged. */
    method Gc()
      requires Valid()
      modifies `mem, `heapHead, `objectCount, `objects, `vals
      ensures Valid()
      ensures objects == Filter(old(objects), Live(old(GraphOf(mem)), RootValues(roots)))
      ensures mem.Keys == Live(old(GraphOf(mem)), RootValues(roots))
      ensures Survives(old(mem), old(vals), mem, vals, NULL)
      ensures mem.Keys <= old(mem.Keys) && objectCount <= old(objectCount)
      ensures objectCount == old(objectCount) == limit ==> Full()
    {
      hide HeapOk, Live, Closed, Marked, GraphOf, Segment, NoDuplicates, Elements, Filter, Survives, SameFrame;
      ghost var mem0, head0, list0, count0, vs := mem, heapHead, objects, objectCount, RootValues(roots);
      ghost var live := Live(GraphOf(mem), vs);
      CollectionMayStart(mem, heapHead, objects, objectCount, limit, nil, vals, vs);
      MarkRoots();
      ghost var mem1 := mem;
      MarkingKeepsList(mem0, mem1, heapHead, objects);
      Sweep(live);
      CollectionIsDone(mem0, head0, list0, count0, limit, nil, vals, vs, mem1, mem, heapHead, objects, live);
      FilterIsShorter(list0, live);
      vals := map o | o in live :: vals[o];
    }

    /** Adding an object to the heap, after a collection if the heap is full. It fails only when every
        object of a full heap is reachable from the roots. */
    method RegisterObject(o: Ptr, body: Body) returns (r: Result<()>)
      requires Valid() && o !in mem && o != NULL && !body.NilBody?
      requires forall c | c in Refs(body) :: c in RootValues(roots)
      modifies `mem, `heapHead, `objectCount, `objects, `vals, `registered
      ensures registered == old(registered) + if r.Success? then 1 else 0
      ensures r.Success? ==> Valid() && Survives(old(mem), old(vals), mem, vals, o)
      ensures r.Success? ==>
                o in mem && mem[o].body == body && o in vals && Denotes(body, old(vals), vals[o])
      ensures r.Success? ==>
                objects == [o] + if old(objectCount) < limit then old(objects)
                                 else Filter(old(objects), Live(old(GraphOf(mem)), RootValues(roots)))
      ensures r.Failure? ==> r.error == ObjectLimit && Full()
    {
      hide Live, Filter, HeapOk, Meaning, Survives, Denotes, ValueOf, GraphOf, Full, RootValues;
      RootsHaveValues(mem, heapHead, objects, objectCount, limit, nil, vals, RootValues(roots));
      ghost var mem0, vals0 := mem, vals;
      if objectCount == limit {
        Gc();
      }
      if objectCount == limit {
        return Failure(ObjectLimit);
      }
      ghost var mem1, vals1 := mem, vals;
      RootsHaveValues(mem, heapHead, objects, objectCount, limit, nil, vals, RootValues(roots));
      LinkObject(o, body);
      SurvivesBoth(mem0, vals0, mem1, vals1, mem, vals, o, body);
      return Success(());
    }

    /** The new object becomes the head of the heap list. */
    method LinkObject(o: Ptr, body: Body)
      requires Valid() && o !in mem && o != NULL && !body.NilBody? && objectCount < limit
      requires forall c | c in Refs(body) :: c in RootValues(roots)
      modifies `mem, `heapHead, `objectCount, `objects, `vals, `registered
      ensures registered == old(registered) + 1
      ensures Valid() && Survives(old(mem), old(vals), mem, vals, o) && objects == [o] + old(objects)
      ensures forall c | c in Refs(body) :: c in old(vals)
      ensures o in mem && mem[o].body == body && o in vals && vals[o] == ValueOf(body, old(vals))
    {
      hide HeapOk, Meaning, Survives, Denotes, ValueOf, RootValues;
      Registered(mem, heapHead, objects, objectCount, limit, nil, vals, RootValues(roots), o, body);
      objectCount, registered := objectCount + 1, registered + 1;
      vals := vals[o := ValueOf(body, vals)];
      mem := mem[o := Obj(heapHead, false, body)];
      heapHead := o;
      objects := [o] + objects;
    }

    method CreateNil() returns (o: Ptr)
      requires Valid()
      ensures o == nil && o in vals && vals[o] == Nil
    {
      RootsAreObjects();
      o := nil;
    }

    /** The new cons refers to 'head' and 'tail'; both are roots while it is registered. */
    method CreateCons(head: Ptr, tail: Ptr) returns (r: Result<Ptr>)
      requires Valid() && head in vals && tail in vals
      modifies this
      ensures registered <= old(registered) + 1
      ensures r.Success? ==> Allocated(old(mem), old(vals), mem, vals, r.value) && Valid() && Keeps(null, null)
      ensures r.Success? ==>
                && mem[r.value].body.ConsBody? && mem[r.value].body.head == head && mem[r.value].body.tail == tail
                && vals[r.value] == Cons(old(vals[head]), old(vals[tail]))
      ensures r.Failure? ==> r.error == ObjectLimit && Full()
    {
      hide Valid, HeapOk, Survives, Full, RootValues, Keeps, ListOk, GraphOf, Live;
      RootsAreObjects();
      var cons := Malloc(mem);
      var headVar := new Root(head);
      var tailVar := new Root(tail);
      PushRoot(headVar);
      PushRoot(tailVar);
      RootsAreObjects();
      assert headVar in roots && tailVar in roots;
      var _ :- RegisterObject(cons, ConsBody(false, head, tail));
      PopRoot(tailVar, [headVar] + old(roots));
      PopRoot(headVar, old(roots));
      KeepsSurvivors(cons);
      return Success(cons);
    }

    method CreateAtom(chars: string) returns (r: Result<Ptr>)
      requires Valid()
      modifies this
      ensures registered <= old(registered) + 1
      ensures r.Success? ==> Allocated(old(mem), old(vals), mem, vals, r.value) && Valid() && Keeps(null, null)
      ensures r.Success? ==> mem[r.value].body == AtomBody(chars) && vals[r.value] == Atom(chars)
      ensures r.Failure? ==> r.error == ObjectLimit && Full()
    {
      hide Valid, HeapOk, Survives, Full, RootValues, Keeps, ListOk, GraphOf, Live;
      RootsAreObjects();
      var atom := Malloc(mem);
      var _ :- RegisterObject(atom, AtomBody(chars));
      KeepsSurvivors(atom);
      return Success(atom);
    }

    /** An atom is created while another object is kept by a variable, as map_cons_s does it. */
    method CreateAtomBeside(chars: string, value: Ptr) returns (r: Result<Ptr>)
      requires Valid() && value in vals
      modifies this
      ensures registered <= old(registered) + 1
      ensures r.Success? ==> Valid() && Keeps(null, null) && r.value in vals && vals[r.value] == Atom(chars)
      ensures r.Success? ==> value in vals && vals[value] == old(vals[value])
      ensures r.Failure? ==> r.error == ObjectLimit && Full()
    {
      hide Valid, HeapOk, Full, RootValues, ListOk, GraphOf, Live;
      RootsAreObjects();
      var valueVar := new Root(value);
      PushRoot(valueVar);
      var atom :- CreateAtom(chars);
      PopRoot(valueVar, old(roots));
      return Success(atom);
    }

    method CreateFunction(code: Code, data: Ptr) returns (r: Result<Ptr>)
      requires Valid() && data in vals
      modifies this
      ensures registered <= old(registered) + 1
      ensures r.Success? ==> Allocated(old(mem), old(vals), mem, vals, r.value) && Valid() && Keeps(null, null)
      ensures r.Success? ==>
                mem[r.value].body == FunctionBody(code, data) && vals[r.value] == Func(code, old(vals[data]))
      ensures r.Failure? ==> r.error == ObjectLimit && Full()
    {
      hide Valid, HeapOk, Survives, Full, RootValues, Keeps, ListOk, GraphOf, Live;
      RootsAreObjects();
      var function_ := Malloc(mem);
      var dataVar := new Root(data);
      PushRoot(dataVar);
      RootsAreObjects();
      assert dataVar in roots;
      var _ :- RegisterObject(function_, FunctionBody(code, data));
      PopRoot(dataVar, old(roots));
      KeepsSurvivors(function_);
      return Success(function_);
    }

    /** Assignment to a field of a cons that nothing refers to yet. */
    method SetBody(p: Ptr, b: Body)
      requires Valid() && p in mem && mem[p].body.ConsBody? && b.ConsBody?
      requires forall x | x in mem :: p !in Refs(mem[x].body)
      requires forall c | c in Refs(b) :: c in mem && c != p
      modifies `mem, `vals
      ensures Valid() && mem == old(mem)[p := old(mem[p]).(body := b)]
      ensures (forall c | c in Refs(b) :: c in old(vals)) && vals == old(vals)[p := ValueOf(b, old(vals))]
    {
      hide HeapOk;
      RootsAreObjects();
      HeapOkRelinked(mem, heapHead, objects, objectCount, limit, nil, vals, RootValues(roots), p, b);
      vals := vals[p := ValueOf(b, vals)];
      mem := mem[p := mem[p].(body := b)];
    }
  }
}
