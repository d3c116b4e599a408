/** The theory of the sweep (function 'gc' of gcl.c): the list of all objects, the part of it that is
    kept, and what the objects denote before and after. */
module Sweeping {
  import opened Basics
  import opened Values
  import opened Objects

  /** The objects of 'list', linked through their 'next' fields, lead from 'p' to 'q'. */
  predicate Segment(mem: Memory, p: Ptr, list: seq<Ptr>, q: Ptr)
    decreases list
  {
    if list == [] then p == q
    else p == list[0] && p != NULL && p in mem && Segment(mem, mem[p].next, list[1..], q)
  }

  function Elements(list: seq<Ptr>): set<Ptr> {
    set o | o in list
  }

  function Filter(list: seq<Ptr>, keep: set<Ptr>): seq<Ptr> {
    if list == [] then []
    else if list[0] in keep then [list[0]] + Filter(list[1..], keep)
    else Filter(list[1..], keep)
  }

  lemma {:induction false} FilterIsShorter(list: seq<Ptr>, keep: set<Ptr>)
    ensures |Filter(list, keep)| <= |list|
  {
    if list != [] {
      FilterIsShorter(list[1..], keep);
    }
  }

  /** What is reachable from any of the given addresses. */
  ghost function Live(g: Graph, vs: seq<Ptr>): set<Ptr> {
    if vs == [] then {} else Live(g, vs[..|vs| - 1]) + Reach(g, {}, vs[|vs| - 1])
  }

  lemma {:induction false} LiveIsClosed(g: Graph, vs: seq<Ptr>)
    requires Closed(g) && forall v | v in vs :: v in g
    ensures ClosedUnder(g, Live(g, vs)) && Live(g, vs) <= g.Keys
    ensures forall v | v in vs :: v in Live(g, vs)
  {
    if vs != [] {
      var rest, last := vs[..|vs| - 1], vs[|vs| - 1];
      assert vs == rest + [last];
      LiveIsClosed(g, rest);
      AvoidingClosedSet(g, {}, last);
      ReachesSelf(g, {}, last);
      assert {} + Reach(g, {}, last) == Reach(g, {}, last);
    }
  }

  /** Marking one more root. */
  lemma LiveStep(g: Graph, vs: seq<Ptr>, v: Ptr)
    requires Closed(g) && v in g && forall x | x in vs :: x in g
    ensures Live(g, vs + [v]) == Live(g, vs) + Reach(g, Live(g, vs), v)
  {
    assert (vs + [v])[..|vs|] == vs;
    LiveIsClosed(g, vs);
    AvoidingClosedSet(g, Live(g, vs), v);
  }

  /** 'vals' gives every object its value. Since a value contains the values of the references, memory
      that has such a map is acyclic. */
  predicate Meaning(mem: Memory, vals: map<Ptr, Val>) {
    && mem.Keys == vals.Keys
    && (forall o | o in mem :: Denotes(mem[o].body, vals, vals[o]))
  }

  lemma MeaningIsClosed(mem: Memory, vals: map<Ptr, Val>)
    requires Meaning(mem, vals)
    ensures Closed(GraphOf(mem))
  {
    forall o, i | o in mem && 0 <= i < |Refs(mem[o].body)| ensures Refs(mem[o].body)[i] in mem {
      assert Denotes(mem[o].body, vals, vals[o]);
    }
  }

  /** Objects survive with what they hold and what they stand for; only 'o' may be new. */
  predicate Survives(mem: Memory, vals: map<Ptr, Val>, mem': Memory, vals': map<Ptr, Val>, o: Ptr) {
    && (forall x | x in mem' && x != o :: x in mem && Content(mem'[x].body) == Content(mem[x].body))
    && (forall x | x in vals' && x != o :: x in vals && vals'[x] == vals[x])
  }

  /** 'o' has been added; other objects may have been freed, and those that are left are as they were. */
  predicate Allocated(mem: Memory, vals: map<Ptr, Val>, mem': Memory, vals': map<Ptr, Val>, o: Ptr) {
    o !in mem && o in mem' && o in vals' && Survives(mem, vals, mem', vals', o)
  }

  /** Freeing what is not reachable leaves every other object its value. */
  lemma MeaningSurvives(mem: Memory, vals: map<Ptr, Val>, mem': Memory, live: set<Ptr>)
    requires Meaning(mem, vals) && ClosedUnder(GraphOf(mem), live) && mem'.Keys == live <= mem.Keys
    requires forall o | o in mem' && o in mem :: Content(mem'[o].body) == Content(mem[o].body)
    ensures Meaning(mem', map o | o in live :: vals[o])
  {
    var vals' := map o | o in live :: vals[o];
    forall o | o in mem' ensures Denotes(mem'[o].body, vals', vals'[o]) {
      assert Denotes(mem[o].body, vals, vals[o]);
      assert GraphOf(mem)[o] == Refs(mem[o].body);
      assert forall i | 0 <= i < |Refs(mem[o].body)| :: GraphOf(mem)[o][i] in live;
      if mem[o].body.ConsBody? {
        assert Refs(mem[o].body)[0] in live && Refs(mem[o].body)[1] in live;
      } else if mem[o].body.FunctionBody? {
        assert Refs(mem[o].body)[0] in live;
      }
    }
  }

  /** Linking a new object whose references are all there. */
  lemma MeaningExtends(mem: Memory, vals: map<Ptr, Val>, o: Ptr, obj: Obj)
    requires Meaning(mem, vals) && o !in mem && forall c | c in Refs(obj.body) :: c in mem
    ensures Meaning(mem[o := obj], vals[o := ValueOf(obj.body, vals)])
  {
    var vals' := vals[o := ValueOf(obj.body, vals)];
    forall x | x in mem[o := obj] ensures Denotes(mem[o := obj][x].body, vals', vals'[x]) {
      if x != o {
        assert Denotes(mem[x].body, vals, vals[x]);
      } else {
        assert Denotes(obj.body, vals, vals'[o]);
      }
    }
  }

  lemma ListExtends(mem: Memory, head: Ptr, list: seq<Ptr>, nil: Ptr, o: Ptr, body: Body)
    requires ListOk(mem, head, list, nil) && o !in mem && o != NULL && !body.NilBody?
    ensures ListOk(mem[o := Obj(head, false, body)], o, [o] + list, nil)
  {
    var mem' := mem[o := Obj(head, false, body)];
    assert o !in Elements(list);
    SegmentFrame(mem, mem', head, list, NULL);
    assert ([o] + list)[1..] == list;
    assert Elements([o] + list) == {o} + Elements(list);
  }

  /** The list holds all objects, once each; none is marked, and only 'nil' is the nil object. */
  predicate ListOk(mem: Memory, head: Ptr, list: seq<Ptr>, nil: Ptr) {
    && Segment(mem, head, list, NULL) && NoDuplicates(list)
    && mem.Keys == Elements(list) && NULL !in mem
    && (forall o | o in mem :: !mem[o].marked)
    && (forall o | o in mem :: mem[o].body.NilBody? <==> o == nil)
    && nil in mem
  }

  /** What a program can observe of a body: everything but the marker's own flag. */
  function Content(b: Body): Body {
    if b.ConsBody? then b.(tailIsNext := false) else b
  }

  /** A body without its references. */
  function Kind(b: Body): Body {
    match b
    case NilBody => b
    case AtomBody(_) => b
    case ConsBody(_, _, _) => ConsBody(false, NULL, NULL)
    case FunctionBody(code, _) => FunctionBody(code, NULL)
  }

  /** Marking moves references and flips marks; links and kinds stay. */
  predicate SameFrame(mem: Memory, mem': Memory) {
    && mem.Keys == mem'.Keys
    && (forall o | o in mem :: mem'[o].next == mem[o].next && Kind(mem'[o].body) == Kind(mem[o].body))
  }

  lemma SameFrameIsTransitive()
    ensures forall a :: SameFrame(a, a)
    ensures forall a, b, c | SameFrame(a, b) && SameFrame(b, c) :: SameFrame(a, c)
  {
  }

  lemma SameRefsSameContent(mem: Memory, mem': Memory)
    requires SameFrame(mem, mem') && GraphOf(mem') == GraphOf(mem)
    ensures forall o | o in mem :: Content(mem'[o].body) == Content(mem[o].body)
  {
    forall o | o in mem ensures Content(mem'[o].body) == Content(mem[o].body) {
      assert GraphOf(mem)[o] == GraphOf(mem')[o];
      var b, b' := mem[o].body, mem'[o].body;
      if b.ConsBody? {
        assert Refs(b)[0] == Refs(b')[0] && Refs(b)[1] == Refs(b')[1];
      } else if b.FunctionBody? {
        assert Refs(b)[0] == Refs(b')[0];
      }
    }
  }

  /** A C variable of type 'struct object **': the address of the list head or of a 'next' field. */
  datatype Link = Head | NextOf(obj: Ptr)

  lemma {:induction false} SegmentFrame(mem: Memory, mem': Memory, p: Ptr, list: seq<Ptr>, q: Ptr)
    requires Segment(mem, p, list, q)
    requires forall o | o in list && o in mem :: o in mem' && mem'[o].next == mem[o].next
    ensures Segment(mem', p, list, q)
    decreases list
  {
    if list != [] {
      SegmentFrame(mem, mem', mem[p].next, list[1..], q);
    }
  }

  lemma {:induction false} SegmentExtend(mem: Memory, p: Ptr, list: seq<Ptr>, q: Ptr)
    requires Segment(mem, p, list, q) && q != NULL && q in mem
    ensures Segment(mem, p, list + [q], mem[q].next)
    decreases list
  {
    if list == [] {
      assert ([q])[1..] == [];
    } else {
      SegmentExtend(mem, mem[p].next, list[1..], q);
      assert (list + [q])[1..] == list[1..] + [q];
    }
  }

  lemma {:induction false} SegmentRelink(mem: Memory, p: Ptr, list: seq<Ptr>, q: Ptr, q': Ptr)
    requires Segment(mem, p, list, q) && list != [] && NoDuplicates(list) && list[|list| - 1] in mem
    ensures var last := list[|list| - 1]; Segment(mem[last := mem[last].(next := q')], p, list, q')
    decreases list
  {
    var last := list[|list| - 1];
    var mem' := mem[last := mem[last].(next := q')];
    if |list| == 1 {
      assert list[1..] == [];
    } else {
      SegmentRelink(mem, mem[p].next, list[1..], q, q');
      assert list[0] != last;
    }
  }

  function LinkAfter(kept: seq<Ptr>): Link {
    if kept == [] then Head else NextOf(kept[|kept| - 1])
  }

  /** Between two turns of the sweep: 'kept' has been swept and is still linked, 'rest' is as marking left
      it, and 'o' is what the link between them holds. */
  predicate Swept(mem0: Memory, live: set<Ptr>, mem: Memory, head: Ptr, kept: seq<Ptr>, o: Ptr, rest: seq<Ptr>) {
    && Segment(mem, head, kept, o) && Segment(mem, o, rest, NULL)
    && NoDuplicates(kept) && NoDuplicates(rest) && Elements(kept) !! Elements(rest)
    && mem.Keys == Elements(kept) + Elements(rest)
    && (forall x | x in mem :: x in mem0 && mem[x].body == mem0[x].body)
    && (forall x | x in kept && x in mem :: x in live && !mem[x].marked)
    && (forall x | x in rest && x in mem :: mem[x].marked <==> x in live)
  }

  lemma SweepBegin(mem: Memory, head: Ptr, list: seq<Ptr>, live: set<Ptr>)
    requires Segment(mem, head, list, NULL) && NoDuplicates(list)
    requires mem.Keys == Elements(list) && Marked(mem) == live
    ensures Swept(mem, live, mem, head, [], head, list)
    ensures [] + Filter(list, live) == Filter(list, live)
  {
  }

  /** Where the sweep stands: at the null pointer exactly when nothing is left. */
  lemma SweptNow(mem0: Memory, live: set<Ptr>, mem: Memory, head: Ptr, kept: seq<Ptr>, o: Ptr, rest: seq<Ptr>)
    requires Swept(mem0, live, mem, head, kept, o, rest)
    ensures o == NULL <==> rest == []
    ensures o != NULL ==> o == rest[0] && o in mem && (mem[o].marked <==> o in live)
    ensures kept != [] ==> kept[|kept| - 1] in mem && (o != NULL ==> kept[|kept| - 1] != o)
  {
    if kept != [] {
      assert kept[|kept| - 1] in Elements(kept);
    }
  }

  lemma SweepEnd(mem0: Memory, live: set<Ptr>, mem: Memory, head: Ptr, kept: seq<Ptr>, rest: seq<Ptr>, all: seq<Ptr>)
    requires Swept(mem0, live, mem, head, kept, NULL, rest) && Elements(all) == mem0.Keys && live <= mem0.Keys
    requires kept + Filter(rest, live) == Filter(all, live)
    ensures rest == [] && kept == Filter(all, live) && Segment(mem, head, kept, NULL) && NoDuplicates(kept)
    ensures mem.Keys == Elements(kept) == live
    ensures forall o | o in mem :: o in mem0 && mem[o].body == mem0[o].body && !mem[o].marked
  {
    SweptNow(mem0, live, mem, head, kept, NULL, rest);
    assert kept + [] == kept;
    FilterElements(all, live);
  }

  lemma {:induction false} FilterElements(list: seq<Ptr>, keep: set<Ptr>)
    ensures Elements(Filter(list, keep)) == Elements(list) * keep
    decreases |list|
  {
    if list != [] {
      FilterElements(list[1..], keep);
      assert list == [list[0]] + list[1..];
      assert Elements(list) == {list[0]} + Elements(list[1..]);
      var rest := Filter(list[1..], keep);
      assert Elements([list[0]] + rest) == {list[0]} + Elements(rest);
    }
  }

  /** Unmarking a marked object and moving on. */
  lemma KeepOne(mem0: Memory, live: set<Ptr>, mem: Memory, head: Ptr, kept: seq<Ptr>, o: Ptr, rest: seq<Ptr>,
                mem': Memory)
    requires Swept(mem0, live, mem, head, kept, o, rest) && rest != []
    requires o in mem && mem[o].marked && mem' == mem[o := mem[o].(marked := false)]
    ensures Swept(mem0, live, mem', head, kept + [o], mem'[o].next, rest[1..])
    ensures Filter(rest, live) == [o] + Filter(rest[1..], live)
  {
    SegmentExtend(mem, head, kept, o);
    SegmentFrame(mem, mem', head, kept + [o], mem[o].next);
    SegmentFrame(mem, mem', mem[o].next, rest[1..], NULL);
    assert rest == [o] + rest[1..];
    assert Elements(kept + [o]) == Elements(kept) + {o};
    assert Elements(rest) == {o} + Elements(rest[1..]);
  }

  lemma FirstOfRest(mem: Memory, o: Ptr, rest: seq<Ptr>, kept: seq<Ptr>)
    requires Segment(mem, o, rest, NULL) && rest != [] && NoDuplicates(rest) && Elements(kept) !! Elements(rest)
    ensures rest[0] == o && o in mem && Segment(mem, mem[o].next, rest[1..], NULL) && NoDuplicates(rest[1..])
    ensures Elements(rest) == {o} + Elements(rest[1..]) && o !in rest[1..] && o !in kept
    ensures o !in Elements(rest[1..]) && o !in Elements(kept) && Elements(kept) !! Elements(rest[1..])
    ensures forall x | x in rest[1..] :: x in rest
  {
    assert rest == [o] + rest[1..];
    assert o in Elements(rest);
  }

  /** Unlinking an unmarked object and freeing it. */
  lemma DropOne(mem0: Memory, live: set<Ptr>, mem: Memory, head: Ptr, kept: seq<Ptr>, o: Ptr, rest: seq<Ptr>,
                mem1: Memory, head': Ptr)
    requires Swept(mem0, live, mem, head, kept, o, rest) && rest != []
    requires o in mem && !mem[o].marked
    requires kept == [] ==> head' == mem[o].next && mem1 == mem
    requires kept != [] ==>
               && head' == head && kept[|kept| - 1] in mem
               && mem1 == mem[kept[|kept| - 1] := mem[kept[|kept| - 1]].(next := mem[o].next)]
    ensures Swept(mem0, live, mem1 - {o}, head', kept, mem[o].next, rest[1..])
    ensures Filter(rest, live) == Filter(rest[1..], live)
  {
    FirstOfRest(mem, o, rest, kept);
    assert Filter(rest, live) == Filter(rest[1..], live);
    hide Filter, NoDuplicates;
    if kept != [] {
      assert kept[|kept| - 1] in Elements(kept);
      SegmentRelink(mem, head, kept, o, mem[o].next);
    }
    SegmentFrame(mem1, mem1 - {o}, head', kept, mem[o].next);
    SegmentFrame(mem, mem1 - {o}, mem[o].next, rest[1..], NULL);
    hide Segment;
    assert mem1.Keys == mem.Keys;
    assert (mem1 - {o}).Keys == mem1.Keys - {o} == Elements(kept) + Elements(rest[1..]);
  }

  /** Between calls: the list is in order, every object has its value, and the roots, nil's among them,
      hold addresses of objects. */
  predicate HeapOk(mem: Memory, head: Ptr, list: seq<Ptr>, count: nat, limit: nat, nil: Ptr, vals: map<Ptr, Val>,
                   vs: seq<Ptr>) {
    && ListOk(mem, head, list, nil)
    && count == |list| <= limit
    && Meaning(mem, vals)
    && (forall v | v in vs :: v in mem) && nil in vs
  }

  lemma CollectionMayStart(mem: Memory, head: Ptr, list: seq<Ptr>, count: nat, limit: nat, nil: Ptr,
                           vals: map<Ptr, Val>, vs: seq<Ptr>)
    requires HeapOk(mem, head, list, count, limit, nil, vals, vs)
    ensures Closed(GraphOf(mem)) && NULL !in mem && Marked(mem) == {} && count == |list|
    ensures forall v | v in vs :: v in mem
    ensures Segment(mem, head, list, NULL) && NoDuplicates(list) && mem.Keys == Elements(list)
    ensures nil in Live(GraphOf(mem), vs) && Live(GraphOf(mem), vs) <= mem.Keys == vals.Keys
  {
    MeaningIsClosed(mem, vals);
    LiveIsClosed(GraphOf(mem), vs);
  }

  lemma SameContentSameGraph(mem: Memory, mem': Memory)
    requires mem.Keys == mem'.Keys && forall o | o in mem :: Content(mem'[o].body) == Content(mem[o].body)
    ensures GraphOf(mem') == GraphOf(mem)
  {
    assert forall b: Body :: Refs(b) == Refs(Content(b));
    assert forall o | o in mem :: GraphOf(mem')[o] == GraphOf(mem)[o];
  }

  lemma MarkingKeepsList(mem: Memory, mem1: Memory, head: Ptr, list: seq<Ptr>)
    requires SameFrame(mem, mem1) && Segment(mem, head, list, NULL) && mem.Keys == Elements(list)
    ensures Segment(mem1, head, list, NULL) && mem1.Keys == Elements(list)
  {
    SegmentFrame(mem, mem1, head, list, NULL);
  }

  lemma GraphKeys(mem: Memory)
    ensures GraphOf(mem).Keys == mem.Keys
  {
  }

  /** From before the collection (mem) to after marking (mem1) to after sweeping (mem2). */
  lemma CollectionIsDone(mem: Memory, head: Ptr, list: seq<Ptr>, count: nat, limit: nat, nil: Ptr, vals: map<Ptr, Val>,
                         vs: seq<Ptr>, mem1: Memory, mem2: Memory, head2: Ptr, list2: seq<Ptr>, live: set<Ptr>)
    requires HeapOk(mem, head, list, count, limit, nil, vals, vs)
    requires GraphOf(mem1) == GraphOf(mem) && SameFrame(mem, mem1) && live == Live(GraphOf(mem), vs)
    requires list2 == Filter(list, live)
    requires Segment(mem2, head2, list2, NULL) && NoDuplicates(list2) && mem2.Keys == Elements(list2) == live
    requires forall o | o in mem2 :: o in mem1 && mem2[o].body == mem1[o].body && !mem2[o].marked
    ensures HeapOk(mem2, head2, list2, |list2|, limit, nil, map o | o in live :: vals[o], vs)
    ensures Survives(mem, vals, mem2, map o | o in live :: vals[o], NULL)
    ensures |list2| == count ==> live == mem.Keys && GraphOf(mem2) == GraphOf(mem)
  {
    hide Meaning, Live, Segment, NoDuplicates, Filter, ClosedUnder, Closed, GraphOf, Elements;
    RootsHaveValues(mem, head, list, count, limit, nil, vals, vs);
    MeaningIsClosed(mem, vals);
    assert GraphOf(mem).Keys == mem.Keys by { GraphKeys(mem); }
    LiveIsClosed(GraphOf(mem), vs);
    SameRefsSameContent(mem, mem1);
    MeaningSurvives(mem, vals, mem2, live);
    FilterLength(list, live);
    if |list2| == count {
      SameContentSameGraph(mem, mem2);
    }
    assert forall o | o in mem2 :: mem2[o].body.NilBody? <==> mem[o].body.NilBody?;
  }

  lemma {:induction false} FilterLength(list: seq<Ptr>, keep: set<Ptr>)
    ensures |Filter(list, keep)| <= |list|
    ensures |Filter(list, keep)| == |list| ==> Elements(list) <= keep
    decreases |list|
  {
    if list != [] {
      FilterLength(list[1..], keep);
      assert list == [list[0]] + list[1..];
    }
  }

  lemma RootsHaveValues(mem: Memory, head: Ptr, list: seq<Ptr>, count: nat, limit: nat, nil: Ptr, vals: map<Ptr, Val>,
                        vs: seq<Ptr>)
    requires HeapOk(mem, head, list, count, limit, nil, vals, vs)
    ensures forall v | v in vs :: v in mem && v in vals
    ensures NULL !in mem && NULL !in vals && nil in mem && mem[nil].body.NilBody? && count <= limit
    ensures mem.Keys == vals.Keys && Survives(mem, vals, mem, vals, NULL)
  {
  }

  /** Registering an object whose references are values of roots. */
  lemma Registered(mem: Memory, head: Ptr, list: seq<Ptr>, count: nat, limit: nat, nil: Ptr, vals: map<Ptr, Val>,
                   vs: seq<Ptr>, o: Ptr, body: Body)
    requires HeapOk(mem, head, list, count, limit, nil, vals, vs) && count < limit
    requires o !in mem && o != NULL && !body.NilBody? && forall c | c in Refs(body) :: c in vs
    ensures forall c | c in Refs(body) :: c in vals
    ensures HeapOk(mem[o := Obj(head, false, body)], o, [o] + list, count + 1, limit, nil,
                   vals[o := ValueOf(body, vals)], vs)
    ensures Survives(mem, vals, mem[o := Obj(head, false, body)], vals[o := ValueOf(body, vals)], o)
  {
    hide ListOk, Meaning, Denotes, ValueOf, Refs;
    RootsHaveValues(mem, head, list, count, limit, nil, vals, vs);
    ListExtends(mem, head, list, nil, o, body);
    assert forall c | c in Refs(body) :: c in mem;
    MeaningExtends(mem, vals, o, Obj(head, false, body));
  }

  /** What a registered object stands for is fixed by what its references stood for before. */
  lemma SurvivesBoth(mem: Memory, vals: map<Ptr, Val>, mem1: Memory, vals1: map<Ptr, Val>, mem2: Memory,
                     vals2: map<Ptr, Val>, o: Ptr, body: Body)
    requires Survives(mem, vals, mem1, vals1, NULL) && Survives(mem1, vals1, mem2, vals2, o)
    requires NULL !in mem1 && NULL !in vals1
    requires (forall c | c in Refs(body) :: c in vals1) && o in vals2 && vals2[o] == ValueOf(body, vals1)
    ensures Survives(mem, vals, mem2, vals2, o) && Denotes(body, vals, vals2[o])
  {
    if body.ConsBody? {
      assert Refs(body)[0] in vals1 && Refs(body)[1] in vals1;
    } else if body.FunctionBody? {
      assert Refs(body)[0] in vals1;
    }
  }

  /** Giving an object that nothing refers to other references. */
  lemma MeaningRelinked(mem: Memory, vals: map<Ptr, Val>, p: Ptr, obj: Obj)
    requires Meaning(mem, vals) && p in mem && (forall x | x in mem :: p !in Refs(mem[x].body))
    requires forall c | c in Refs(obj.body) :: c in mem && c != p
    ensures forall c | c in Refs(obj.body) :: c in vals
    ensures Meaning(mem[p := obj], vals[p := ValueOf(obj.body, vals)])
  {
    var vals' := vals[p := ValueOf(obj.body, vals)];
    forall x | x in mem[p := obj] ensures Denotes(mem[p := obj][x].body, vals', vals'[x]) {
      var b := if x == p then obj.body else mem[x].body;
      assert x != p ==> Denotes(b, vals, vals[x]);
      assert b.ConsBody? ==> b.head == Refs(b)[0] && b.tail == Refs(b)[1];
      assert b.FunctionBody? ==> b.data == Refs(b)[0];
    }
  }

  lemma ListOkRelinked(mem: Memory, head: Ptr, list: seq<Ptr>, nil: Ptr, p: Ptr, b: Body)
    requires ListOk(mem, head, list, nil) && p in mem && mem[p].body.ConsBody? && b.ConsBody?
    ensures ListOk(mem[p := mem[p].(body := b)], head, list, nil)
  {
    SegmentFrame(mem, mem[p := mem[p].(body := b)], head, list, NULL);
  }

  lemma HeapOkRelinked(mem: Memory, head: Ptr, list: seq<Ptr>, count: nat, limit: nat, nil: Ptr, vals: map<Ptr, Val>,
                       vs: seq<Ptr>, p: Ptr, b: Body)
    requires HeapOk(mem, head, list, count, limit, nil, vals, vs)
    requires p in mem && mem[p].body.ConsBody? && b.ConsBody? && (forall x | x in mem :: p !in Refs(mem[x].body))
    requires forall c | c in Refs(b) :: c in mem && c != p
    ensures forall c | c in Refs(b) :: c in vals
    ensures HeapOk(mem[p := mem[p].(body := b)], head, list, count, limit, nil, vals[p := ValueOf(b, vals)], vs)
  {
    hide ListOk, Meaning, ValueOf;
    RootsHaveValues(mem, head, list, count, limit, nil, vals, vs);
    ListOkRelinked(mem, head, list, nil, p, b);
    MeaningRelinked(mem, vals, p, mem[p].(body := b));
  }
}
