/** The theory of reference counting (rcl.c): what the counts of the published objects say, and why every
    operation on references keeps it. */
module Counting {
  import opened Basics
  import opened Values
  import opened Objects

  /** An object of rcl.c: its reference count and its body. A cons of rcl.c has no field tail_is_next; that
      component of the body is always false. */
  datatype Cell = Cell(refCount: int, body: Body)

  type Cells = map<Ptr, Cell>

  type Bodies = map<Ptr, Body>

  function BodiesOf(mem: Cells, published: set<Ptr>): Bodies {
    map o | o in published && o in mem :: mem[o].body
  }

  function ReferenceGraph(bodies: Bodies): Graph {
    map o | o in bodies :: Refs(bodies[o])
  }

  /** All references that the objects keep, each as often as it occurs. */
  ghost function References(bodies: Bodies): multiset<Ptr>
    decreases bodies.Keys
  {
    if bodies == map[] then multiset{}
    else
      var o :| o in bodies;
      multiset(Refs(bodies[o])) + References(bodies - {o})
  }

  lemma EitherFirst(a: multiset<Ptr>, b: multiset<Ptr>, rest: multiset<Ptr>)
    ensures a + (b + rest) == b + (a + rest)
  {
  }

  /** The sum does not depend on the order in which the objects are taken. */
  lemma {:induction false} ReferencesOf(bodies: Bodies, o: Ptr)
    requires o in bodies
    ensures References(bodies) == multiset(Refs(bodies[o])) + References(bodies - {o})
    decreases bodies.Keys
  {
    var c :| c in bodies && References(bodies) == multiset(Refs(bodies[c])) + References(bodies - {c});
    if c != o {
      hide References, Refs;
      ReferencesOf(bodies - {c}, o);
      ReferencesOf(bodies - {o}, c);
      assert bodies - {c} - {o} == bodies - {o} - {c};
      EitherFirst(multiset(Refs(bodies[c])), multiset(Refs(bodies[o])), References(bodies - {c} - {o}));
    }
  }

  lemma {:induction false} Referrer(bodies: Bodies, o: Ptr) returns (p: Ptr)
    requires o in References(bodies)
    ensures p in bodies && o in Refs(bodies[p])
    decreases bodies.Keys
  {
    p :| p in bodies;
    ReferencesOf(bodies, p);
    if o !in Refs(bodies[p]) {
      p := Referrer(bodies - {p}, o);
    }
  }

  /** Every published object has its value, and only 'nil' is the nil object. */
  predicate Understood(bodies: Bodies, vals: map<Ptr, Val>, nil: Ptr) {
    && bodies.Keys == vals.Keys
    && (forall o | o in bodies :: Denotes(bodies[o], vals, vals[o]) && (bodies[o].NilBody? <==> o == nil))
  }

  /** Between operations: the count of a published object is the number of references to it that are kept by
      published objects or held by the program, and there is at least one. */
  ghost predicate Conserved(mem: Cells, published: set<Ptr>, vals: map<Ptr, Val>, nil: Ptr, held: multiset<Ptr>) {
    && published <= mem.Keys && NULL !in mem && nil in held
    && Understood(BodiesOf(mem, published), vals, nil)
    && (forall o | o in held :: o in published)
    && (forall o | o in published ::
          mem[o].refCount == References(BodiesOf(mem, published))[o] + held[o] && mem[o].refCount >= 1)
  }

  lemma BodiesOfPublished(mem: Cells, published: set<Ptr>)
    requires published <= mem.Keys
    ensures BodiesOf(mem, published).Keys == published
    ensures forall o | o in published :: BodiesOf(mem, published)[o] == mem[o].body
  {
  }

  function Size(v: Val): nat {
    match v
    case Cons(head, tail) => 1 + Size(head) + Size(tail)
    case Func(_, data) => 1 + Size(data)
    case _ => 0
  }

  function Larger(vals: map<Ptr, Val>, n: nat): set<Ptr> {
    set x | x in vals && Size(vals[x]) > n
  }

  lemma LargerShrinks(vals: map<Ptr, Val>, p: Ptr, n: nat)
    requires p in vals && Size(vals[p]) > n
    ensures Larger(vals, Size(vals[p])) < Larger(vals, n)
  {
    assert p in Larger(vals, n) && p !in Larger(vals, Size(vals[p]));
  }

  /** A value is larger than the values of its references: the published objects form no cycle. */
  lemma ReferrerIsLarger(bodies: Bodies, vals: map<Ptr, Val>, nil: Ptr, p: Ptr, o: Ptr)
    requires Understood(bodies, vals, nil) && p in bodies && o in Refs(bodies[p])
    ensures o in bodies && Size(vals[p]) > Size(vals[o])
  {
    assert Denotes(bodies[p], vals, vals[p]);
  }

  /** Nothing is kept in vain: what is published is reached from a reference that the program holds. */
  lemma {:induction false} NoGarbage(mem: Cells, published: set<Ptr>, vals: map<Ptr, Val>, nil: Ptr,
                                     held: multiset<Ptr>, o: Ptr) returns (h: Ptr)
    requires Conserved(mem, published, vals, nil, held) && o in published
    ensures h in held && Reaches(ReferenceGraph(BodiesOf(mem, published)), {}, h, o)
    decreases Larger(vals, Size(vals[o]))
  {
    hide Size, Denotes, Reaches, Larger, References;
    var bodies := BodiesOf(mem, published);
    BodiesOfPublished(mem, published);
    var g := ReferenceGraph(bodies);
    if o in held {
      ReachesSelf(g, {}, o);
      return o;
    }
    var p := Referrer(bodies, o);
    ReferrerIsLarger(bodies, vals, nil, p, o);
    LargerShrinks(vals, p, Size(vals[o]));
    h := NoGarbage(mem, published, vals, nil, held, p);
    ReachesStep(g, {}, h, p, o);
  }

  /** Nothing that is reached has been freed. */
  lemma {:induction false} NothingDangles(mem: Cells, published: set<Ptr>, vals: map<Ptr, Val>, nil: Ptr,
                                          held: multiset<Ptr>, p: seq<Ptr>)
    requires Conserved(mem, published, vals, nil, held)
    requires p != [] && p[0] in held
    requires forall i | 0 <= i < |p| - 1 :: p[i] in mem && p[i + 1] in Refs(mem[p[i]].body)
    ensures p[|p| - 1] in published && mem[p[|p| - 1]].refCount >= 1
    decreases |p|
  {
    if |p| > 1 {
      var q := p[..|p| - 1];
      NothingDangles(mem, published, vals, nil, held, q);
      var o := q[|q| - 1];
      assert o == p[|p| - 2] && p[|p| - 2 + 1] in Refs(mem[o].body);
      BodiesOfPublished(mem, published);
      ReferrerIsLarger(BodiesOf(mem, published), vals, nil, o, p[|p| - 1]);
    }
  }

  lemma OnlyNilIsNil(mem: Cells, published: set<Ptr>, vals: map<Ptr, Val>, nil: Ptr, held: multiset<Ptr>, o: Ptr)
    requires Conserved(mem, published, vals, nil, held) && o in held
    ensures o in published && o in mem && mem[o].refCount >= 1 && (mem[o].body.NilBody? <==> o == nil)
  {
    assert BodiesOf(mem, published)[o] == mem[o].body;
  }

  lemma RefAdded(mem: Cells, published: set<Ptr>, vals: map<Ptr, Val>, nil: Ptr, held: multiset<Ptr>, o: Ptr)
    requires Conserved(mem, published, vals, nil, held) && o in published
    ensures Conserved(mem[o := mem[o].(refCount := mem[o].refCount + 1)], published, vals, nil, held + multiset{o})
  {
    hide Understood, References;
    var mem' := mem[o := mem[o].(refCount := mem[o].refCount + 1)];
    assert BodiesOf(mem', published) == BodiesOf(mem, published);
  }

  /** A reference is given up, but not the last one. */
  lemma RefDropped(mem: Cells, published: set<Ptr>, vals: map<Ptr, Val>, nil: Ptr, held: multiset<Ptr>, o: Ptr)
    requires Conserved(mem, published, vals, nil, held) && o in held && nil in held - multiset{o}
    requires mem[o].refCount > 1
    ensures Conserved(mem[o := mem[o].(refCount := mem[o].refCount - 1)], published, vals, nil, held - multiset{o})
  {
    hide Understood, References;
    var mem' := mem[o := mem[o].(refCount := mem[o].refCount - 1)];
    assert BodiesOf(mem', published) == BodiesOf(mem, published);
  }

  /** An object that nothing refers to may go. */
  lemma UnderstoodWithout(bodies: Bodies, vals: map<Ptr, Val>, nil: Ptr, o: Ptr)
    requires Understood(bodies, vals, nil) && o in bodies && o !in References(bodies)
    ensures Understood(bodies - {o}, vals - {o}, nil)
    ensures forall c | c in Refs(bodies[o]) :: c in bodies && c != o
  {
    forall x | x in bodies
      ensures o !in Refs(bodies[x]) && Denotes(bodies[x], vals - {o}, vals[x])
      ensures forall c | c in Refs(bodies[x]) :: c in bodies
    {
      ReferencesOf(bodies, x);
      assert Denotes(bodies[x], vals, vals[x]);
      var b := bodies[x];
      assert b.ConsBody? ==> b.head in Refs(b) && b.tail in Refs(b);
      assert b.FunctionBody? ==> b.data in Refs(b);
    }
  }

  /** The last reference is given up: the references that the object keeps pass to the program. */
  lemma LastRefDropped(mem: Cells, published: set<Ptr>, vals: map<Ptr, Val>, nil: Ptr, held: multiset<Ptr>, o: Ptr)
    requires Conserved(mem, published, vals, nil, held) && o in held && nil in held - multiset{o}
    requires mem[o].refCount == 1
    ensures o != nil
    ensures Conserved(mem[o := mem[o].(refCount := 0)], published - {o}, vals - {o}, nil,
                      held - multiset{o} + multiset(Refs(mem[o].body)))
  {
    hide Understood, References, Refs;
    var mem', published' := mem[o := mem[o].(refCount := 0)], published - {o};
    var bodies := BodiesOf(mem, published);
    BodiesOfPublished(mem, published);
    ReferencesOf(bodies, o);
    assert BodiesOf(mem', published') == bodies - {o};
    UnderstoodWithout(bodies, vals, nil, o);
  }

  /** A new object that keeps references to published ones. */
  lemma UnderstoodWith(bodies: Bodies, vals: map<Ptr, Val>, nil: Ptr, o: Ptr, b: Body)
    requires Understood(bodies, vals, nil) && o !in bodies && !b.NilBody? && o != nil
    requires forall c | c in Refs(b) :: c in bodies
    ensures forall c | c in Refs(b) :: c in vals
    ensures Understood(bodies[o := b], vals[o := ValueOf(b, vals)], nil)
    ensures o !in References(bodies)
  {
    var vals' := vals[o := ValueOf(b, vals)];
    forall x | x in bodies[o := b] ensures Denotes(bodies[o := b][x], vals', vals'[x]) {
      if x != o {
        assert Denotes(bodies[x], vals, vals[x]);
      } else {
        assert Denotes(b, vals, vals'[o]);
      }
    }
    if o in References(bodies) {
      var p := Referrer(bodies, o);
      ReferrerIsLarger(bodies, vals, nil, p, o);
    }
  }

  /** A finished object takes over the references that it keeps; the program gets the one to it. */
  lemma ObjectPublished(mem: Cells, published: set<Ptr>, vals: map<Ptr, Val>, nil: Ptr, held: multiset<Ptr>, o: Ptr)
    requires Conserved(mem, published, vals, nil, held) && o in mem && o !in published
    requires mem[o].refCount == 1 && !mem[o].body.NilBody?
    requires multiset(Refs(mem[o].body)) <= held && nil in held - multiset(Refs(mem[o].body))
    ensures forall c | c in Refs(mem[o].body) :: c in vals
    ensures Conserved(mem, published + {o}, vals[o := ValueOf(mem[o].body, vals)], nil,
                      held - multiset(Refs(mem[o].body)) + multiset{o})
  {
    hide Understood, References, Refs, ValueOf;
    var b, published' := mem[o].body, published + {o};
    var before, bodies := BodiesOf(mem, published), BodiesOf(mem, published');
    BodiesOfPublished(mem, published);
    assert forall c | c in Refs(b) :: c in multiset(Refs(b));
    assert bodies == before[o := b] && bodies - {o} == before;
    UnderstoodWith(before, vals, nil, o, b);
    ReferencesOf(bodies, o);
  }

  /** What is not published may be changed or freed. */
  lemma UnpublishedChanged(mem: Cells, mem': Cells, published: set<Ptr>, vals: map<Ptr, Val>, nil: Ptr,
                           held: multiset<Ptr>)
    requires Conserved(mem, published, vals, nil, held) && NULL !in mem'
    requires forall o | o in published :: o in mem' && mem'[o] == mem[o]
    ensures Conserved(mem', published, vals, nil, held)
  {
    assert BodiesOf(mem', published) == BodiesOf(mem, published);
  }

  /** How deep the structure of a value is. */
  function Height(v: Val): nat {
    match v
    case Cons(head, tail) => 1 + if Height(head) > Height(tail) then Height(head) else Height(tail)
    case Func(_, data) => 1 + Height(data)
    case _ => 0
  }

  /** A way down from object to object on which each object but the last has a single reference. */
  predicate LonePath(mem: Cells, p: seq<Ptr>) {
    && p != []
    && (|p| > 1 ==>
          p[0] in mem && mem[p[0]].refCount == 1 && p[1] in Refs(mem[p[0]].body) && LonePath(mem, p[1..]))
  }

  /** No such way from one of the objects 'from' is longer than 'depth'. */
  ghost predicate Covers(depth: nat, mem: Cells, from: seq<Ptr>) {
    forall p | LonePath(mem, p) && p[0] in from :: |p| <= depth
  }

  /** What is still published has kept its body and gained no reference. */
  predicate Fewer(mem: Cells, mem': Cells, published: set<Ptr>) {
    forall x | x in published ::
      x in mem && x in mem' && mem'[x].body == mem[x].body && mem'[x].refCount <= mem[x].refCount
  }

  lemma LonePathKept(mem: Cells, mem': Cells, p: seq<Ptr>)
    requires LonePath(mem, p) && forall x | x in mem :: x in mem' && mem'[x] == mem[x]
    ensures LonePath(mem', p)
  {
    if |p| > 1 {
      LonePathKept(mem, mem', p[1..]);
    }
  }

  /** Releasing something else does not break a way down from an object that is still there. */
  lemma {:induction false} LonePathSurvives(mem: Cells, mem': Cells, published: set<Ptr>, vals: map<Ptr, Val>, nil: Ptr,
                                            held: multiset<Ptr>, p: seq<Ptr>)
    requires LonePath(mem, p) && p[0] in published && Fewer(mem, mem', published)
    requires Conserved(mem', published, vals, nil, held)
    ensures LonePath(mem', p)
  {
    hide References;
    if |p| > 1 {
      BodiesOfPublished(mem', published);
      ReferrerIsLarger(BodiesOf(mem', published), vals, nil, p[0], p[1]);
      LonePathSurvives(mem, mem', published, vals, nil, held, p[1..]);
    }
  }

  /** A way down from a smaller object does not come by. */
  lemma {:induction false} LonePathBelow(mem: Cells, published: set<Ptr>, vals: map<Ptr, Val>, nil: Ptr,
                                         held: multiset<Ptr>, o: Ptr, n: int, p: seq<Ptr>)
    requires Conserved(mem, published, vals, nil, held) && o in published
    requires LonePath(mem, p) && p[0] in published && Size(vals[p[0]]) < Size(vals[o])
    ensures LonePath(mem[o := mem[o].(refCount := n)], p)
  {
    hide References, Size;
    if |p| > 1 {
      BodiesOfPublished(mem, published);
      ReferrerIsLarger(BodiesOf(mem, published), vals, nil, p[0], p[1]);
      LonePathBelow(mem, published, vals, nil, held, o, n, p[1..]);
    }
  }

  /** What lies below an object with a single reference, and the object. */
  lemma OneMoreLevel(mem: Cells, published: set<Ptr>, vals: map<Ptr, Val>, nil: Ptr, held: multiset<Ptr>, o: Ptr,
                     depth: nat)
    requires Conserved(mem, published, vals, nil, held) && o in published
    requires mem[o].refCount == 1 ==> Covers(depth, mem[o := mem[o].(refCount := 0)], Refs(mem[o].body))
    ensures Covers(1 + depth, mem, [o])
  {
    hide References, Size;
    forall p | LonePath(mem, p) && p[0] in [o] ensures |p| <= 1 + depth {
      if |p| > 1 {
        var q := p[1..];
        BodiesOfPublished(mem, published);
        ReferrerIsLarger(BodiesOf(mem, published), vals, nil, o, q[0]);
        LonePathBelow(mem, published, vals, nil, held, o, 0, q);
        assert |q| <= depth;
      }
    }
  }

  /** Two references that are given up one after the other. */
  lemma BothSides(mem: Cells, mem': Cells, published: set<Ptr>, vals: map<Ptr, Val>, nil: Ptr, held: multiset<Ptr>,
                  a: Ptr, b: Ptr, m: nat, n: nat, depth: nat)
    requires Conserved(mem', published, vals, nil, held) && Fewer(mem, mem', published) && b in published
    requires Covers(m, mem, [a]) && Covers(n, mem', [b]) && m <= depth && n <= depth
    ensures Covers(depth, mem, [a, b])
  {
    hide Conserved, Fewer;
    forall p | LonePath(mem, p) && p[0] in [a, b] ensures |p| <= depth {
      if p[0] == b {
        LonePathSurvives(mem, mem', published, vals, nil, held, p);
        assert p[0] in [b];
      } else {
        assert p[0] in [a];
      }
    }
  }
}
