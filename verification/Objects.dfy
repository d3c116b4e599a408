/** The memory of the garbage-collected interpreter (gcl.c): objects at addresses, and the graph that
    their references form. */
module Objects {
  import opened Basics
  import opened Values

  /** What an object holds besides its header; the constructor stands for the class pointer. */
  datatype Body =
    | NilBody
    | ConsBody(tailIsNext: bool, head: Ptr, tail: Ptr)
    | AtomBody(chars: string)
    | FunctionBody(code: Code, data: Ptr)

  /** An object: the header (link of the heap list, mark) and the body. */
  datatype Obj = Obj(next: Ptr, marked: bool, body: Body)

  type Memory = map<Ptr, Obj>

  /** The references that an object keeps, in the order in which they are visited. */
  function Refs(b: Body): seq<Ptr> {
    match b
    case ConsBody(_, head, tail) => [head, tail]
    case FunctionBody(_, data) => [data]
    case NilBody => []
    case AtomBody(_) => []
  }

  /** The value that a body stands for, given what the objects it refers to stand for. */
  predicate Denotes(b: Body, vals: map<Ptr, Val>, v: Val) {
    match b
    case NilBody => v == Nil
    case AtomBody(chars) => v == Atom(chars)
    case ConsBody(_, head, tail) => head in vals && tail in vals && v == Cons(vals[head], vals[tail])
    case FunctionBody(code, data) => data in vals && v == Func(code, vals[data])
  }

  function ValueOf(b: Body, vals: map<Ptr, Val>): (v: Val)
    requires forall c | c in Refs(b) :: c in vals
    ensures Denotes(b, vals, v)
  {
    match b
    case NilBody => Nil
    case AtomBody(chars) => Atom(chars)
    case ConsBody(_, head, tail) =>
      assert head == Refs(b)[0] && tail == Refs(b)[1];
      Cons(vals[head], vals[tail])
    case FunctionBody(code, data) =>
      assert data == Refs(b)[0];
      Func(code, vals[data])
  }

  /** Every object with its references. */
  type Graph = map<Ptr, seq<Ptr>>

  function GraphOf(mem: Memory): Graph {
    map o | o in mem :: Refs(mem[o].body)
  }

  function Marked(mem: Memory): set<Ptr> {
    set o | o in mem && mem[o].marked
  }

  predicate Closed(g: Graph) {
    forall o, i | o in g && 0 <= i < |g[o]| :: g[o][i] in g
  }

  /** A path that follows references and never touches 'avoid'. */
  predicate IsPath(g: Graph, avoid: set<Ptr>, p: seq<Ptr>) {
    && (forall i | 0 <= i < |p| :: p[i] in g && p[i] !in avoid)
    && (forall i | 0 <= i < |p| - 1 :: p[i + 1] in g[p[i]])
  }

  ghost predicate Reaches(g: Graph, avoid: set<Ptr>, a: Ptr, b: Ptr) {
    exists p :: IsPath(g, avoid, p) && p != [] && p[0] == a && p[|p| - 1] == b
  }

  /** The objects reached from 'root' through objects outside 'avoid'. */
  ghost function Reach(g: Graph, avoid: set<Ptr>, root: Ptr): set<Ptr> {
    set o | o in g && Reaches(g, avoid, root, o)
  }

  predicate ClosedUnder(g: Graph, s: set<Ptr>) {
    forall o, i | o in s && o in g && 0 <= i < |g[o]| :: g[o][i] in s
  }

  lemma ReachesSelf(g: Graph, avoid: set<Ptr>, a: Ptr)
    requires a in g && a !in avoid
    ensures Reaches(g, avoid, a, a)
  {
    assert IsPath(g, avoid, [a]);
  }

  lemma ReachesStep(g: Graph, avoid: set<Ptr>, a: Ptr, b: Ptr, c: Ptr)
    requires Reaches(g, avoid, a, b)
    requires b in g && c in g[b] && c in g && c !in avoid
    ensures Reaches(g, avoid, a, c)
  {
    var p :| IsPath(g, avoid, p) && p != [] && p[0] == a && p[|p| - 1] == b;
    var q := p + [c];
    assert IsPath(g, avoid, q);
    assert q[0] == a && q[|q| - 1] == c;
  }

  lemma {:induction false} PathStaysIn(g: Graph, avoid: set<Ptr>, p: seq<Ptr>, m: set<Ptr>)
    requires IsPath(g, avoid, p) && p != [] && p[0] in m
    requires forall o, i | o in m && o in g && o !in avoid && 0 <= i < |g[o]| :: g[o][i] in m
    ensures p[|p| - 1] in m
    decreases |p|
  {
    if |p| > 1 {
      assert p[1] in g[p[0]];
      PathStaysIn(g, avoid, p[1..], m);
    }
  }

  /** A set that contains the root, grew only by objects reached around the old set, and contains the
      references of everything it grew by, is determined. This is how both markers are shown exact. */
  lemma MarkingIsDetermined(g: Graph, m0: set<Ptr>, root: Ptr, m: set<Ptr>)
    requires m0 <= m && root in m && root in g && m <= g.Keys
    requires forall o | o in m - m0 :: Reaches(g, m0, root, o)
    requires forall o, i | o in m - m0 && 0 <= i < |g[o]| :: g[o][i] in m
    ensures m == m0 + Reach(g, m0, root)
  {
    forall o | o in Reach(g, m0, root) ensures o in m {
      var p :| IsPath(g, m0, p) && p != [] && p[0] == root && p[|p| - 1] == o;
      PathStaysIn(g, m0, p, m);
    }
  }

  /** When the old set is closed under references, going around it makes no difference. */
  lemma AvoidingClosedSet(g: Graph, m0: set<Ptr>, root: Ptr)
    requires Closed(g) && ClosedUnder(g, m0) && root in g && m0 <= g.Keys
    ensures m0 + Reach(g, m0, root) == m0 + Reach(g, {}, root)
    ensures ClosedUnder(g, m0 + Reach(g, {}, root))
  {
    var m := m0 + Reach(g, m0, root);
    forall o, i | o in m && o in g && 0 <= i < |g[o]| ensures g[o][i] in m {
      if o !in m0 && g[o][i] !in m0 {
        ReachesStep(g, m0, root, o, g[o][i]);
      }
    }
    if root !in m0 {
      ReachesSelf(g, m0, root);
    }
    forall o | o in Reach(g, {}, root) ensures o in m {
      var p :| IsPath(g, {}, p) && p != [] && p[0] == root && p[|p| - 1] == o;
      PathStaysIn(g, {}, p, m);
    }
    forall o | o in Reach(g, m0, root) ensures o in Reach(g, {}, root) {
      var p :| IsPath(g, m0, p) && p != [] && p[0] == root && p[|p| - 1] == o;
      assert IsPath(g, {}, p);
    }
  }

  /** Some address that is not in use, as 'malloc' returns it; addresses of freed objects may come back. */
  method Malloc<T>(mem: map<Ptr, T>) returns (o: Ptr)
    ensures o !in mem && o != NULL
  {
    o := 1;
    while o in mem
      invariant o != NULL
      decreases set x | x in mem && x >= o
    {
      ghost var before := set x | x in mem && x >= o;
      o := o + 1;
      assert (set x | x in mem && x >= o) == before - {o - 1};
    }
  }
}
