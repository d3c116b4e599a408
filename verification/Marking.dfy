/** The theory of pointer-reversal marking (function 'mark' of gcl.c): what holds between any two of its
    steps, and why each step keeps it. */
module Marking {
  import opened Basics
  import opened Objects

  /** While an object is being visited its i-th reference holds the object through which it was entered. */
  predicate Visiting(b: Body, cs: seq<Ptr>, i: nat, parent: Ptr) {
    && i < |cs|
    && Refs(b) == cs[i := parent]
    && (b.ConsBody? ==> b.tailIsNext == (i == 0))
  }

  /** The objects that have been entered and not yet left, innermost first, each with the index of the
      reference that is being visited. The program keeps this stack only in the reversed references. */
  datatype Stack = Bottom | Above(obj: Ptr, i: nat, rest: Stack) {
    function Top(): Ptr {
      if Bottom? then NULL else obj
    }

    function Busy(): set<Ptr> {
      if Bottom? then {} else {obj} + rest.Busy()
    }

    function Depth(): nat {
      if Bottom? then 0 else 1 + rest.Depth()
    }
  }

  datatype Label = Start | Next

  /** The memory, the local variables 'object' and 'parent' of 'mark', and the label it is at. */
  datatype State = State(mem: Memory, obj: Ptr, parent: Ptr, pc: Label)

  /** The reversed references form a chain from the innermost busy object down to null, what they used
      to hold leads from the root to 'current', and the references already visited are marked. */
  predicate Chain(g: Graph, mem: Memory, stk: Stack, current: Ptr, root: Ptr) {
    match stk
    case Bottom => current == root
    case Above(o, i, rest) =>
      && o in g && o in mem && mem[o].marked && o !in rest.Busy()
      && Visiting(mem[o].body, g[o], i, rest.Top())
      && g[o][i] == current
      && (forall j | 0 <= j < i :: g[o][j] in Marked(mem))
      && Chain(g, mem, rest, o, root)
  }

  /** Everything that is not busy has its own references, and an object that has been left has all its
      references marked. */
  predicate Settled(g: Graph, m0: set<Ptr>, mem: Memory, busy: set<Ptr>)
    requires mem.Keys == g.Keys
  {
    && (forall o | o in g && o !in busy :: Refs(mem[o].body) == g[o])
    && (forall o, i | o in Marked(mem) - m0 && o !in busy && 0 <= i < |g[o]| :: g[o][i] in Marked(mem))
  }

  ghost predicate Invariant(g: Graph, m0: set<Ptr>, root: Ptr, stk: Stack, s: State) {
    && Closed(g) && NULL !in g && s.mem.Keys == g.Keys
    && s.obj in g && s.parent == stk.Top() && (s.pc == Next ==> s.mem[s.obj].marked)
    && Chain(g, s.mem, stk, s.obj, root)
    && Settled(g, m0, s.mem, stk.Busy())
    && m0 <= Marked(s.mem) && stk.Busy() <= Marked(s.mem) - m0
    && (forall o | o in Marked(s.mem) - m0 :: Reaches(g, m0, root, o))
  }

  lemma {:induction false} ChainFrame(g: Graph, mem: Memory, mem': Memory, stk: Stack, current: Ptr, root: Ptr)
    requires Chain(g, mem, stk, current, root) && mem.Keys == mem'.Keys
    requires Marked(mem) <= Marked(mem')
    requires forall o | o in stk.Busy() && o in mem :: mem'[o] == mem[o]
    ensures Chain(g, mem', stk, current, root)
  {
    match stk
    case Bottom =>
    case Above(o, i, rest) => ChainFrame(g, mem, mem', rest, o, root);
  }

  /** What the next step may rely on. */
  lemma Ready(g: Graph, m0: set<Ptr>, root: Ptr, stk: Stack, s: State)
    requires Invariant(g, m0, root, stk, s)
    ensures s.mem.Keys == g.Keys && s.obj in g && (s.pc == Next ==> s.mem[s.obj].marked)
    ensures !s.mem[s.obj].marked ==> Refs(s.mem[s.obj].body) == g[s.obj]
    ensures s.parent != NULL ==>
              && stk.Above? && s.parent == stk.obj && s.parent in g
              && Visiting(s.mem[s.parent].body, g[s.parent], stk.i, stk.rest.Top())
              && g[s.parent][stk.i] == s.obj
    ensures s.parent == stk.Top()
  {
  }

  /** How much is left to visit in the innermost busy object. */
  function ToVisit(g: Graph, stk: Stack): nat {
    if stk.Above? && stk.obj in g && stk.i < |g[stk.obj]| then |g[stk.obj]| - stk.i else 0
  }

  function Unmarked(g: Graph, s: State): nat {
    |g.Keys - Marked(s.mem)|
  }

  /** Every step marks an object, leaves one, goes on to the next reference of one, or turns back. */
  predicate Progress(g: Graph, stk: Stack, s: State, stk': Stack, s': State) {
    var (u, u') := (Unmarked(g, s), Unmarked(g, s'));
    var (d, d') := (stk.Depth(), stk'.Depth());
    var (v, v') := (ToVisit(g, stk), ToVisit(g, stk'));
    || u' < u
    || (u' == u && d' < d)
    || (u' == u && d' == d && v' < v)
    || (u' == u && d' == d && v' == v && s.pc == Start && s'.pc == Next)
  }

  /** Before the first step. */
  lemma Begin(mem: Memory, root: Ptr)
    requires Closed(GraphOf(mem)) && NULL !in mem && root in mem
    ensures Invariant(GraphOf(mem), Marked(mem), root, Bottom, State(mem, root, NULL, Start))
  {
  }

  /** Turning back at a marked object. */
  lemma TurnBack(g: Graph, m0: set<Ptr>, root: Ptr, stk: Stack, s: State)
    requires Invariant(g, m0, root, stk, s) && s.mem[s.obj].marked && s.pc == Start
    ensures Invariant(g, m0, root, stk, s.(pc := Next)) && Progress(g, stk, s, stk, s.(pc := Next))
  {
  }

  /** Marking an object without references. */
  lemma EnterLeaf(g: Graph, m0: set<Ptr>, root: Ptr, stk: Stack, s: State, s': State)
    requires Invariant(g, m0, root, stk, s) && !s.mem[s.obj].marked && g[s.obj] == []
    requires s' == State(s.mem[s.obj := s.mem[s.obj].(marked := true)], s.obj, s.parent, Next)
    ensures Invariant(g, m0, root, stk, s')
  {
    FirstVisit(g, m0, root, stk, s);
    assert Marked(s'.mem) == Marked(s.mem) + {s.obj};
    ChainFrame(g, s.mem, s'.mem, stk, s.obj, root);
  }

  /** Marking an object with references and going to the first of them. */
  lemma Enter(g: Graph, m0: set<Ptr>, root: Ptr, stk: Stack, s: State, b: Body, s': State)
    requires Invariant(g, m0, root, stk, s) && !s.mem[s.obj].marked
    requires Visiting(b, g[s.obj], 0, s.parent)
    requires s' == State(s.mem[s.obj := s.mem[s.obj].(marked := true, body := b)], g[s.obj][0], s.obj, Start)
    ensures Invariant(g, m0, root, Above(s.obj, 0, stk), s')
  {
    FirstVisit(g, m0, root, stk, s);
    assert Marked(s'.mem) == Marked(s.mem) + {s.obj};
    ChainFrame(g, s.mem, s'.mem, stk, s.obj, root);
  }

  lemma FirstVisit(g: Graph, m0: set<Ptr>, root: Ptr, stk: Stack, s: State)
    requires Invariant(g, m0, root, stk, s) && !s.mem[s.obj].marked
    ensures Reaches(g, m0, root, s.obj)
  {
    if stk.Bottom? {
      ReachesSelf(g, m0, s.obj);
    } else {
      ReachesStep(g, m0, root, stk.obj, s.obj);
    }
  }

  /** Going on to the next reference of the innermost busy object. */
  lemma Swing(g: Graph, m0: set<Ptr>, root: Ptr, stk: Stack, s: State, b: Body, s': State)
    requires Invariant(g, m0, root, stk, s) && s.pc == Next && s.parent != NULL
    requires stk.i + 1 < |g[s.parent]| && Visiting(b, g[s.parent], stk.i + 1, stk.rest.Top())
    requires s' == State(s.mem[s.parent := s.mem[s.parent].(body := b)], g[s.parent][stk.i + 1], s.parent, Start)
    ensures Invariant(g, m0, root, stk.(i := stk.i + 1), s')
  {
    hide Reaches;
    assert Marked(s'.mem) == Marked(s.mem);
    ChainFrame(g, s.mem, s'.mem, stk.rest, stk.obj, root);
    assert Chain(g, s'.mem, stk.(i := stk.i + 1), s'.obj, root);
  }

  /** Leaving the innermost busy object. */
  lemma Leave(g: Graph, m0: set<Ptr>, root: Ptr, stk: Stack, s: State, b: Body, s': State)
    requires Invariant(g, m0, root, stk, s) && s.pc == Next && s.parent != NULL
    requires stk.i + 1 == |g[s.parent]| && Refs(b) == g[s.parent]
    requires s' == State(s.mem[s.parent := s.mem[s.parent].(body := b)], s.parent, stk.rest.Top(), Next)
    ensures Invariant(g, m0, root, stk.rest, s')
  {
    assert Marked(s'.mem) == Marked(s.mem);
    ChainFrame(g, s.mem, s'.mem, stk.rest, stk.obj, root);
  }

  lemma EnterProgress(g: Graph, stk: Stack, s: State, stk': Stack, s': State)
    requires s.mem.Keys == g.Keys && s.obj in s.mem && !s.mem[s.obj].marked
    requires exists b :: s'.mem == s.mem[s.obj := s.mem[s.obj].(marked := true, body := b)]
    ensures Progress(g, stk, s, stk', s')
  {
    assert g.Keys - Marked(s'.mem) == (g.Keys - Marked(s.mem)) - {s.obj};
  }

  lemma NextProgress(g: Graph, stk: Stack, s: State, stk': Stack, s': State)
    requires s.mem.Keys == g.Keys && stk.Above? && stk.obj in g
    requires exists b :: s'.mem == s.mem[stk.obj := s.mem[stk.obj].(body := b)]
    requires stk' == stk.rest || (stk' == stk.(i := stk.i + 1) && stk.i < |g[stk.obj]|)
    ensures Progress(g, stk, s, stk', s')
  {
    assert Marked(s'.mem) == Marked(s.mem);
  }

  /** When the program stops, everything is back in place and the marks are exact. */
  lemma Finished(g: Graph, m0: set<Ptr>, root: Ptr, stk: Stack, s: State)
    requires Invariant(g, m0, root, stk, s) && s.pc == Next && s.parent == NULL
    requires root in g
    ensures GraphOf(s.mem) == g
    ensures Marked(s.mem) == m0 + Reach(g, m0, root)
  {
    MarkingIsDetermined(g, m0, root, Marked(s.mem));
  }
}
