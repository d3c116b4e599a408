/** The collector of gcl0.c marks by recursion over the C stack. It has the same contract as the
    pointer-reversing marker of gcl.c, so from any initial marking the two mark the same objects. */
module RecursiveMarking {
  import opened Basics
  import opened Objects

  /** Around 'm', what is reached from 'c' together with 'm' contains its own references. */
  lemma ReachIsClosed(g: Graph, m: set<Ptr>, c: Ptr)
    requires Closed(g) && c in g
    ensures c in m + Reach(g, m, c)
    ensures forall x, i | x in Reach(g, m, c) && 0 <= i < |g[x]| :: g[x][i] in m + Reach(g, m, c)
  {
    if c !in m {
      ReachesSelf(g, m, c);
    }
    forall x, i | x in Reach(g, m, c) && 0 <= i < |g[x]| ensures g[x][i] in m + Reach(g, m, c) {
      if g[x][i] !in m {
        ReachesStep(g, m, c, x, g[x][i]);
      }
    }
  }

  /** A path from a reference of 'o' that avoids more extends to a path from 'o' that avoids less. */
  lemma ReachesThrough(g: Graph, m0: set<Ptr>, m: set<Ptr>, o: Ptr, c: Ptr, x: Ptr)
    requires o in g && o !in m0 && c in g[o] && m0 <= m && Reaches(g, m, c, x)
    ensures Reaches(g, m0, o, x)
  {
    var p :| IsPath(g, m, p) && p != [] && p[0] == c && p[|p| - 1] == x;
    var q := [o] + p;
    assert IsPath(g, m0, q) by {
      forall i | 0 <= i < |q| - 1 ensures q[i + 1] in g[q[i]] {
        if i > 0 {
          assert p[i - 1 + 1] in g[p[i - 1]];
        }
      }
    }
    assert q[0] == o && q[|q| - 1] == x;
  }

  /** Marking an object and then what its references reach, one reference after the other. */
  ghost predicate MarkedAfter(g: Graph, m0: set<Ptr>, o: Ptr, i: nat, m: set<Ptr>)
    requires o in g
  {
    && m0 + {o} <= m <= g.Keys && i <= |g[o]|
    && (forall j | 0 <= j < i :: g[o][j] in m)
  }

  ghost predicate NewlyMarked(g: Graph, m0: set<Ptr>, o: Ptr, m: set<Ptr>) {
    && (forall x | x in m - m0 :: Reaches(g, m0, o, x))
    && (forall x, j | x in m - m0 && x != o && x in g && 0 <= j < |g[x]| :: g[x][j] in m)
  }

  lemma MarkOneMore(g: Graph, m0: set<Ptr>, o: Ptr, i: nat, m: set<Ptr>, m': set<Ptr>)
    requires Closed(g) && o in g && o !in m0 && MarkedAfter(g, m0, o, i, m) && NewlyMarked(g, m0, o, m)
    requires i < |g[o]| && m' == m + Reach(g, m, g[o][i])
    ensures MarkedAfter(g, m0, o, i + 1, m') && NewlyMarked(g, m0, o, m')
  {
    ReachIsClosed(g, m, g[o][i]);
    forall x | x in m' - m0 ensures Reaches(g, m0, o, x) {
      if x !in m {
        ReachesThrough(g, m0, m, o, g[o][i], x);
      }
    }
  }

  /** The marks are set, everything else is as before. */
  predicate OnlyMarks(mem: Memory, mem': Memory) {
    mem.Keys == mem'.Keys && forall o | o in mem :: mem'[o] == mem[o].(marked := mem'[o].marked)
  }

  /** The first step: nothing to do at a marked object, otherwise one object less is unmarked. */
  lemma MarkedOrFirst(mem: Memory, o: Ptr)
    requires Closed(GraphOf(mem)) && o in mem
    ensures GraphOf(mem).Keys == mem.Keys && GraphOf(mem)[o] == Refs(mem[o].body)
    ensures mem[o].marked ==> Marked(mem) == Marked(mem) + Reach(GraphOf(mem), Marked(mem), o)
    ensures !mem[o].marked ==>
              var mem' := mem[o := mem[o].(marked := true)];
              && o !in Marked(mem) && GraphOf(mem') == GraphOf(mem) && OnlyMarks(mem, mem')
              && Marked(mem') == Marked(mem) + {o} && NewlyMarked(GraphOf(mem), Marked(mem), o, Marked(mem'))
              && |mem'.Keys - Marked(mem')| < |mem.Keys - Marked(mem)|
              && MarkedAfter(GraphOf(mem), Marked(mem), o, 0, Marked(mem'))
  {
    var g := GraphOf(mem);
    if mem[o].marked {
      MarkingIsDetermined(g, Marked(mem), o, Marked(mem));
    } else {
      var mem' := mem[o := mem[o].(marked := true)];
      assert Marked(mem') == Marked(mem) + {o};
      assert mem'.Keys - Marked(mem') == (mem.Keys - Marked(mem)) - {o};
      ReachesSelf(g, Marked(mem), o);
    }
  }

  /** The last step: all references of the object have been followed. */
  lemma AllMarked(g: Graph, m0: set<Ptr>, o: Ptr, m: set<Ptr>)
    requires o in g && MarkedAfter(g, m0, o, |g[o]|, m) && NewlyMarked(g, m0, o, m)
    ensures m == m0 + Reach(g, m0, o)
  {
    MarkingIsDetermined(g, m0, o, m);
  }

  class Marker {
    var mem: Memory

    constructor (mem: Memory)
      ensures this.mem == mem
    {
      this.mem := mem;
    }

    ghost function Unmarked(): nat
      reads this
    {
      |mem.Keys - Marked(mem)|
    }

    /** 'mark' */
    method Mark(obj: Ptr)
      requires Closed(GraphOf(mem)) && obj in mem
      modifies this
      ensures OnlyMarks(old(mem), mem) && GraphOf(mem) == old(GraphOf(mem))
      ensures Marked(mem) == old(Marked(mem)) + Reach(GraphOf(mem), old(Marked(mem)), obj)
      decreases Unmarked(), 2
    {
      hide GraphOf, Marked, Reach, Reaches, NewlyMarked, Closed;
      ghost var g, m0 := GraphOf(mem), Marked(mem);
      MarkedOrFirst(mem, obj);
      if mem[obj].marked {
        return;
      }
      mem := mem[obj := mem[obj].(marked := true)];
      match mem[obj].body {
        case ConsBody(_, _, _) => ConsMark(obj, m0);
        case FunctionBody(_, _) => FunctionMark(obj, m0);
        case _ =>
      }
      AllMarked(g, m0, obj, Marked(mem));
    }

    /** 'cons_mark' */
    method ConsMark(obj: Ptr, ghost m0: set<Ptr>)
      requires Closed(GraphOf(mem)) && obj in mem && mem[obj].body.ConsBody? && obj !in m0
      requires Marked(mem) == m0 + {obj} && NewlyMarked(GraphOf(mem), m0, obj, Marked(mem))
      modifies this
      ensures OnlyMarks(old(mem), mem) && GraphOf(mem) == old(GraphOf(mem))
      ensures MarkedAfter(GraphOf(mem), m0, obj, 2, Marked(mem)) && NewlyMarked(GraphOf(mem), m0, obj, Marked(mem))
      decreases Unmarked(), 3
    {
      ghost var g := GraphOf(mem);
      var head, tail := mem[obj].body.head, mem[obj].body.tail;
      assert g[obj] == [head, tail] && g[obj][0] in g && g[obj][1] in g;
      ghost var m1 := Marked(mem);
      Mark(head);
      MarkOneMore(g, m0, obj, 0, m1, Marked(mem));
      ghost var m2 := Marked(mem);
      assert mem.Keys - m2 <= mem.Keys - m1;
      SubsetSize(mem.Keys - m2, mem.Keys - m1);
      Mark(mem[obj].body.tail);
      MarkOneMore(g, m0, obj, 1, m2, Marked(mem));
    }

    /** 'function_mark' */
    method FunctionMark(obj: Ptr, ghost m0: set<Ptr>)
      requires Closed(GraphOf(mem)) && obj in mem && mem[obj].body.FunctionBody? && obj !in m0
      requires Marked(mem) == m0 + {obj} && NewlyMarked(GraphOf(mem), m0, obj, Marked(mem))
      modifies this
      ensures OnlyMarks(old(mem), mem) && GraphOf(mem) == old(GraphOf(mem))
      ensures MarkedAfter(GraphOf(mem), m0, obj, 1, Marked(mem)) && NewlyMarked(GraphOf(mem), m0, obj, Marked(mem))
      decreases Unmarked(), 3
    {
      ghost var g := GraphOf(mem);
      assert g[obj] == [mem[obj].body.data] && g[obj][0] in g;
      ghost var m1 := Marked(mem);
      Mark(mem[obj].body.data);
      MarkOneMore(g, m0, obj, 0, m1, Marked(mem));
    }
  }

  lemma SubsetSize(a: set<Ptr>, b: set<Ptr>)
    requires a <= b
    ensures |a| <= |b|
  {
    assert b == a + (b - a);
  }
}
