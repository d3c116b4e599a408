/** bfs_print.js: breadth-first search with a queue in an array. It is proved through the theory of Dijkstra's
    algorithm, of which it is the case in which every edge has weight one. */
module Bfs {
  import opened Basics
  import opened Walks
  import opened Dijkstra

  /** A list of the neighbours of a node. */
  datatype Neighbors = End | Neighbor(vid: int, next: Neighbors)

  function Unit(l: Neighbors): EdgeList {
    if l == End then Null else EdgeElem(l.vid, 1, Unit(l.next))
  }

  function UnitGraph(V: seq<Neighbors>): seq<EdgeList> {
    seq(|V|, i requires 0 <= i < |V| => Unit(V[i]))
  }

  predicate IsNeighborGraph(V: seq<Neighbors>) {
    IsGraph(UnitGraph(V))
  }

  /** The number of steps of a shortest walk. */
  ghost predicate IsDistance(V: seq<Neighbors>, a: int, v: int, d: int) {
    && (exists w :: IsWalk(UnitGraph(V), a, w) && Walks.End(a, w) == v && |w| == d)
    && (forall w | IsWalk(UnitGraph(V), a, w) && Walks.End(a, w) == v :: |w| >= d)
  }

  lemma {:induction false} UnitSteps(l: Neighbors, e: Step)
    requires e in Steps(Unit(l))
    ensures e.weight == 1
  {
    if l != End && e in Steps(Unit(l.next)) {
      UnitSteps(l.next, e);
    }
  }

  lemma {:induction false} WeightIsLength(V: seq<Neighbors>, a: int, w: seq<Step>)
    requires IsWalk(UnitGraph(V), a, w)
    ensures Weight(w) == |w|
    decreases |w|
  {
    if w != [] {
      WeightIsLength(V, a, w[..|w| - 1]);
      UnitSteps(V[Walks.End(a, w[..|w| - 1])], w[|w| - 1]);
    }
  }

  /** The nodes in the queue are in the order of their distances, which are that of the node being visited or
      one more. */
  predicate Layered(s: Walks.State, x: int)
    requires 0 <= x < |s.dist|
  {
    && (forall q | q in s.queue :: 0 <= q < |s.dist| && s.dist[x] <= s.dist[q] <= s.dist[x] + 1)
    && (forall i, j | 0 <= i < j < |s.queue| && 0 <= s.queue[i] < |s.dist| && 0 <= s.queue[j] < |s.dist| ::
          s.dist[s.queue[i]] <= s.dist[s.queue[j]])
  }

  /** Breadth-first search never finds a shorter way to a node that it has found. */
  lemma LayeredAfterEdge(V: seq<EdgeList>, start: int, s: Walks.State, x: int, p: EdgeList)
    requires Invariant(V, start, s, x, p) && x != 0 && p != Null && p.weight == 1 && 1 <= x < |V| && Layered(s, x)
    requires Step(p.vid, 1) in Steps(V[x])
    ensures 1 <= p.vid < |V| && Walks.Shaped(V, AfterEdge(s, x, p)) && Layered(AfterEdge(s, x, p), x)
    ensures AfterEdge(s, x, p).mark == if s.mark[p.vid] == WHITE then s.mark[p.vid := GREY] else s.mark
    ensures AfterEdge(s, x, p).queue == if s.mark[p.vid] == WHITE then s.queue + [p.vid] else s.queue
    ensures forall b | 1 <= b < |V| && s.mark[b] == BLACK :: AfterEdge(s, x, p).dist[b] == s.dist[b]
  {
    hide Relaxed, Founded, NoDuplicates;
    RelaxEdge(V, start, s, x, p);
    assert s.mark[p.vid] == GREY ==> p.vid in s.queue;
  }

  /** What has been printed: the nodes taken from the queue, once each, in the order of their distances. */
  ghost predicate Printed(output: seq<int>, s: Walks.State) {
    && NoDuplicates(output)
    && (forall v :: v in output <==> 1 <= v < |s.mark| && s.mark[v] == BLACK)
    && |s.dist| == |s.mark|
    && (forall i, j | 0 <= i < j < |output| && 0 <= output[i] < |s.dist| && 0 <= output[j] < |s.dist| ::
          s.dist[output[i]] <= s.dist[output[j]])
  }

  ghost predicate Exact(V: seq<Neighbors>, start: int, s: Walks.State) {
    |s.dist| == |s.mark| && forall v | 1 <= v < |s.mark| && s.mark[v] == BLACK :: IsDistance(V, start, v, s.dist[v])
  }

  function Taken(s: Walks.State): Walks.State
    requires s.queue != [] && 0 <= s.queue[0] < |s.mark|
  {
    s.(mark := s.mark[s.queue[0] := BLACK], queue := s.queue[1..])
  }

  /** The first node of the queue is taken: its distance is exact, and it is not nearer than what was printed. */
  lemma TakeFirst(V: seq<Neighbors>, start: int, s: Walks.State, output: seq<int>)
    requires Invariant(UnitGraph(V), start, s, 0, Null) && s.queue != []
    requires Printed(output, s) && Exact(V, start, s)
    requires 0 <= s.queue[0] < |s.dist| && Layered(s, s.queue[0])
    ensures var x := s.queue[0];
            && 1 <= x < |V| && s.mark[x] == GREY && Invariant(UnitGraph(V), start, Taken(s), x, Unit(V[x]))
            && Printed(output + [x], Taken(s)) && Exact(V, start, Taken(s)) && Layered(Taken(s), x)
  {
    hide Coloured, Ordered, Relaxed, Founded, IsWalk, Weight, IsDistance, Unit, Printed, Exact, Layered;
    var x := s.queue[0];
    TakeLayered(UnitGraph(V), start, s);
    FoundInQueue(UnitGraph(V), start, s, x);
    NearestIsFinalForAll(UnitGraph(V), start, s, x);
    TakeNearest(UnitGraph(V), start, s, x, s.queue[1..]);
    DistanceIs(V, start, s, x);
    TakeExact(V, start, s);
    TakePrinted(V, start, s, output);
  }

  lemma FoundInQueue(V: seq<EdgeList>, start: int, s: Walks.State, x: int)
    requires Invariant(V, start, s, 0, Null) && x in s.queue
    ensures 1 <= x < |V| && Found(V, start, s, x)
  {
    hide Found;
  }

  lemma TakeLayered(V: seq<EdgeList>, start: int, s: Walks.State)
    requires Invariant(V, start, s, 0, Null) && s.queue != [] && 0 <= s.queue[0] < |s.dist| && Layered(s, s.queue[0])
    ensures 1 <= s.queue[0] < |V| && s.mark[s.queue[0]] == GREY && Layered(Taken(s), s.queue[0])
    ensures forall q | q in s.queue :: s.dist[s.queue[0]] <= s.dist[q]
    ensures NoDuplicates(s.queue[1..]) && forall q :: q in s.queue[1..] <==> q in s.queue && q != s.queue[0]
  {
    hide Ordered, Relaxed, Founded;
    assert s.queue == [s.queue[0]] + s.queue[1..];
    assert s.queue[0] in s.queue;
  }

  lemma TakeExact(V: seq<Neighbors>, start: int, s: Walks.State)
    requires s.queue != [] && 1 <= s.queue[0] < |s.mark| == |s.dist| && Exact(V, start, s)
    requires IsDistance(V, start, s.queue[0], s.dist[s.queue[0]])
    ensures Exact(V, start, Taken(s))
  {
    hide IsDistance;
  }

  lemma TakePrinted(V: seq<Neighbors>, start: int, s: Walks.State, output: seq<int>)
    requires Invariant(UnitGraph(V), start, s, 0, Null) && s.queue != [] && 1 <= s.queue[0] < |s.mark|
    requires s.mark[s.queue[0]] == GREY && Printed(output, s)
    ensures Printed(output + [s.queue[0]], Taken(s))
  {
    hide Relaxed, Founded, Coloured;
    var x := s.queue[0];
    assert x !in output;
    assert forall v | v in output :: s.dist[v] <= s.dist[x];
  }

  lemma DistanceIs(V: seq<Neighbors>, start: int, s: Walks.State, x: int)
    requires Walks.Shaped(UnitGraph(V), s) && 1 <= x < |V| && Found(UnitGraph(V), start, s, x)
    requires forall u | IsWalk(UnitGraph(V), start, u) && Walks.End(start, u) == x :: Weight(u) >= s.dist[x]
    ensures IsDistance(V, start, x, s.dist[x])
  {
    WeightIsLength(V, start, s.walk[x]);
    forall u | IsWalk(UnitGraph(V), start, u) && Walks.End(start, u) == x ensures |u| >= s.dist[x] {
      WeightIsLength(V, start, u);
    }
  }

  /** The neighbours in a list that are white, in their order and once each. */
  function NewNeighbors(status: seq<int>, l: Neighbors): seq<int>
    decreases l
  {
    if l == End then []
    else if 0 <= l.vid < |status| && status[l.vid] == WHITE then
      [l.vid] + NewNeighbors(status[l.vid := GREY], l.next)
    else NewNeighbors(status, l.next)
  }

  /** The given nodes have been marked grey. */
  function AllGrey(status: seq<int>, vs: seq<int>): seq<int> {
    seq(|status|, v requires 0 <= v < |status| => if v in vs then GREY else status[v])
  }

  function Vids(l: Neighbors): set<int> {
    if l == End then {} else {l.vid} + Vids(l.next)
  }

  lemma NewNeighborsAreWhite(status: seq<int>, l: Neighbors)
    ensures NoDuplicates(NewNeighbors(status, l))
    ensures forall v :: v in NewNeighbors(status, l) <==> v in Vids(l) && 0 <= v < |status| && status[v] == WHITE
    decreases l
  {
    if l != End {
      NewNeighborsAreWhite(status, l.next);
      if 0 <= l.vid < |status| {
        NewNeighborsAreWhite(status[l.vid := GREY], l.next);
      }
    }
  }

  lemma NoNewNeighbors(status: seq<int>)
    ensures NewNeighbors(status, End) == [] && AllGrey(status, []) == status
  {
  }

  lemma NewNeighborsStep(status: seq<int>, l: Neighbors, status': seq<int>)
    requires l != End && 0 <= l.vid < |status|
    requires status' == if status[l.vid] == WHITE then status[l.vid := GREY] else status
    ensures var rest := NewNeighbors(status', l.next);
            && NewNeighbors(status, l) == (if status[l.vid] == WHITE then [l.vid] + rest else rest)
            && AllGrey(status', rest) == AllGrey(status, NewNeighbors(status, l))
  {
  }

  class Program {
    const V: seq<Neighbors>
    const VStatus: array<int>
    const Q: array<int>
    var tail: int
    var output: seq<int>

    /** Whether one of the functions has thrown an exception. */
    ghost var thrown: bool

    /** The same search as a run of Dijkstra's algorithm. */
    ghost var found: Walks.State

    ghost predicate Valid()
      reads this
    {
      IsNeighborGraph(V) && VStatus.Length == Q.Length == |V| && VStatus != Q && 1 <= tail <= Q.Length
    }

    ghost function Contents(): seq<int>
      reads this, Q
      requires Valid()
    {
      Q[1..tail]
    }

    ghost predicate Initial()
      reads this, VStatus
    {
      Valid() && tail == 1 && output == [] && !thrown && forall v | 0 <= v < |V| :: VStatus[v] == WHITE
    }

    constructor (V: seq<Neighbors>)
      requires IsNeighborGraph(V)
      ensures Initial() && this.V == V && fresh(VStatus) && fresh(Q)
    {
      this.V := V;
      VStatus := new int[|V|](_ => WHITE);
      Q := new int[|V|](_ => 0);
      tail, output, thrown := 1, [], false;
      found := Walks.State([], [], [], [], map[]);
    }

    predicate Empty()
      reads this
    {
      tail == 1
    }

    method Enqueue(x: int)
      requires Valid() && tail < Q.Length
      modifies this`tail, Q
      ensures Valid() && Contents() == old(Contents()) + [x]
    {
      Q[tail] := x;
      tail := tail + 1;
    }

    /** The first element leaves the queue, all others move forward. */
    method Dequeue() returns (r: Call<int>)
      requires Valid()
      modifies this`tail, this`thrown, Q
      ensures Valid() && (r.Thrown? <==> old(Contents()) == []) && thrown == (old(thrown) || r.Thrown?)
      ensures r.Thrown? ==> Contents() == []
      ensures r.Returned? ==> old(Contents()) == [r.value] + Contents()
    {
      if Empty() {
        thrown := true;
        return Thrown("dequeue() requires non-empty queue");
      }
      var x := Q[1];
      tail := tail - 1;
      var i := 2;
      while i <= tail
        invariant Valid() && tail == old(tail) - 1 && thrown == old(thrown) && 2 <= i <= tail + 1
        invariant forall k | 1 <= k <= tail :: Q[k] == if k < i - 1 then old(Q[k + 1]) else old(Q[k])
        invariant forall k | i <= k <= tail :: Q[k] == old(Q[k])
      {
        Q[i - 1] := Q[i];
        i := i + 1;
      }
      ghost var before, after := old(Contents()), [x] + Contents();
      forall k | 0 <= k < |after| ensures after[k] == before[k] {
        assert after[k] == old(Q[k + 1]);
      }
      assert before == after;
      return Returned(x);
    }

    /** The state of the search while the neighbours of 'x' are registered; x is still grey in the program. */
    ghost predicate Visiting(start: int, x: int, rest: Neighbors)
      reads this, VStatus, Q
    {
      && Valid() && 1 <= x < |V| && VStatus[x] == GREY
      && found.queue == Contents() && found.mark == VStatus[..][x := BLACK]
      && Invariant(UnitGraph(V), start, found, x, Unit(rest)) && Layered(found, x)
      && (forall e | e in Steps(Unit(rest)) :: e in Steps(Unit(V[x])))
    }

    /** What registering neighbours leaves as it was. */
    twostate predicate BlackStays(start: int, printed: seq<int>)
      reads this, VStatus
    {
      && (forall v | 1 <= v < |V| <= VStatus.Length :: VStatus[v] == BLACK <==> old(VStatus[v]) == BLACK)
      && (Printed(printed, old(found)) ==> Printed(printed, found))
      && (Exact(V, start, old(found)) ==> Exact(V, start, found))
    }

    /** 'registerNeighbors': the neighbours that have not been found yet are put into the queue, and nothing else
        changes. */
    method RegisterNeighbors(first: Neighbors, ghost start: int, ghost x: int, ghost printed: seq<int>)
      requires Visiting(start, x, first)
      modifies this`tail, this`found, VStatus, Q
      ensures Visiting(start, x, End) && BlackStays(start, printed)
      ensures Contents() == old(Contents()) + NewNeighbors(old(VStatus[..]), first)
      ensures VStatus[..] == AllGrey(old(VStatus[..]), NewNeighbors(old(VStatus[..]), first))
      decreases first
    {
      hide Program.Visiting, Printed, Exact, NewNeighbors, AllGrey;
      if first == End {
        NoNewNeighbors(VStatus[..]);
        return;
      }
      ghost var status := VStatus[..];
      RegisterOne(first, start, x, printed);
      NewNeighborsStep(status, first, VStatus[..]);
      RegisterNeighbors(first.next, start, x, printed);
    }

    /** The body of 'registerNeighbors' up to the recursive call. */
    method RegisterOne(first: Neighbors, ghost start: int, ghost x: int, ghost printed: seq<int>)
      requires Visiting(start, x, first) && first != End
      modifies this`tail, this`found, VStatus, Q
      ensures Visiting(start, x, first.next) && BlackStays(start, printed) && 0 <= first.vid < |V| == VStatus.Length
      ensures var white := old(VStatus[first.vid]) == WHITE;
              && VStatus[..] == (if white then old(VStatus[..])[first.vid := GREY] else old(VStatus[..]))
              && Contents() == old(Contents()) + (if white then [first.vid] else [])
    {
      hide Invariant, NoDuplicates, Layered, Printed, Exact;
      ghost var s, p := found, Unit(first);
      NextNeighbor(V, start, s, x, first, printed);
      if VStatus[first.vid] == WHITE {
        VStatus[first.vid] := GREY;
        Enqueue(first.vid);
      }
      found := AfterEdge(s, x, p);
    }

    /** Between two turns of the loop of 'bfs'. */
    ghost predicate Searching(start: int)
      reads this, VStatus, Q
    {
      && Valid() && found.queue == Contents() && found.mark == VStatus[..]
      && Invariant(UnitGraph(V), start, found, 0, Null)
      && (found.queue != [] ==> 0 <= found.queue[0] < |found.dist| && Layered(found, found.queue[0]))
      && Printed(output, found) && Exact(V, start, found)
    }

    /** The body of the loop of 'bfs'. A node is never in the queue twice, so the test of its status always succeeds. */
    method VisitNext(ghost start: int)
      requires Searching(start) && !Empty()
      modifies this, VStatus, Q
      ensures Searching(start) && Open() < old(Open()) && thrown == old(thrown)
    {
      hide Invariant, Layered, Printed, Exact, NoDuplicates;
      ghost var printed := output + [found.queue[0]];
      TakeFirst(V, start, found, output);
      var dequeued := Dequeue();
      var v := dequeued.value;
      found := Taken(found);
      assert found.mark == VStatus[..][v := BLACK] && v in Open();
      if VStatus[v] != BLACK {
        RegisterNeighbors(V[v], start, v, printed);
        output := output + [v];
        VStatus[v] := BLACK;
        assert Unit(End) == Null && found.mark == VStatus[..];
        NextLayer(V, start, found, v);
        assert v !in Open();
      }
    }

    ghost function Open(): set<int>
      reads this, VStatus
      requires Valid()
    {
      set v | 1 <= v < |V| && VStatus[v] != BLACK
    }

    /** 'bfs': every node that can be reached is printed once, no other node is printed, and the nodes are printed in
        the order of their distances from the start. Nothing is thrown. */
    method Bfs(start: int)
      requires Initial() && 1 <= start < |V|
      modifies this, VStatus, Q
      ensures NoDuplicates(output)
      ensures forall v :: v in output <==> exists w :: IsWalk(UnitGraph(V), start, w) && Walks.End(start, w) == v
      ensures exists d: seq<int> ::
                && |d| == |output| && (forall i | 0 <= i < |d| :: IsDistance(V, start, output[i], d[i]))
                && (forall i, j | 0 <= i < j < |d| :: d[i] <= d[j])
      ensures !thrown
    {
      hide Invariant, Layered, Printed, Exact, NoDuplicates, IsDistance;
      VStatus[start] := GREY;
      Enqueue(start);
      found := Begin(|V| - 1, start, seq(|V|, _ => 0));
      Started(V, start, seq(|V|, _ => 0));
      assert found.mark == VStatus[..];
      while !Empty()
        invariant Searching(start) && !thrown
        decreases Open()
      {
        VisitNext(start);
      }
      AllPrinted(V, start, found, output);
    }
  }

  lemma Started(V: seq<Neighbors>, start: int, pred: seq<int>)
    requires IsNeighborGraph(V) && 1 <= start < |V| == |pred|
    ensures var s := Begin(|V| - 1, start, pred);
            && Invariant(UnitGraph(V), start, s, 0, Null) && Layered(s, start) && s.queue == [start]
            && Printed([], s) && Exact(V, start, s)
  {
    BeginIsInvariant(UnitGraph(V), start, pred);
  }

  /** The first node of what is left in the queue is as near as all others, except for one step. */
  lemma NextLayer(V: seq<Neighbors>, start: int, s: Walks.State, x: int)
    requires 1 <= x < |V| && Invariant(UnitGraph(V), start, s, x, Null) && Layered(s, x)
    ensures Invariant(UnitGraph(V), start, s, 0, Null)
    ensures s.queue != [] ==> 0 <= s.queue[0] < |s.dist| && Layered(s, s.queue[0])
  {
    hide Coloured, Ordered, Founded;
    if s.queue != [] {
      assert s.queue[0] in s.queue;
      forall q | q in s.queue ensures s.dist[s.queue[0]] <= s.dist[q] {
        var i :| 0 <= i < |s.queue| && s.queue[i] == q;
      }
    }
  }

  /** When the queue is empty, everything that can be reached has been printed. */
  lemma AllPrinted(V: seq<Neighbors>, start: int, s: Walks.State, output: seq<int>)
    requires Invariant(UnitGraph(V), start, s, 0, Null) && s.queue == [] && Printed(output, s) && Exact(V, start, s)
    ensures NoDuplicates(output)
    ensures forall v :: v in output <==> exists w :: IsWalk(UnitGraph(V), start, w) && Walks.End(start, w) == v
    ensures exists d: seq<int> ::
              && |d| == |output| && (forall i | 0 <= i < |d| :: IsDistance(V, start, output[i], d[i]))
              && (forall i, j | 0 <= i < j < |d| :: d[i] <= d[j])
  {
    hide Coloured, Ordered, Relaxed, Founded, IsWalk, NoDuplicates;
    forall w | IsWalk(UnitGraph(V), start, w) ensures Walks.End(start, w) in output {
      EmptyIsUnreachable(UnitGraph(V), start, s, w);
    }
    forall v | v in output ensures exists w :: IsWalk(UnitGraph(V), start, w) && Walks.End(start, w) == v {
      assert IsDistance(V, start, v, s.dist[v]);
    }
    var d := seq(|output|, i requires 0 <= i < |output| => if 0 <= output[i] < |s.dist| then s.dist[output[i]] else 0);
    forall i | 0 <= i < |d| ensures IsDistance(V, start, output[i], d[i]) {
      assert output[i] in output;
    }
    forall i, j | 0 <= i < j < |d| ensures d[i] <= d[j] {
      assert output[i] in output && output[j] in output;
    }
  }

  /** One neighbour is looked at. */
  lemma NextNeighbor(V: seq<Neighbors>, start: int, s: Walks.State, x: int, first: Neighbors, printed: seq<int>)
    requires IsNeighborGraph(V) && 1 <= x < |V| && first != End
    requires Invariant(UnitGraph(V), start, s, x, Unit(first)) && Layered(s, x)
    requires forall e | e in Steps(Unit(first)) :: e in Steps(Unit(V[x]))
    ensures forall e | e in Steps(Unit(first.next)) :: e in Steps(Unit(V[x]))
    ensures 1 <= first.vid < |V| && |s.dist| == |s.mark| == |s.pred| == |V|
    ensures s.mark[first.vid] == WHITE ==> |s.queue| < |V| - 1 && first.vid != x
    ensures var s' := AfterEdge(s, x, Unit(first));
            && Invariant(UnitGraph(V), start, s', x, Unit(first.next)) && Layered(s', x)
            && s'.mark == (if s.mark[first.vid] == WHITE then s.mark[first.vid := GREY] else s.mark)
            && s'.queue == (if s.mark[first.vid] == WHITE then s.queue + [first.vid] else s.queue)
            && (Printed(printed, s) ==> Printed(printed, s')) && (Exact(V, start, s) ==> Exact(V, start, s'))
  {
    hide Invariant, Layered, Printed, Exact, NoDuplicates, AfterEdge;
    var p := Unit(first);
    assert Step(first.vid, 1) in Steps(p) && forall e | e in Steps(Unit(first.next)) :: e in Steps(p);
    InvariantIsShaped(UnitGraph(V), start, s, x, p);
    LayeredAfterEdge(UnitGraph(V), start, s, x, p);
    RelaxEdge(UnitGraph(V), start, s, x, p);
    if s.mark[p.vid] == WHITE {
      RoomForWhite(UnitGraph(V), start, s, x, p);
    }
    BlackUnchanged(V, start, s, AfterEdge(s, x, p), printed);
  }

  lemma InvariantIsShaped(V: seq<EdgeList>, start: int, s: Walks.State, x: int, rest: EdgeList)
    requires Invariant(V, start, s, x, rest)
    ensures Walks.Shaped(V, s) && (1 <= x < |V| ==> s.mark[x] == BLACK)
  {
    hide Coloured, Ordered, Relaxed, Founded;
  }

  /** What is known of black nodes depends only on them. */
  lemma BlackUnchanged(V: seq<Neighbors>, start: int, s: Walks.State, s': Walks.State, printed: seq<int>)
    requires |s.mark| == |s'.mark| == |s.dist| == |s'.dist|
    requires forall v | 1 <= v < |s.mark| :: (s'.mark[v] == BLACK <==> s.mark[v] == BLACK)
    requires forall v | 1 <= v < |s.mark| && s.mark[v] == BLACK :: s'.dist[v] == s.dist[v]
    ensures Printed(printed, s) ==> Printed(printed, s')
    ensures Exact(V, start, s) ==> Exact(V, start, s')
  {
    hide NoDuplicates, IsDistance;
    if Printed(printed, s) {
      forall i, j | 0 <= i < j < |printed| && 0 <= printed[i] < |s.dist| && 0 <= printed[j] < |s.dist|
        ensures s'.dist[printed[i]] <= s'.dist[printed[j]]
      {
        assert printed[i] in printed && printed[j] in printed;
      }
    }
  }
}
