/** Graphs as adjacency lists of nodes 1 to n (dijkstra.js), walks in them, and what holds between the steps of
    Dijkstra's algorithm. */
module Walks {
  import opened Basics

  /** A list of the edges that leave a node, linked through 'next'. */
  datatype EdgeList = Null | EdgeElem(vid: int, weight: int, next: EdgeList)

  /** An edge taken: the node it leads to, and its weight. */
  datatype Step = Step(vid: int, weight: int)

  function Steps(l: EdgeList): seq<Step> {
    if l == Null then [] else [Step(l.vid, l.weight)] + Steps(l.next)
  }

  /** Edges lead to nodes, and no weight is negative. */
  predicate IsGraph(V: seq<EdgeList>) {
    && |V| >= 1
    && forall v, e | 1 <= v < |V| && e in Steps(V[v]) :: 1 <= e.vid < |V| && e.weight >= 0
  }

  function End(a: int, w: seq<Step>): int {
    if w == [] then a else w[|w| - 1].vid
  }

  /** The steps lead from node 'a' along edges. */
  predicate IsWalk(V: seq<EdgeList>, a: int, w: seq<Step>)
    decreases |w|
  {
    if w == [] then 1 <= a < |V|
    else
      var before := w[..|w| - 1];
      IsWalk(V, a, before) && 1 <= End(a, before) < |V| && w[|w| - 1] in Steps(V[End(a, before)])
  }

  function Weight(w: seq<Step>): int
    decreases |w|
  {
    if w == [] then 0 else Weight(w[..|w| - 1]) + w[|w| - 1].weight
  }

  const WHITE: int := 0
  const GREY: int := 1
  const BLACK: int := 2

  /** Following 'pred' from v leads back along the walk to a. */
  predicate PredPath(pred: seq<int>, a: int, w: seq<Step>, v: int)
    decreases |w|
  {
    if w == [] then v == a
    else 1 <= v < |pred| && w[|w| - 1].vid == v && PredPath(pred, a, w[..|w| - 1], pred[v])
  }

  /** The arrays dist, mark and pred (index 0 is not used), the nodes in X, and a walk for every node that has
      been found. */
  datatype State = State(dist: seq<int>, mark: seq<int>, pred: seq<int>, queue: seq<int>, walk: map<int, seq<Step>>)

  predicate Shaped(V: seq<EdgeList>, s: State) {
    |s.dist| == |s.mark| == |s.pred| == |V|
  }

  /** White nodes have not been found, grey nodes are in the queue, black nodes have been taken from it. */
  predicate Coloured(V: seq<EdgeList>, s: State)
    requires Shaped(V, s)
  {
    && NoDuplicates(s.queue) && (forall q | q in s.queue :: 1 <= q < |V|)
    && forall v | 1 <= v < |V| ::
         && WHITE <= s.mark[v] <= BLACK && s.dist[v] >= -1
         && (s.dist[v] == -1 <==> s.mark[v] == WHITE)
         && (v in s.queue <==> s.mark[v] == GREY)
  }

  /** No black node is farther than a grey one. */
  predicate Ordered(V: seq<EdgeList>, s: State)
    requires Shaped(V, s)
  {
    forall b, q | 1 <= b < |V| && 1 <= q < |V| && s.mark[b] == BLACK && s.mark[q] == GREY :: s.dist[b] <= s.dist[q]
  }

  /** The edges of black nodes have been relaxed, except for those of 'x' in the list 'rest'. */
  predicate Relaxed(V: seq<EdgeList>, s: State, x: int, rest: EdgeList)
    requires Shaped(V, s)
  {
    forall b, e | 1 <= b < |V| && s.mark[b] == BLACK && e in Steps(V[b]) && 1 <= e.vid < |V|
                  && !(b == x && e in Steps(rest)) ::
      s.mark[e.vid] != WHITE && s.dist[e.vid] <= s.dist[b] + e.weight
  }

  /** A node was found along a walk of weight 'dist', whose last node before it is 'pred' and black. */
  predicate Found(V: seq<EdgeList>, start: int, s: State, v: int)
    requires Shaped(V, s) && 1 <= v < |V|
  {
    && v in s.walk && IsWalk(V, start, s.walk[v]) && End(start, s.walk[v]) == v && Weight(s.walk[v]) == s.dist[v]
    && (v == start ==> s.walk[v] == [])
    && (v != start ==>
          && s.walk[v] != [] && 1 <= s.pred[v] < |V| && s.mark[s.pred[v]] == BLACK && s.pred[v] in s.walk
          && s.walk[v][..|s.walk[v]| - 1] == s.walk[s.pred[v]])
  }

  predicate Founded(V: seq<EdgeList>, start: int, s: State)
    requires Shaped(V, s)
  {
    && 1 <= start < |V| && s.mark[start] != WHITE && s.dist[start] == 0
    && forall v | 1 <= v < |V| && s.mark[v] != WHITE :: Found(V, start, s, v)
  }

  /** While the edges of x are being relaxed (0 if none are), x is black and no black node is farther than it. */
  predicate Latest(V: seq<EdgeList>, s: State, x: int)
    requires Shaped(V, s)
  {
    x != 0 ==>
      && 1 <= x < |V| && s.mark[x] == BLACK
      && forall b | 1 <= b < |V| && s.mark[b] == BLACK :: s.dist[b] <= s.dist[x]
  }

  predicate Invariant(V: seq<EdgeList>, start: int, s: State, x: int, rest: EdgeList) {
    && IsGraph(V) && Shaped(V, s)
    && Coloured(V, s) && Ordered(V, s) && Relaxed(V, s, x, rest) && Founded(V, start, s) && Latest(V, s, x)
  }

  /** Before the first node is taken from the queue; only then the start node, although in the queue, is still
      marked white. */
  function Begin(n: nat, start: int, pred: seq<int>): State
    requires 1 <= start <= n
  {
    var dist := seq(n + 1, i => if i == start then 0 else -1);
    var mark := seq(n + 1, i => if i == start then GREY else WHITE);
    State(dist, mark, pred, [start], map[start := []])
  }

  lemma BeginIsInvariant(V: seq<EdgeList>, start: int, pred: seq<int>)
    requires IsGraph(V) && 1 <= start < |V| == |pred|
    ensures Invariant(V, start, Begin(|V| - 1, start, pred), 0, Null)
  {
  }

  /** The heart of the algorithm: a walk that ends in a black node weighs at least its distance, and a walk that
      does not weighs at least the distance of some node in the queue. */
  lemma {:induction false} Bound(V: seq<EdgeList>, start: int, s: State, w: seq<Step>) returns (q: int)
    requires Invariant(V, start, s, 0, Null) && IsWalk(V, start, w)
    ensures 1 <= End(start, w) < |V|
    ensures s.mark[End(start, w)] == BLACK ==> Weight(w) >= s.dist[End(start, w)]
    ensures s.mark[End(start, w)] != BLACK ==> 1 <= q < |V| && s.mark[q] == GREY && Weight(w) >= s.dist[q]
    decreases |w|
  {
    q := start;
    if w != [] {
      var before, e := w[..|w| - 1], w[|w| - 1];
      var u := End(start, before);
      q := Bound(V, start, s, before);
      if s.mark[u] == BLACK {
        q := e.vid;
      }
    }
  }

  /** When a nearest node of the queue is taken, its distance is minimal over all walks. */
  lemma NearestIsFinal(V: seq<EdgeList>, start: int, s: State, x: int, w: seq<Step>)
    requires Invariant(V, start, s, 0, Null) && x in s.queue && IsWalk(V, start, w) && End(start, w) == x
    requires forall q | q in s.queue :: s.dist[x] <= s.dist[q]
    ensures Weight(w) >= s.dist[x]
  {
    var q := Bound(V, start, s, w);
  }

  /** The distances of black nodes are the minimal weights of walks. */
  lemma BlackIsFinal(V: seq<EdgeList>, start: int, s: State, x: int, w: seq<Step>)
    requires Invariant(V, start, s, 0, Null) && 1 <= x < |V| && s.mark[x] == BLACK
    requires IsWalk(V, start, w) && End(start, w) == x
    ensures Weight(w) >= s.dist[x]
  {
    var q := Bound(V, start, s, w);
  }

  /** When the queue is empty, no walk leads to a node that is not black. */
  lemma EmptyIsUnreachable(V: seq<EdgeList>, start: int, s: State, w: seq<Step>)
    requires Invariant(V, start, s, 0, Null) && s.queue == [] && IsWalk(V, start, w)
    ensures 1 <= End(start, w) < |V| && s.mark[End(start, w)] == BLACK
  {
    var q := Bound(V, start, s, w);
  }

  /** Following 'pred' from a node that has been found gives its walk. */
  lemma {:induction false} WalkFollowsPred(V: seq<EdgeList>, start: int, s: State, x: int, rest: EdgeList, v: int)
    requires Invariant(V, start, s, x, rest) && 1 <= v < |V| && s.mark[v] != WHITE
    ensures v in s.walk && PredPath(s.pred, start, s.walk[v], v)
    decreases |if v in s.walk then s.walk[v] else []|
  {
    assert Found(V, start, s, v);
    if v != start {
      WalkFollowsPred(V, start, s, x, rest, s.pred[v]);
    }
  }

  /** Taking a nearest node from the queue. */
  lemma TakeNearest(V: seq<EdgeList>, start: int, s: State, x: int, queue: seq<int>)
    requires Invariant(V, start, s, 0, Null) && x in s.queue
    requires forall q | q in s.queue :: s.dist[x] <= s.dist[q]
    requires NoDuplicates(queue) && forall q :: q in queue <==> q in s.queue && q != x
    ensures Invariant(V, start, s.(mark := s.mark[x := BLACK], queue := queue), x, V[x])
  {
    TakeColoured(V, s, x, queue);
    TakeRelaxed(V, s, x, queue);
    TakeFounded(V, start, s, x, queue);
  }

  lemma TakeColoured(V: seq<EdgeList>, s: State, x: int, queue: seq<int>)
    requires Shaped(V, s) && Coloured(V, s) && Ordered(V, s) && x in s.queue
    requires forall q | q in s.queue :: s.dist[x] <= s.dist[q]
    requires NoDuplicates(queue) && forall q :: q in queue <==> q in s.queue && q != x
    ensures 1 <= x < |V| && s.mark[x] == GREY
    ensures var s' := s.(mark := s.mark[x := BLACK], queue := queue);
            Coloured(V, s') && Ordered(V, s') && Latest(V, s', x)
  {
    hide NoDuplicates;
  }

  lemma TakeRelaxed(V: seq<EdgeList>, s: State, x: int, queue: seq<int>)
    requires Shaped(V, s) && Relaxed(V, s, 0, Null) && 1 <= x < |V|
    ensures Relaxed(V, s.(mark := s.mark[x := BLACK], queue := queue), x, V[x])
  {
    hide Steps;
  }

  lemma TakeFounded(V: seq<EdgeList>, start: int, s: State, x: int, queue: seq<int>)
    requires Shaped(V, s) && Founded(V, start, s) && 1 <= x < |V| && s.mark[x] != WHITE
    ensures Founded(V, start, s.(mark := s.mark[x := BLACK], queue := queue))
  {
    hide IsWalk, Weight, End;
  }

  function AfterEdge(s: State, x: int, rest: EdgeList): State
    requires |s.dist| == |s.mark| == |s.pred| && 0 <= x < |s.dist| && rest != Null && 0 <= rest.vid < |s.dist|
  {
    var (y, d) := (rest.vid, s.dist[x] + rest.weight);
    var s1 := if s.dist[y] == -1 || d < s.dist[y] then
                var w := if x in s.walk then s.walk[x] else [];
                s.(dist := s.dist[y := d], pred := s.pred[y := x], walk := s.walk[y := w + [Step(y, rest.weight)]])
              else s;
    if s.mark[y] == WHITE then s1.(mark := s1.mark[y := GREY], queue := s1.queue + [y]) else s1
  }

  /** Relaxing one edge of the node that was taken. A black node is never given a new distance. */
  lemma RelaxEdge(V: seq<EdgeList>, start: int, s: State, x: int, rest: EdgeList)
    requires Invariant(V, start, s, x, rest) && x != 0 && rest != Null && Step(rest.vid, rest.weight) in Steps(V[x])
    ensures 1 <= x < |V| && 1 <= rest.vid < |V|
    ensures s.mark[rest.vid] == BLACK ==> s.dist[rest.vid] <= s.dist[x] + rest.weight
    ensures Invariant(V, start, AfterEdge(s, x, rest), x, rest.next)
  {
    hide Ordered, Relaxed, Founded, Steps, AfterEdge;
    assert Step(rest.vid, rest.weight).weight >= 0;
    EdgeColoured(V, s, x, rest);
    EdgeOrdered(V, s, x, rest);
    EdgeRelaxed(V, s, x, rest);
    EdgeFounded(V, start, s, x, rest);
  }

  lemma EdgeColoured(V: seq<EdgeList>, s: State, x: int, rest: EdgeList)
    requires Shaped(V, s) && Coloured(V, s) && Latest(V, s, x) && x != 0 && rest != Null && 1 <= rest.vid < |V|
    requires rest.weight >= 0
    ensures Shaped(V, AfterEdge(s, x, rest)) && Coloured(V, AfterEdge(s, x, rest))
  {
    hide NoDuplicates;
    if s.mark[rest.vid] == WHITE {
      OneMore(s.queue, rest.vid);
    }
  }

  lemma OneMore(queue: seq<int>, y: int)
    requires NoDuplicates(queue) && y !in queue
    ensures NoDuplicates(queue + [y])
  {
  }

  lemma EdgeOrdered(V: seq<EdgeList>, s: State, x: int, rest: EdgeList)
    requires Shaped(V, s) && Coloured(V, s) && Ordered(V, s) && Latest(V, s, x) && x != 0 && rest != Null
    requires 1 <= rest.vid < |V| && rest.weight >= 0
    ensures Shaped(V, AfterEdge(s, x, rest)) && Ordered(V, AfterEdge(s, x, rest)) && Latest(V, AfterEdge(s, x, rest), x)
  {
    hide NoDuplicates;
  }

  lemma EdgeRelaxed(V: seq<EdgeList>, s: State, x: int, rest: EdgeList)
    requires Shaped(V, s) && Coloured(V, s) && Relaxed(V, s, x, rest) && Latest(V, s, x) && x != 0 && rest != Null
    requires 1 <= rest.vid < |V| && rest.weight >= 0
    ensures Shaped(V, AfterEdge(s, x, rest)) && Relaxed(V, AfterEdge(s, x, rest), x, rest.next)
  {
    hide NoDuplicates;
    assert forall e | e in Steps(rest) && e !in Steps(rest.next) :: e == Step(rest.vid, rest.weight);
  }

  lemma EdgeFounded(V: seq<EdgeList>, start: int, s: State, x: int, rest: EdgeList)
    requires Shaped(V, s) && Coloured(V, s) && Founded(V, start, s) && Latest(V, s, x) && x != 0 && rest != Null
    requires 1 <= rest.vid < |V| && rest.weight >= 0 && Step(rest.vid, rest.weight) in Steps(V[x])
    ensures Shaped(V, AfterEdge(s, x, rest)) && Founded(V, start, AfterEdge(s, x, rest))
  {
    hide NoDuplicates, Steps, Found, IsWalk, Weight, End;
    assert Found(V, start, s, x) && Found(V, start, s, start);
    var y, d := rest.vid, s.dist[x] + rest.weight;
    var s' := AfterEdge(s, x, rest);
    if s.dist[y] == -1 || d < s.dist[y] {
      assert s.mark[y] != BLACK && y != start;
      LoweredIsFound(V, start, s, x, rest);
    }
    forall v | 1 <= v < |V| && s'.mark[v] != WHITE ensures Found(V, start, s', v) {
      if !(v == y && (s.dist[y] == -1 || d < s.dist[y])) {
        assert Found(V, start, s, v);
        OthersAreFound(V, start, s, x, rest, v);
      }
    }
  }

  lemma LoweredIsFound(V: seq<EdgeList>, start: int, s: State, x: int, rest: EdgeList)
    requires Shaped(V, s) && 1 <= x < |V| && s.mark[x] == BLACK && Found(V, start, s, x) && rest != Null
    requires 1 <= rest.vid < |V| && Step(rest.vid, rest.weight) in Steps(V[x]) && rest.vid != start
    requires s.mark[rest.vid] != BLACK && (s.dist[rest.vid] == -1 || s.dist[x] + rest.weight < s.dist[rest.vid])
    ensures Shaped(V, AfterEdge(s, x, rest)) && Found(V, start, AfterEdge(s, x, rest), rest.vid)
  {
    var w := s.walk[x] + [Step(rest.vid, rest.weight)];
    assert w[..|w| - 1] == s.walk[x];
  }

  lemma OthersAreFound(V: seq<EdgeList>, start: int, s: State, x: int, rest: EdgeList, v: int)
    requires Shaped(V, s) && 1 <= x < |V| && rest != Null && 1 <= rest.vid < |V| && 1 <= v < |V|
    requires Found(V, start, s, v)
    requires s.dist[rest.vid] == -1 || s.dist[x] + rest.weight < s.dist[rest.vid] ==>
               v != rest.vid && s.mark[rest.vid] != BLACK
    ensures Shaped(V, AfterEdge(s, x, rest)) && Found(V, start, AfterEdge(s, x, rest), v)
  {
    hide IsWalk, Weight, End;
  }

  /** A sequence without the first occurrence of an element. */
  function Without(s: seq<int>, x: int): seq<int> {
    if s == [] then [] else if s[0] == x then s[1..] else [s[0]] + Without(s[1..], x)
  }

  lemma {:induction false} WithoutAt(s: seq<int>, i: nat)
    requires NoDuplicates(s) && i < |s|
    ensures Without(s, s[i]) == s[..i] + s[i + 1..]
    decreases |s|
  {
    if i > 0 {
      assert s[1..][i - 1] == s[i];
      WithoutAt(s[1..], i - 1);
      assert s[..i] == [s[0]] + s[1..][..i - 1];
      assert s[1..][i - 1 + 1..] == s[i + 1..];
    } else {
      assert s[..0] + s[1..] == s[1..];
    }
  }

  lemma {:induction false} WithoutElements(s: seq<int>, x: int)
    requires NoDuplicates(s)
    ensures NoDuplicates(Without(s, x)) && forall q :: q in Without(s, x) <==> q in s && q != x
    ensures |Without(s, x)| >= |s| - 1
    decreases |s|
  {
    if s != [] {
      WithoutElements(s[1..], x);
      assert s == [s[0]] + s[1..];
      assert s[0] !in s[1..];
      assert forall q :: q in s <==> q == s[0] || q in s[1..];
    }
  }

  /** Different nodes fit into an array with a place for each node. */
  lemma {:induction false} Fits(s: seq<int>, n: nat)
    requires NoDuplicates(s) && forall q | q in s :: 1 <= q <= n
    ensures |s| <= n
    decreases n
  {
    if s != [] {
      assert s[0] in s;
      WithoutElements(s, n);
      Fits(Without(s, n), n - 1);
    }
  }

  lemma QueueIsGrey(V: seq<EdgeList>, start: int, s: State)
    requires Invariant(V, start, s, 0, Null)
    ensures Shaped(V, s) && NoDuplicates(s.queue) && forall q | q in s.queue :: 1 <= q < |V| && s.mark[q] == GREY
  {
  }

  lemma NearestIsFinalForAll(V: seq<EdgeList>, start: int, s: State, x: int)
    requires Invariant(V, start, s, 0, Null) && x in s.queue
    requires forall q | q in s.queue :: s.dist[x] <= s.dist[q]
    ensures forall u | IsWalk(V, start, u) && End(start, u) == x :: Weight(u) >= s.dist[x]
  {
    forall u | IsWalk(V, start, u) && End(start, u) == x ensures Weight(u) >= s.dist[x] {
      NearestIsFinal(V, start, s, x, u);
    }
  }

  /** A node that is still white is not in the queue, and there is room for it. */
  lemma RoomForWhite(V: seq<EdgeList>, start: int, s: State, x: int, p: EdgeList)
    requires Invariant(V, start, s, x, p) && p != Null && 1 <= p.vid < |V| && s.mark[p.vid] == WHITE
    ensures p.vid !in s.queue && |s.queue| < |V| - 1
  {
    Fits(s.queue + [p.vid], |V| - 1);
  }
}
