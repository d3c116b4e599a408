/** dijkstra.js: shortest paths with a set of nodes kept in an array. Arrays are used from index 1 on. */
module Dijkstra {
  import opened Basics
  import opened Walks

  /** The result of a function that may throw. */
  datatype Call<+T> = Returned(value: T) | Thrown(message: string)

  class Program {
    const V: seq<EdgeList>
    const dist: array<int>
    const mark: array<int>
    const pred: array<int>
    const X: array<int>
    var tail: int

    /** Whether one of the functions has thrown an exception. */
    ghost var thrown: bool

    /** A walk for every node that has been found. */
    ghost var walk: map<int, seq<Step>>

    ghost predicate Valid()
      reads this
    {
      && IsGraph(V) && dist.Length == mark.Length == pred.Length == X.Length == |V| && 1 <= tail <= X.Length
      && dist != mark && dist != pred && dist != X && mark != pred && mark != X && pred != X
    }

    ghost function Contents(): seq<int>
      reads this, X
      requires Valid()
    {
      X[1..tail]
    }

    /** The state of the arrays before the call of 'dijkstra'. */
    ghost predicate Initial()
      reads this, dist, mark, pred
    {
      Valid() && tail == 1 && !thrown && forall v | 0 <= v < |V| :: dist[v] == -1 && mark[v] == WHITE && pred[v] == v
    }

    constructor (V: seq<EdgeList>)
      requires IsGraph(V)
      ensures Initial() && this.V == V && fresh(dist) && fresh(mark) && fresh(pred) && fresh(X)
    {
      this.V := V;
      dist := new int[|V|](_ => -1);
      mark := new int[|V|](_ => WHITE);
      pred := new int[|V|](i => i);
      X := new int[|V|](_ => 0);
      tail, thrown := 1, false;
      walk := map[];
    }

    predicate Empty()
      reads this
    {
      tail == 1
    }

    method Contains(x: int) returns (b: bool)
      requires Valid()
      ensures b <==> x in Contents()
    {
      var i := 1;
      while i <= tail - 1
        invariant 1 <= i <= tail && x !in X[1..i]
      {
        if x == X[i] {
          assert X[i] == Contents()[i - 1];
          return true;
        }
        i := i + 1;
      }
      return false;
    }

    method Add(x: int) returns (r: Call<()>)
      requires Valid() && (x in Contents() || tail < X.Length)
      modifies this`tail, this`thrown, X
      ensures Valid() && (r.Thrown? <==> x in old(Contents())) && thrown == (old(thrown) || r.Thrown?)
      ensures Contents() == old(Contents()) + if r.Thrown? then [] else [x]
    {
      var b := Contains(x);
      if b {
        thrown := true;
        return Thrown("add(): cannot insert a second time");
      }
      X[tail] := x;
      tail := tail + 1;
      return Returned(());
    }

    /** The element leaves the array, the elements behind it move forward. */
    method Delete(x: int) returns (r: Call<()>)
      requires Valid() && NoDuplicates(Contents())
      modifies this`tail, this`thrown, X
      ensures Valid() && (r.Thrown? <==> x !in old(Contents())) && thrown == (old(thrown) || r.Thrown?)
      ensures Contents() == if r.Thrown? then old(Contents()) else Without(old(Contents()), x)
    {
      var b := Contains(x);
      if !b {
        thrown := true;
        return Thrown("delete(): Could not found to delete");
      }
      ghost var s := Contents();
      WithoutElements(s, x);
      var i := 1;
      while i <= tail - 1
        invariant Valid() && thrown == old(thrown) && 1 <= i <= tail + 1
        invariant Contents() == s || Contents() == Without(s, x)
        invariant Contents() == s ==> i <= tail && x !in s[..i - 1]
        decreases tail - i
      {
        if X[i] == x {
          assert Contents()[i - 1] == x;
          CloseGap(i);
          WithoutAt(s, i - 1);
        }
        i := i + 1;
      }
      return Returned(());
    }

    /** The inner loop of 'delete', and the decrement of 'tail'. */
    method CloseGap(i: int)
      requires Valid() && 1 <= i < tail
      modifies this`tail, X
      ensures Valid() && Contents() == old(Contents())[..i - 1] + old(Contents())[i..]
    {
      var j := i;
      while j <= tail - 2
        invariant Valid() && tail == old(tail) && i <= j <= tail - 1
        invariant forall k | 1 <= k < tail :: X[k] == if i <= k < j then old(X[k + 1]) else old(X[k])
      {
        X[j] := X[j + 1];
        j := j + 1;
      }
      tail := tail - 1;
      ghost var before, after := old(Contents()), old(Contents())[..i - 1] + old(Contents())[i..];
      forall k | 0 <= k < |after| ensures Contents()[k] == after[k] {
        assert X[k + 1] == if k + 1 < i then before[k] else before[k + 1];
      }
      assert Contents() == after;
    }

    /** No element before place k is as near as the element there. */
    ghost predicate IsFirst(k: nat, x: int)
      reads this, X, dist
      requires Valid()
    {
      && k < |Contents()| && Contents()[k] == x && 0 <= x < |V|
      && forall i | 0 <= i < k && 0 <= Contents()[i] < |V| :: dist[Contents()[i]] != dist[x]
    }

    /** The first element with the least distance. */
    method GetElementWithMinDist() returns (r: Call<int>)
      requires Valid() && forall q | q in Contents() :: 1 <= q < |V|
      modifies this`thrown
      ensures (r.Thrown? <==> Contents() == []) && thrown == (old(thrown) || r.Thrown?)
      ensures r.Returned? ==> r.value in Contents() && forall q | q in Contents() :: dist[r.value] <= dist[q]
      ensures r.Returned? ==> exists k :: 0 <= k < |Contents()| && IsFirst(k, r.value)
    {
      if Empty() {
        thrown := true;
        return Thrown("getElementMinDist() invoked on empty X");
      }
      assert forall k | 1 <= k < tail :: X[k] == Contents()[k - 1] && X[k] in Contents();
      var n := X[1];
      var min := dist[n];
      ghost var at := 1;
      var i := 2;
      while i <= tail - 1
        invariant 2 <= i <= tail && 1 <= at < i && min == dist[X[at]]
        invariant forall k | 1 <= k < i :: min <= dist[X[k]]
      {
        n := X[i];
        if dist[n] < min {
          min := dist[n];
          at := i;
        }
        i := i + 1;
      }
      assert forall q | q in Contents() :: min <= dist[q] by {
        forall q | q in Contents() ensures min <= dist[q] {
          var k: nat :| k < |Contents()| && Contents()[k] == q;
          assert X[k + 1] == q;
        }
      }
      var j := 1;
      while j <= tail - 1
        invariant 1 <= j <= at
        invariant forall k | 1 <= k < j :: dist[X[k]] != min
      {
        n := X[j];
        if dist[n] == min {
          assert IsFirst(j - 1, n);
          return Returned(n);
        }
        j := j + 1;
      }
      assert false;
    }

    /** The arrays, where a start node that is still marked white counts as grey. */
    ghost function Now(start: int): Walks.State
      reads this, dist, mark, pred, X
      requires Valid() && 0 <= start < |V|
    {
      var marks := if mark[start] == WHITE then mark[..][start := GREY] else mark[..];
      Walks.State(dist[..], marks, pred[..], Contents(), walk)
    }

    /** The nodes that have not been taken from the queue. */
    ghost function Open(): set<int>
      reads this, mark
      requires Valid()
    {
      set v | 1 <= v < |V| && mark[v] != BLACK
    }

    /** What an edge list still to be relaxed contains, for the node that was taken. */
    ghost predicate EdgesOf(x: int, p: EdgeList) {
      1 <= x < |V| && forall e | e in Steps(p) :: e in Steps(V[x])
    }

    /** A node of the queue is marked black and deleted. */
    method Blacken(x: int)
      requires Valid() && 0 <= x < |V| && NoDuplicates(Contents()) && x in Contents()
      modifies this`tail, this`thrown, mark, X
      ensures Valid() && thrown == old(thrown)
      ensures mark[..] == old(mark[..])[x := BLACK] && Contents() == Without(old(Contents()), x)
    {
      mark[x] := BLACK;
      assert Contents() == old(Contents());
      var deleted := Delete(x);
      assert deleted.Returned?;
    }

    /** The first statements of the outer loop: a nearest node is found, marked black and deleted. From then on its
        distance is known to be minimal. */
    method TakeOne(ghost start: int) returns (x: int)
      requires Valid() && 1 <= start < |V| && Invariant(V, start, Now(start), 0, Null) && Contents() != []
      requires mark[start] == WHITE ==> Contents() == [start]
      modifies this`tail, this`thrown, mark, X
      ensures Valid() && mark[start] != WHITE && 1 <= x < |V| && EdgesOf(x, V[x]) && thrown == old(thrown)
      ensures Invariant(V, start, Now(start), x, V[x])
      ensures x in old(Open()) && mark[x] == BLACK && Open() == old(Open()) - {x}
      ensures forall u | IsWalk(V, start, u) && End(start, u) == x :: Weight(u) >= dist[x]
    {
      hide Invariant, NoDuplicates, IsWalk, Weight, End;
      ghost var s := Now(start);
      QueueIsGrey(V, start, s);
      var nearest := GetElementWithMinDist();
      x := nearest.value;
      NearestIsFinalForAll(V, start, s, x);
      Blacken(x);
      WithoutElements(s.queue, x);
      TakeNearest(V, start, s, x, Contents());
      assert mark[..] == s.mark[x := BLACK];
      assert Now(start) == s.(mark := s.mark[x := BLACK], queue := Contents());
    }

    /** What is known of a node that has been found. */
    lemma FoundWalk(start: int, x: int, rest: EdgeList, v: int)
      requires Valid() && 1 <= start < |V| && Invariant(V, start, Now(start), x, rest) && 1 <= v < |V|
      requires mark[v] == BLACK
      ensures v in walk && IsWalk(V, start, walk[v]) && End(start, walk[v]) == v && Weight(walk[v]) == dist[v]
      ensures PredPath(pred[..], start, walk[v], v)
    {
      WalkFollowsPred(V, start, Now(start), x, rest, v);
      assert Found(V, start, Now(start), v);
    }

    lemma AllRelaxed(start: int, x: int)
      requires Valid() && 1 <= start < |V| && Invariant(V, start, Now(start), x, Null)
      ensures Invariant(V, start, Now(start), 0, Null)
    {
    }

    lemma NoWalkIfEmpty(start: int, target: int)
      requires Valid() && 1 <= start < |V| && Invariant(V, start, Now(start), 0, Null) && Contents() == []
      requires mark[start] == WHITE ==> Contents() == [start]
      requires target in Open()
      ensures forall u | IsWalk(V, start, u) :: End(start, u) != target
    {
      forall u | IsWalk(V, start, u) ensures End(start, u) != target {
        EmptyIsUnreachable(V, start, Now(start), u);
      }
    }

    /** The body of the inner loop: one edge is relaxed. */
    method Relax(x: int, p: EdgeList, ghost start: int)
      requires Valid() && 1 <= start < |V| && mark[start] != WHITE && p != Null && EdgesOf(x, p)
      requires Invariant(V, start, Now(start), x, p)
      modifies this`tail, this`thrown, this`walk, dist, mark, pred, X
      ensures Valid() && mark[start] != WHITE && EdgesOf(x, p.next) && Open() == old(Open()) && thrown == old(thrown)
      ensures Invariant(V, start, Now(start), x, p.next)
      ensures 1 <= x < |V| && 1 <= p.vid < |V| && Now(start) == AfterEdge(old(Now(start)), x, p)
    {
      hide Invariant, NoDuplicates, AfterEdge;
      ghost var s := Now(start);
      assert Step(p.vid, p.weight) in Steps(p) && forall e | e in Steps(p.next) :: e in Steps(p);
      RelaxEdge(V, start, s, x, p);
      if mark[p.vid] == WHITE {
        RoomForWhite(V, start, s, x, p);
      }
      assert s.queue == Contents() && s.mark == mark[..];
      Lower(x, p);
      ghost var dist1, pred1, walk1 := dist[..], pred[..], walk;
      assert Contents() == s.queue && mark[..] == s.mark;
      Discover(p.vid);
      assert Now(start) == Walks.State(dist1, mark[..], pred1, Contents(), walk1);
      AfterEdgeIs(s, Now(start), x, p);
    }

    /** A shorter way to a node is noted. */
    method Lower(x: int, p: EdgeList)
      requires Valid() && 1 <= x < |V| && p != Null && 1 <= p.vid < |V|
      modifies this`walk, dist, pred
      ensures Valid()
      ensures var (y, d) := (p.vid, old(dist[x]) + p.weight);
              if old(dist[y]) == -1 || d < old(dist[y]) then
                && dist[..] == old(dist[..])[y := d] && pred[..] == old(pred[..])[y := x]
                && walk == old(walk)[y := (if x in old(walk) then old(walk)[x] else []) + [Step(y, p.weight)]]
              else dist[..] == old(dist[..]) && pred[..] == old(pred[..]) && walk == old(walk)
    {
      var y := p.vid;
      var d := dist[x] + p.weight;
      if dist[y] == -1 || d < dist[y] {
        dist[y] := d;
        pred[y] := x;
        walk := walk[y := (if x in walk then walk[x] else []) + [Step(y, p.weight)]];
      }
    }

    /** A node that has been found for the first time is put into the queue. */
    method Discover(y: int)
      requires Valid() && 1 <= y < |V| && (mark[y] == WHITE ==> y !in Contents() && tail < X.Length)
      modifies this`tail, this`thrown, mark, X
      ensures Valid() && thrown == old(thrown) && Open() == old(Open())
      ensures mark[..] == if old(mark[y]) == WHITE then old(mark[..])[y := GREY] else old(mark[..])
      ensures Contents() == if old(mark[y]) == WHITE then old(Contents()) + [y] else old(Contents())
    {
      if mark[y] == WHITE {
        mark[y] := GREY;
        var added := Add(y);
        assert added.Returned?;
      }
    }

    /** 'dijkstra': the length that is reported is the least weight of a walk from start to target, and following
        'pred' from the target leads back along such a walk. Nothing is reported exactly if there is no walk.
        None of the functions it calls throws. */
    method Dijkstra(start: int, target: int) returns (r: Option<int>, ghost w: seq<Step>)
      requires Initial() && 1 <= start < |V| && 1 <= target < |V|
      modifies this, dist, mark, pred, X
      ensures match r
              case Some(len) =>
                && IsWalk(V, start, w) && End(start, w) == target && Weight(w) == len == dist[target]
                && PredPath(pred[..], start, w, target)
                && forall u | IsWalk(V, start, u) && End(start, u) == target :: Weight(u) >= len
              case None => forall u | IsWalk(V, start, u) :: End(start, u) != target
      ensures !thrown
    {
      hide Invariant;
      BeginIsInvariant(V, start, pred[..]);
      dist[start] := 0;
      var added := Add(start);
      assert added.Returned?;
      walk := map[start := []];
      w := [];
      assert Now(start) == Begin(|V| - 1, start, pred[..]);
      while !Empty()
        invariant Valid() && Invariant(V, start, Now(start), 0, Null)
        invariant mark[start] == WHITE ==> Contents() == [start]
        invariant target in Open() && !thrown
        decreases Open()
      {
        var x := TakeOne(start);
        if x == target {
          var len := dist[x];
          FoundWalk(start, x, V[x], x);
          w := walk[x];
          return Some(len), w;
        }
        var p := V[x];
        ghost var open := Open();
        while p != Null
          invariant Valid() && mark[start] != WHITE && EdgesOf(x, p) && Invariant(V, start, Now(start), x, p)
          invariant Open() == open && !thrown
          decreases p
        {
          Relax(x, p, start);
          p := p.next;
        }
        AllRelaxed(start, x);
      }
      NoWalkIfEmpty(start, target);
      return None, w;
    }
  }

  lemma AfterEdgeIs(s: Walks.State, s': Walks.State, x: int, p: EdgeList)
    requires |s.dist| == |s.mark| == |s.pred| && 0 <= x < |s.dist| && p != Null && 0 <= p.vid < |s.dist|
    requires var (y, d) := (p.vid, s.dist[x] + p.weight);
             if s.dist[y] == -1 || d < s.dist[y] then
               && s'.dist == s.dist[y := d] && s'.pred == s.pred[y := x]
               && s'.walk == s.walk[y := (if x in s.walk then s.walk[x] else []) + [Step(y, p.weight)]]
             else s'.dist == s.dist && s'.pred == s.pred && s'.walk == s.walk
    requires s'.mark == if s.mark[p.vid] == WHITE then s.mark[p.vid := GREY] else s.mark
    requires s'.queue == if s.mark[p.vid] == WHITE then s.queue + [p.vid] else s.queue
    ensures s' == AfterEdge(s, x, p)
  {
  }
}
