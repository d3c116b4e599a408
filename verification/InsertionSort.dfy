/** insertion_sort.c: sorting a linked list in place through a pointer to a 'next' field. */
module InsertionSort {
  import opened Basics

  datatype Node = Node(value: int, next: Ptr)

  type Memory = map<Ptr, Node>

  /** The address of the variable that holds the first node, or of a 'next' field. */
  datatype Link = First | NextOf(node: Ptr)

  function At(nodes: seq<Ptr>, i: nat): Ptr {
    if i < |nodes| then nodes[i] else NULL
  }

  /** The nodes of the list, in order. */
  predicate Linked(mem: Memory, first: Ptr, nodes: seq<Ptr>) {
    && first == At(nodes, 0)
    && forall i | 0 <= i < |nodes| :: nodes[i] != NULL && nodes[i] in mem && mem[nodes[i]].next == At(nodes, i + 1)
  }

  function Values(mem: Memory): map<Ptr, int> {
    map p | p in mem :: mem[p].value
  }

  predicate InMemory(vals: map<Ptr, int>, nodes: seq<Ptr>) {
    forall p | p in nodes :: p in vals
  }

  /** The node goes in front of the first one whose value is not less. */
  function Insert(vals: map<Ptr, int>, sorted: seq<Ptr>, x: Ptr): seq<Ptr>
    requires InMemory(vals, sorted) && x in vals
  {
    if sorted == [] || vals[sorted[0]] >= vals[x] then [x] + sorted
    else [sorted[0]] + Insert(vals, sorted[1..], x)
  }

  /** The first place from i on whose node is not less than the one behind k. */
  function PlaceFrom(vals: map<Ptr, int>, nodes: seq<Ptr>, k: nat, i: nat): (j: nat)
    requires InMemory(vals, nodes) && i <= k + 1 < |nodes|
    ensures i <= j <= k + 1 && forall x | i <= x < j :: vals[nodes[x]] < vals[nodes[k + 1]]
    ensures j <= k ==> vals[nodes[j]] >= vals[nodes[k + 1]]
    decreases |nodes| - i
  {
    if i > k || vals[nodes[i]] >= vals[nodes[k + 1]] then i else PlaceFrom(vals, nodes, k, i + 1)
  }

  function Sort(vals: map<Ptr, int>, nodes: seq<Ptr>): (s: seq<Ptr>)
    requires InMemory(vals, nodes)
    ensures InMemory(vals, s) && multiset(s) == multiset(nodes) && |s| == |nodes|
    decreases |nodes|
  {
    if nodes == [] then []
    else
      var x := nodes[|nodes| - 1];
      assert nodes == nodes[..|nodes| - 1] + [x];
      InsertElements(vals, Sort(vals, nodes[..|nodes| - 1]), x);
      Insert(vals, Sort(vals, nodes[..|nodes| - 1]), x)
  }

  lemma {:induction false} InsertElements(vals: map<Ptr, int>, sorted: seq<Ptr>, x: Ptr)
    requires InMemory(vals, sorted) && x in vals
    ensures multiset(Insert(vals, sorted, x)) == multiset(sorted) + multiset{x}
    ensures |Insert(vals, sorted, x)| == |sorted| + 1
    ensures forall p :: p in Insert(vals, sorted, x) <==> p in sorted || p == x
    decreases |sorted|
  {
    if sorted != [] && vals[sorted[0]] < vals[x] {
      InsertElements(vals, sorted[1..], x);
      assert sorted == [sorted[0]] + sorted[1..];
    }
  }

  predicate IsSorted(vals: map<Ptr, int>, nodes: seq<Ptr>)
    requires InMemory(vals, nodes)
  {
    forall i, j | 0 <= i < j < |nodes| :: vals[nodes[i]] <= vals[nodes[j]]
  }

  lemma SortedCons(vals: map<Ptr, int>, p: Ptr, rest: seq<Ptr>)
    requires InMemory(vals, rest) && p in vals && IsSorted(vals, rest) && forall q | q in rest :: vals[p] <= vals[q]
    ensures IsSorted(vals, [p] + rest)
  {
    var all := [p] + rest;
    forall i, j | 0 <= i < j < |all| ensures vals[all[i]] <= vals[all[j]] {
      assert all[j] == rest[j - 1] && rest[j - 1] in rest;
      assert i > 0 ==> all[i] == rest[i - 1];
    }
  }

  lemma {:induction false} InsertIsSorted(vals: map<Ptr, int>, sorted: seq<Ptr>, x: Ptr)
    requires InMemory(vals, sorted) && x in vals && IsSorted(vals, sorted)
    ensures InMemory(vals, Insert(vals, sorted, x)) && IsSorted(vals, Insert(vals, sorted, x))
    decreases |sorted|
  {
    InsertElements(vals, sorted, x);
    if sorted == [] || vals[sorted[0]] >= vals[x] {
      SortedCons(vals, x, sorted);
    } else {
      var rest := sorted[1..];
      InsertIsSorted(vals, rest, x);
      InsertElements(vals, rest, x);
      assert forall q | q in rest :: vals[sorted[0]] <= vals[q];
      SortedCons(vals, sorted[0], Insert(vals, rest, x));
    }
  }

  /** The result is in nondecreasing order, and consists of the same nodes. */
  lemma {:induction false} SortIsSorted(vals: map<Ptr, int>, nodes: seq<Ptr>)
    requires InMemory(vals, nodes)
    ensures IsSorted(vals, Sort(vals, nodes)) && multiset(Sort(vals, nodes)) == multiset(nodes)
    decreases |nodes|
  {
    if nodes != [] {
      SortIsSorted(vals, nodes[..|nodes| - 1]);
      InsertIsSorted(vals, Sort(vals, nodes[..|nodes| - 1]), nodes[|nodes| - 1]);
    }
  }

  ghost predicate Before(s: seq<Ptr>, p: Ptr, q: Ptr) {
    exists i, j :: 0 <= i < j < |s| && s[i] == p && s[j] == q
  }

  lemma BeforeCons(s: seq<Ptr>, x: Ptr, p: Ptr, q: Ptr)
    ensures Before(s, p, q) ==> Before([x] + s, p, q)
    ensures q in s ==> Before([x] + s, x, q)
  {
    var all := [x] + s;
    if Before(s, p, q) {
      var i, j :| 0 <= i < j < |s| && s[i] == p && s[j] == q;
      assert all[i + 1] == p && all[j + 1] == q;
    }
    if q in s {
      var j :| 0 <= j < |s| && s[j] == q;
      assert all[0] == x && all[j + 1] == q;
    }
  }

  /** A node goes in front of all nodes with the same value, and the order of the other nodes stays. */
  lemma {:induction false} InsertedInFront(vals: map<Ptr, int>, sorted: seq<Ptr>, x: Ptr, p: Ptr, q: Ptr)
    requires InMemory(vals, sorted) && x in vals && IsSorted(vals, sorted) && p in sorted && q in sorted
    ensures Before(sorted, p, q) ==> Before(Insert(vals, sorted, x), p, q)
    ensures vals[q] == vals[x] ==> Before(Insert(vals, sorted, x), x, q)
    decreases |sorted|
  {
    if vals[sorted[0]] >= vals[x] {
      BeforeCons(sorted, x, p, q);
    } else {
      var rest := sorted[1..];
      InsertElements(vals, rest, x);
      if p in rest && q in rest {
        InsertedInFront(vals, rest, x, p, q);
      } else if q in rest {
        InsertedInFront(vals, rest, x, q, q);
      }
      BeforeCons(Insert(vals, rest, x), sorted[0], p, q);
      BeforeCons(Insert(vals, rest, x), sorted[0], x, q);
      if Before(sorted, p, q) {
        var i, j :| 0 <= i < j < |sorted| && sorted[i] == p && sorted[j] == q;
        assert rest[j - 1] == q;
        if i > 0 {
          assert rest[i - 1] == p;
        }
      }
    }
  }

  /** The sort is not stable: nodes with equal values come out in the reverse of their order. */
  lemma {:induction false} TiesAreReversed(vals: map<Ptr, int>, nodes: seq<Ptr>, i: nat, j: nat)
    requires InMemory(vals, nodes) && i < j < |nodes| && vals[nodes[i]] == vals[nodes[j]]
    ensures Before(Sort(vals, nodes), nodes[j], nodes[i])
    decreases |nodes|
  {
    hide Sort, Insert, Before, IsSorted;
    var before, x, s := LastInserted(vals, nodes);
    if j == |nodes| - 1 {
      InsertedInFront(vals, s, x, nodes[i], nodes[i]);
    } else {
      TiesAreReversed(vals, before, i, j);
      InsertedInFront(vals, s, x, nodes[j], nodes[i]);
    }
  }

  /** The last node is inserted into the sorted nodes before it. */
  lemma LastInserted(vals: map<Ptr, int>, nodes: seq<Ptr>) returns (before: seq<Ptr>, x: Ptr, s: seq<Ptr>)
    requires InMemory(vals, nodes) && nodes != []
    ensures nodes == before + [x] && InMemory(vals, before) && s == Sort(vals, before)
    ensures InMemory(vals, s) && IsSorted(vals, s) && Sort(vals, nodes) == Insert(vals, s, x)
    ensures forall k | 0 <= k < |before| :: before[k] in s
  {
    before, x := nodes[..|nodes| - 1], nodes[|nodes| - 1];
    s := Sort(vals, before);
    SortIsSorted(vals, before);
    forall k | 0 <= k < |before| ensures before[k] in s {
      assert before[k] in multiset(before);
    }
  }

  /** Where a node goes, by comparing it with the nodes one after the other. */
  lemma {:induction false} InsertAt(vals: map<Ptr, int>, sorted: seq<Ptr>, x: Ptr, j: nat)
    requires InMemory(vals, sorted) && x in vals && j <= |sorted|
    requires forall i | 0 <= i < j :: vals[sorted[i]] < vals[x]
    requires j < |sorted| ==> vals[sorted[j]] >= vals[x]
    ensures Insert(vals, sorted, x) == sorted[..j] + [x] + sorted[j..]
    decreases j
  {
    if j > 0 {
      InsertAt(vals, sorted[1..], x, j - 1);
      assert sorted[..j] == [sorted[0]] + sorted[1..][..j - 1];
      assert sorted[1..][j - 1..] == sorted[j..];
    }
  }

  /** The nodes after the node at place k + 1 has been moved to place j. */
  function Moved(nodes: seq<Ptr>, j: nat, k: nat): seq<Ptr>
    requires j <= k && k + 1 < |nodes|
  {
    nodes[..j] + [nodes[k + 1]] + nodes[j..k + 1] + nodes[k + 2..]
  }

  /** Where the node that is now at place i was before. */
  function Origin(j: nat, k: nat, i: nat): nat {
    if i < j then i else if i == j then k + 1 else if i <= k + 1 then i - 1 else i
  }

  lemma MovedAt(nodes: seq<Ptr>, j: nat, k: nat, i: nat)
    requires j <= k && k + 1 < |nodes|
    ensures At(Moved(nodes, j, k), i) == At(nodes, Origin(j, k, i)) && |Moved(nodes, j, k)| == |nodes|
  {
  }

  lemma MovedIsDistinct(nodes: seq<Ptr>, j: nat, k: nat)
    requires j <= k && k + 1 < |nodes| && NoDuplicates(nodes)
    ensures NoDuplicates(Moved(nodes, j, k))
  {
    hide Moved, NoDuplicates;
    forall i, m | 0 <= i < m < |Moved(nodes, j, k)| ensures Moved(nodes, j, k)[i] != Moved(nodes, j, k)[m] {
      MovedAt(nodes, j, k, i);
      MovedAt(nodes, j, k, m);
      Apart(nodes, Origin(j, k, i), Origin(j, k, m));
    }
    FromPairs(Moved(nodes, j, k));
  }

  lemma FromPairs(nodes: seq<Ptr>)
    requires forall i, m | 0 <= i < m < |nodes| :: nodes[i] != nodes[m]
    ensures NoDuplicates(nodes)
  {
  }

  lemma Apart(nodes: seq<Ptr>, i: nat, m: nat)
    requires NoDuplicates(nodes) && i < |nodes| && m < |nodes| && i != m
    ensures nodes[i] != nodes[m]
  {
  }

  lemma LinkedAt(mem: Memory, first: Ptr, nodes: seq<Ptr>, i: nat)
    requires Linked(mem, first, nodes) && i < |nodes|
    ensures nodes[i] != NULL && nodes[i] in mem && mem[nodes[i]].next == At(nodes, i + 1)
  {
    hide At;
  }

  /** The memory after the three assignments that move the node at place k + 1 to place j. */
  function Relinked(mem: Memory, nodes: seq<Ptr>, j: nat, k: nat): Memory
    requires j <= k && k + 1 < |nodes| && forall p | p in nodes :: p in mem
  {
    var (x, last) := (nodes[k + 1], nodes[k]);
    var mem1 := mem[last := mem[last].(next := mem[x].next)];
    var mem2 := mem1[x := mem1[x].(next := nodes[j])];
    if j == 0 then mem2 else mem2[nodes[j - 1] := mem2[nodes[j - 1]].(next := x)]
  }

  lemma NextAfterMove(mem: Memory, first: Ptr, nodes: seq<Ptr>, j: nat, k: nat, i: nat)
    requires Linked(mem, first, nodes) && NoDuplicates(nodes) && j <= k && k + 1 < |nodes| && i < |nodes|
    requires forall p | p in nodes :: p in mem
    ensures nodes[i] in Relinked(mem, nodes, j, k)
    ensures Relinked(mem, nodes, j, k)[nodes[i]].next ==
            if i == k then At(nodes, k + 2) else if i == k + 1 then nodes[j]
            else if i + 1 == j then nodes[k + 1] else At(nodes, i + 1)
  {
    hide Linked, NoDuplicates, At;
    LinkedAt(mem, first, nodes, i);
    LinkedAt(mem, first, nodes, k + 1);
    if i != k { Apart(nodes, i, k); }
    if i != k + 1 { Apart(nodes, i, k + 1); }
    Apart(nodes, k, k + 1);
    if j > 0 {
      Apart(nodes, k, j - 1);
      Apart(nodes, k + 1, j - 1);
      if i != j - 1 { Apart(nodes, i, j - 1); }
    }
  }

  lemma FromLinks(mem: Memory, first: Ptr, nodes: seq<Ptr>)
    requires first == At(nodes, 0)
    requires forall i | 0 <= i < |nodes| ::
               nodes[i] != NULL && nodes[i] in mem && mem[nodes[i]].next == At(nodes, i + 1)
    ensures Linked(mem, first, nodes)
  {
    hide At;
  }

  lemma NodesInMemory(mem: Memory, first: Ptr, nodes: seq<Ptr>)
    requires Linked(mem, first, nodes)
    ensures forall p | p in nodes :: p in mem && p != NULL
  {
    hide At;
  }

  /** The three assignments change no value, and no node outside the list. */
  lemma RelinkedFrame(mem: Memory, nodes: seq<Ptr>, j: nat, k: nat)
    requires j <= k && k + 1 < |nodes| && forall p | p in nodes :: p in mem
    ensures Values(Relinked(mem, nodes, j, k)) == Values(mem)
    ensures forall p | p in mem && p !in nodes ::
              p in Relinked(mem, nodes, j, k) && Relinked(mem, nodes, j, k)[p] == mem[p]
  {
  }

  /** The three assignments move the node. */
  lemma MoveIsLinked(mem: Memory, first: Ptr, nodes: seq<Ptr>, j: nat, k: nat)
    requires Linked(mem, first, nodes) && NoDuplicates(nodes) && j <= k && k + 1 < |nodes|
    ensures (forall p | p in nodes :: p in mem) && Values(Relinked(mem, nodes, j, k)) == Values(mem)
    ensures Linked(Relinked(mem, nodes, j, k), if j == 0 then nodes[k + 1] else first, Moved(nodes, j, k))
    ensures NoDuplicates(Moved(nodes, j, k))
    ensures forall p | p in mem && p !in nodes ::
              p in Relinked(mem, nodes, j, k) && Relinked(mem, nodes, j, k)[p] == mem[p]
  {
    hide NoDuplicates, Moved, Relinked, Linked, At, Values;
    NodesInMemory(mem, first, nodes);
    RelinkedFrame(mem, nodes, j, k);
    MovedIsDistinct(nodes, j, k);
    var mem', nodes' := Relinked(mem, nodes, j, k), Moved(nodes, j, k);
    MovedAt(nodes, j, k, 0);
    AtIs(nodes, 0);
    AtIs(nodes, k + 1);
    Starts(mem, first, nodes);
    forall i | 0 <= i < |nodes'|
      ensures nodes'[i] != NULL && nodes'[i] in mem' && mem'[nodes'[i]].next == At(nodes', i + 1)
    {
      var from := Origin(j, k, i);
      MovedAt(nodes, j, k, i);
      MovedAt(nodes, j, k, i + 1);
      AtIs(nodes', i);
      AtIs(nodes, from);
      AtIs(nodes, j);
      NextAfterMove(mem, first, nodes, j, k, from);
      assert nodes[from] in nodes;
    }
    FromLinks(mem', if j == 0 then nodes[k + 1] else first, nodes');
  }

  lemma AtIs(nodes: seq<Ptr>, i: nat)
    ensures At(nodes, i) == if i < |nodes| then nodes[i] else NULL
  {
  }

  lemma Starts(mem: Memory, first: Ptr, nodes: seq<Ptr>)
    requires Linked(mem, first, nodes)
    ensures first == At(nodes, 0)
  {
    hide At;
  }

  /** What the outer loop has done: the first k + 1 nodes are sorted, the others are untouched. */
  predicate SortedSoFar(vals: map<Ptr, int>, original: seq<Ptr>, nodes: seq<Ptr>, k: nat) {
    && k < |nodes| == |original| && InMemory(vals, original)
    && nodes == Sort(vals, original[..k + 1]) + original[k + 1..]
  }

  lemma FirstIsSorted(vals: map<Ptr, int>, original: seq<Ptr>)
    requires InMemory(vals, original)
    ensures original != [] ==> SortedSoFar(vals, original, original, 0)
    ensures original == [] ==> Sort(vals, original) == original
  {
    if original != [] {
      assert original[..1][..0] == [] && original == original[..1] + original[1..];
    }
  }

  lemma AllSorted(vals: map<Ptr, int>, original: seq<Ptr>, nodes: seq<Ptr>, k: nat)
    requires SortedSoFar(vals, original, nodes, k) && k + 1 == |nodes|
    ensures nodes == Sort(vals, original)
  {
    assert original[..k + 1] == original && original[k + 1..] == [];
  }

  lemma OneMoreIsSorted(vals: map<Ptr, int>, original: seq<Ptr>, nodes: seq<Ptr>, k: nat, j: nat)
    requires SortedSoFar(vals, original, nodes, k) && k + 1 < |nodes| && j <= k + 1
    requires InMemory(vals, nodes)
    requires forall i | 0 <= i < j :: vals[nodes[i]] < vals[nodes[k + 1]]
    requires j <= k ==> vals[nodes[j]] >= vals[nodes[k + 1]]
    ensures SortedSoFar(vals, original, if j <= k then Moved(nodes, j, k) else nodes, k + 1)
  {
    hide Insert;
    var sorted, x := Sort(vals, original[..k + 1]), original[k + 1];
    assert nodes[..k + 1] == sorted && nodes[k + 1] == x && nodes[k + 2..] == original[k + 2..];
    assert original[..k + 2][..k + 1] == original[..k + 1] && original[..k + 2][k + 1] == x;
    InsertAt(vals, sorted, x, j);
    assert Sort(vals, original[..k + 2]) == Insert(vals, sorted, x);
    if j <= k {
      assert sorted[..j] == nodes[..j] && sorted[j..] == nodes[j..k + 1];
    } else {
      assert sorted[..j] == sorted && sorted[j..] == [];
      assert nodes == sorted + [x] + nodes[k + 2..];
    }
  }

  function LinkTo(nodes: seq<Ptr>, j: nat): Link
    requires j <= |nodes|
  {
    if j == 0 then First else NextOf(nodes[j - 1])
  }

  function Compare(v: int, w: int): int {
    if v < w then -1 else if v > w then 1 else 0
  }

  class List {
    var mem: Memory
    var first: Ptr
    ghost var nodes: seq<Ptr>

    ghost predicate Valid()
      reads this
    {
      Linked(mem, first, nodes) && NoDuplicates(nodes)
    }

    constructor (mem: Memory, first: Ptr, ghost nodes: seq<Ptr>)
      requires Linked(mem, first, nodes) && NoDuplicates(nodes)
      ensures Valid() && this.mem == mem && this.first == first && this.nodes == nodes
    {
      this.mem, this.first, this.nodes := mem, first, nodes;
    }

    /** '*pn' */
    function Deref(pn: Link): Ptr
      requires pn.NextOf? ==> pn.node in mem
      reads this
    {
      if pn.First? then first else mem[pn.node].next
    }

    lemma LinkLeadsTo(j: nat)
      requires Valid() && j <= |nodes|
      ensures (LinkTo(nodes, j).NextOf? ==> LinkTo(nodes, j).node in mem) && Deref(LinkTo(nodes, j)) == At(nodes, j)
      ensures j < |nodes| ==> At(nodes, j) == nodes[j] && nodes[j] in mem && nodes[j] != NULL
      ensures j == |nodes| ==> At(nodes, j) == NULL
    {
      if j > 0 {
        LinkedAt(mem, first, nodes, j - 1);
      }
      if j < |nodes| {
        LinkedAt(mem, first, nodes, j);
      }
    }

    /** The inner loop: the place in front of which the first unsorted node belongs. */
    method FindPlace(last: Ptr, ghost k: nat) returns (pn: Link, ghost j: nat)
      requires Valid() && k + 1 < |nodes| && last == nodes[k]
      ensures j <= k + 1 && pn == LinkTo(nodes, j) && InMemory(Values(mem), nodes)
      ensures pn == LinkTo(nodes, PlaceFrom(Values(mem), nodes, k, 0))
      ensures forall i | 0 <= i < j :: Values(mem)[nodes[i]] < Values(mem)[nodes[k + 1]]
      ensures j <= k ==> Values(mem)[nodes[j]] >= Values(mem)[nodes[k + 1]]
      ensures pn == NextOf(last) <==> j == k + 1
    {
      hide Linked, NoDuplicates, At;
      NodesInMemory(mem, first, nodes);
      LinkLeadsTo(0);
      LinkLeadsTo(k);
      LinkLeadsTo(k + 1);
      pn, j := First, 0;
      ghost var place := PlaceFrom(Values(mem), nodes, k, 0);
      var comparison := Compare(mem[Deref(pn)].value, mem[mem[last].next].value);
      while pn != NextOf(last) && comparison < 0
        invariant j <= k + 1 && pn == LinkTo(nodes, j) && PlaceFrom(Values(mem), nodes, k, j) == place
        invariant j <= k ==> comparison == Compare(mem[nodes[j]].value, mem[nodes[k + 1]].value)
        invariant forall i | 0 <= i < j :: mem[nodes[i]].value < mem[nodes[k + 1]].value
        decreases k + 1 - j
      {
        LinkLeadsTo(j);
        LinkIsLast(j, k);
        pn := NextOf(Deref(pn));
        j := j + 1;
        LinkLeadsTo(j);
        LinkIsLast(j, k);
        if pn != NextOf(last) {
          comparison := Compare(mem[Deref(pn)].value, mem[mem[last].next].value);
        }
      }
      LinkIsLast(j, k);
    }

    lemma LinkIsLast(j: nat, k: nat)
      requires Valid() && k < |nodes| && j <= k + 1
      ensures LinkTo(nodes, j) == NextOf(nodes[k]) <==> j == k + 1
    {
      if 0 < j <= k {
        Apart(nodes, j - 1, k);
      }
    }

    /** 'insertion_sort_core': the same nodes are linked in the order of their values. Their values, and all other
        nodes, are unchanged. */
    method InsertionSortCore()
      requires Valid()
      modifies this
      ensures Valid() && Values(mem) == old(Values(mem)) && OthersKept(old(mem), mem, old(nodes))
      ensures InMemory(Values(mem), nodes) && IsSorted(Values(mem), nodes) && multiset(nodes) == multiset(old(nodes))
      ensures InMemory(Values(mem), old(nodes)) && nodes == Sort(Values(mem), old(nodes))
    {
      hide Linked, NoDuplicates, At, Values, SortedSoFar, Sort, InMemory, OthersKept, IsSorted;
      NodesInMemory(mem, first, nodes);
      ghost var original, vals, mem0 := nodes, Values(mem), mem;
      ValuesOf(mem, nodes);
      SortIsSorted(vals, original);
      LinkLeadsTo(0);
      FirstIsSorted(vals, original);
      KeptAtFirst(mem, original);
      if first == NULL {
        return;
      }
      var last := first;
      ghost var k := 0;
      LinkLeadsTo(1);
      while mem[last].next != NULL
        invariant Valid() && Values(mem) == vals && InMemory(vals, original) && OthersKept(mem0, mem, original)
        invariant SortedSoFar(vals, original, nodes, k) && |nodes| == |original|
        invariant k < |nodes| && last == nodes[k] && last in mem && mem[last].next == At(nodes, k + 1)
        invariant At(nodes, k + 1) == NULL <==> k + 1 == |nodes|
        decreases |nodes| - k
      {
        last := SortOne(last, original, vals, k, mem0);
        k := k + 1;
      }
      AllSorted(vals, original, nodes, k);
    }

    /** The body of the outer loop: the first unsorted node is put in its place. */
    method SortOne(last: Ptr, ghost original: seq<Ptr>, ghost vals: map<Ptr, int>, ghost k: nat, ghost mem0: Memory)
      returns (last': Ptr)
      requires Valid() && Values(mem) == vals && OthersKept(mem0, mem, original)
      requires SortedSoFar(vals, original, nodes, k) && k + 1 < |nodes| && last == nodes[k]
      modifies this
      ensures Valid() && Values(mem) == vals && OthersKept(mem0, mem, original)
      ensures SortedSoFar(vals, original, nodes, k + 1) && |nodes| == old(|nodes|)
      ensures last' == nodes[k + 1] && last' in mem && mem[last'].next == At(nodes, k + 2)
      ensures At(nodes, k + 2) == NULL <==> k + 2 == |nodes|
    {
      hide Linked, NoDuplicates, At, Moved, Values, SortedSoFar, Sort, OthersKept;
      var pn;
      ghost var j;
      pn, j := FindPlace(last, k);
      LinkLeadsTo(k + 1);
      OneMoreIsSorted(vals, original, nodes, k, j);
      if pn != NextOf(last) {
        ghost var mem1, nodes1 := mem, nodes;
        MoveNode(pn, last, j, k);
        OthersKeptByMove(mem0, mem1, mem, vals, original, nodes1, k);
        last' := last;
      } else {
        last' := mem[last].next;
      }
      LinkLeadsTo(k + 1);
      LinkedAt(mem, first, nodes, k + 1);
      LinkLeadsTo(k + 2);
    }

    /** The first unsorted node is taken out behind 'last' and put where 'pn' points. */
    method MoveNode(pn: Link, last: Ptr, ghost j: nat, ghost k: nat)
      requires Valid() && j <= k && k + 1 < |nodes| && last == nodes[k] && pn == LinkTo(nodes, j)
      modifies this
      ensures Valid() && nodes == Moved(old(nodes), j, k) && |nodes| == old(|nodes|) && nodes[k + 1] == last
      ensures Values(mem) == old(Values(mem)) && OthersKept(old(mem), mem, old(nodes))
    {
      hide Linked, NoDuplicates, At;
      NodesInMemory(mem, first, nodes);
      LinkLeadsTo(j);
      LinkLeadsTo(k);
      LinkLeadsTo(k + 1);
      MoveIsLinked(mem, first, nodes, j, k);
      LinkIsLast(j, k);
      var firstUnsorted := mem[last].next;
      mem := mem[last := mem[last].(next := mem[firstUnsorted].next)];
      mem := mem[firstUnsorted := mem[firstUnsorted].(next := Deref(pn))];
      if pn.First? {
        first := firstUnsorted;
      } else {
        mem := mem[pn.node := mem[pn.node].(next := firstUnsorted)];
      }
      MovedElements(nodes, j, k);
      nodes := Moved(nodes, j, k);
    }
  }

  /** Nodes outside the list are as they were. */
  predicate OthersKept(mem: Memory, mem': Memory, nodes: seq<Ptr>) {
    mem'.Keys == mem.Keys && forall p | p in mem && p !in nodes :: mem'[p] == mem[p]
  }

  lemma KeptAtFirst(mem: Memory, nodes: seq<Ptr>)
    ensures OthersKept(mem, mem, nodes)
  {
  }

  lemma OthersKeptByMove(mem0: Memory, mem1: Memory, mem: Memory, vals: map<Ptr, int>, original: seq<Ptr>,
                         nodes: seq<Ptr>, k: nat)
    requires OthersKept(mem0, mem1, original) && OthersKept(mem1, mem, nodes) && SortedSoFar(vals, original, nodes, k)
    ensures OthersKept(mem0, mem, original)
  {
    forall p | p in nodes ensures p in original {
      assert original == original[..k + 1] + original[k + 1..];
      assert multiset(nodes) == multiset(original);
      assert p in multiset(nodes);
    }
  }

  lemma ValuesOf(mem: Memory, nodes: seq<Ptr>)
    ensures (forall p | p in nodes :: p in mem) ==> InMemory(Values(mem), nodes)
    ensures Values(mem).Keys == mem.Keys
  {
  }

  lemma MovedElements(nodes: seq<Ptr>, j: nat, k: nat)
    requires j <= k && k + 1 < |nodes|
    ensures forall p :: p in Moved(nodes, j, k) <==> p in nodes
    ensures |Moved(nodes, j, k)| == |nodes| && Moved(nodes, j, k)[k + 1] == nodes[k]
  {
    assert nodes == nodes[..j] + nodes[j..k + 1] + [nodes[k + 1]] + nodes[k + 2..];
  }
}
