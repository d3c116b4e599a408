/** composite4.c: binary trees with parent pointers and stored counts, seen from any of their nodes. What is around a
    subtree is its context; moving the focus does not change the tree. */
module TreeContext {
  import opened Basics
  import opened Objects

  const INT_MAX: int := 0x7fff_ffff

  datatype Tree = Empty | Node(id: Ptr, left: Tree, right: Tree)

  datatype Context = Top | InLeft(above: Context, id: Ptr, right: Tree) | InRight(above: Context, id: Ptr, left: Tree)

  datatype Path = Here | Left(rest: Path) | Right(rest: Path)

  function Count(t: Tree): nat {
    if t == Empty then 0 else 1 + Count(t.left) + Count(t.right)
  }

  /** The whole tree. */
  function Combine(c: Context, t: Tree): Tree {
    match c
    case Top => t
    case InLeft(above, id, right) => Combine(above, Node(id, t, right))
    case InRight(above, id, left) => Combine(above, Node(id, left, t))
  }

  /** A path below the focus as a path from the root. */
  function CombinePath(c: Context, p: Path): Path {
    match c
    case Top => p
    case InLeft(above, _, _) => CombinePath(above, Left(p))
    case InRight(above, _, _) => CombinePath(above, Right(p))
  }

  predicate Contains(t: Tree, p: Path, n: Ptr) {
    t.Node? &&
    match p
    case Here => t.id == n
    case Left(rest) => Contains(t.left, rest, n)
    case Right(rest) => Contains(t.right, rest, n)
  }

  function ContextAt(c: Context, t: Tree, p: Path): Context
    decreases p
  {
    if t == Empty then c
    else
      match p
      case Here => c
      case Left(rest) => ContextAt(InLeft(c, t.id, t.right), t.left, rest)
      case Right(rest) => ContextAt(InRight(c, t.id, t.left), t.right, rest)
  }

  function SubtreeAt(t: Tree, p: Path): Tree
    decreases p
  {
    if t == Empty then Empty
    else
      match p
      case Here => t
      case Left(rest) => SubtreeAt(t.left, rest)
      case Right(rest) => SubtreeAt(t.right, rest)
  }

  /** Splitting a tree at a path and putting it together again gives the tree, and the focus is on the node that is
      found along the path. */
  lemma {:induction false} SplitAndCombine(c: Context, t: Tree, p: Path)
    ensures Combine(ContextAt(c, t, p), SubtreeAt(t, p)) == Combine(c, t)
    ensures SubtreeAt(t, p).Node? ==> Contains(t, p, SubtreeAt(t, p).id)
    ensures forall n | Contains(t, p, n) :: SubtreeAt(t, p).Node? && SubtreeAt(t, p).id == n
    decreases p
  {
    if t != Empty && p != Here {
      match p
      case Left(rest) => SplitAndCombine(InLeft(c, t.id, t.right), t.left, rest);
      case Right(rest) => SplitAndCombine(InRight(c, t.id, t.left), t.right, rest);
    }
  }

  /** Combining and splitting at the path that the context describes gives back both parts. */
  lemma {:induction false} CombineAndSplit(c: Context, t: Tree, p: Path)
    ensures SubtreeAt(Combine(c, t), CombinePath(c, p)) == SubtreeAt(t, p)
    ensures ContextAt(Top, Combine(c, t), CombinePath(c, p)) == ContextAt(c, t, p)
    ensures forall n :: Contains(Combine(c, t), CombinePath(c, p), n) <==> Contains(t, p, n)
    decreases c
  {
    match c
    case Top =>
    case InLeft(above, id, right) => CombineAndSplit(above, Node(id, t, right), Left(p));
    case InRight(above, id, left) => CombineAndSplit(above, Node(id, left, t), Right(p));
  }

  datatype Cell = Cell(left: Ptr, right: Ptr, parent: Ptr, count: int)

  type Memory = map<Ptr, Cell>

  function Ids(t: Tree): set<Ptr> {
    if t == Empty then {} else {t.id} + Ids(t.left) + Ids(t.right)
  }

  predicate Distinct(t: Tree) {
    t.Node? ==>
      && t.id !in Ids(t.left) && t.id !in Ids(t.right) && Ids(t.left) !! Ids(t.right)
      && Distinct(t.left) && Distinct(t.right)
  }

  predicate Subtree(mem: Memory, node: Ptr, parent: Ptr, t: Tree)
    decreases t
  {
    match t
    case Empty => node == NULL
    case Node(id, left, right) =>
      && node == id && id != NULL && id in mem && mem[id].parent == parent && mem[id].count == Count(t)
      && Subtree(mem, mem[id].left, id, left) && Subtree(mem, mem[id].right, id, right)
  }

  function ParentIn(c: Context): Ptr {
    if c == Top then NULL else c.id
  }

  /** What is around a subtree with the given root and count. */
  predicate Around(mem: Memory, node: Ptr, count: int, c: Context)
    decreases c
  {
    match c
    case Top => true
    case InLeft(above, p, right) =>
      && p != NULL && p in mem && mem[p].left == node && mem[p].parent == ParentIn(above)
      && mem[p].count == 1 + count + Count(right)
      && Subtree(mem, mem[p].right, p, right) && Around(mem, p, mem[p].count, above)
    case InRight(above, p, left) =>
      && p != NULL && p in mem && mem[p].right == node && mem[p].parent == ParentIn(above)
      && mem[p].count == 1 + Count(left) + count
      && Subtree(mem, mem[p].left, p, left) && Around(mem, p, mem[p].count, above)
  }

  /** The memory holds one tree and nothing else, seen from 'node'. */
  predicate Focus(mem: Memory, node: Ptr, c: Context, t: Tree) {
    && Around(mem, node, Count(t), c) && Subtree(mem, node, ParentIn(c), t)
    && Distinct(Combine(c, t)) && mem.Keys == Ids(Combine(c, t))
  }

  function RootId(t: Tree): Ptr {
    if t == Empty then NULL else t.id
  }

  lemma SubtreeRoot(mem: Memory, node: Ptr, parent: Ptr, t: Tree)
    requires Subtree(mem, node, parent, t)
    ensures node == RootId(t)
  {
  }

  /** The tree around a subtree, as one subtree of the parent. */
  function Above(c: Context, t: Tree): Tree
    requires c != Top
  {
    if c.InLeft? then Node(c.id, t, c.right) else Node(c.id, c.left, t)
  }

  /** Moving the focus to the parent, or back. */
  lemma GoUp(mem: Memory, c: Context, t: Tree)
    requires c != Top
    ensures Focus(mem, RootId(t), c, t) <==> Focus(mem, c.id, c.above, Above(c, t))
  {
    hide Distinct, Ids;
    if Focus(mem, c.id, c.above, Above(c, t)) {
      SubtreeRoot(mem, if c.InLeft? then mem[c.id].left else mem[c.id].right, c.id, t);
    }
  }

  /** Seen from any of its nodes it is the same tree as seen from the root. */
  lemma {:induction false} GoToRoot(mem: Memory, c: Context, t: Tree)
    ensures Focus(mem, RootId(t), c, t) <==> Focus(mem, RootId(Combine(c, t)), Top, Combine(c, t))
    decreases c
  {
    hide Focus;
    if c != Top {
      GoUp(mem, c, t);
      GoToRoot(mem, c.above, Above(c, t));
    }
  }

  /** The focus can be moved to any node of the tree. */
  lemma ChangeFocus(mem: Memory, node: Ptr, c: Context, t: Tree, p: Path, n: Ptr)
    requires Focus(mem, node, c, t) && Contains(Combine(c, t), p, n)
    ensures Focus(mem, n, ContextAt(Top, Combine(c, t), p), SubtreeAt(Combine(c, t), p))
  {
    hide Distinct, Ids, Around;
    var whole := Combine(c, t);
    SubtreeRoot(mem, node, ParentIn(c), t);
    GoToRoot(mem, c, t);
    SplitAndCombine(Top, whole, p);
    GoToRoot(mem, ContextAt(Top, whole, p), SubtreeAt(whole, p));
  }

  function ContextIds(c: Context): set<Ptr> {
    match c
    case Top => {}
    case InLeft(above, id, right) => {id} + Ids(right) + ContextIds(above)
    case InRight(above, id, left) => {id} + Ids(left) + ContextIds(above)
  }

  function Sibling(c: Context): Tree
    requires c != Top
  {
    if c.InLeft? then c.right else c.left
  }

  predicate DistinctContext(c: Context) {
    c != Top ==>
      && c.id !in Ids(Sibling(c)) && c.id !in ContextIds(c.above) && Ids(Sibling(c)) !! ContextIds(c.above)
      && Distinct(Sibling(c)) && DistinctContext(c.above)
  }

  lemma {:induction false} CombinedIds(c: Context, t: Tree)
    ensures Ids(Combine(c, t)) == ContextIds(c) + Ids(t)
    ensures Distinct(Combine(c, t)) <==> DistinctContext(c) && Distinct(t) && Ids(t) !! ContextIds(c)
    decreases c
  {
    if c != Top {
      CombinedIds(c.above, Above(c, t));
    }
  }

  /** The count of the whole tree if the subtree has the given count. */
  function Total(c: Context, count: nat): nat {
    match c
    case Top => count
    case InLeft(above, _, right) => Total(above, 1 + count + Count(right))
    case InRight(above, _, left) => Total(above, 1 + Count(left) + count)
  }

  lemma {:induction false} CombinedCount(c: Context, t: Tree)
    ensures Count(Combine(c, t)) == Total(c, Count(t))
    decreases c
  {
    if c != Top {
      CombinedCount(c.above, Above(c, t));
    }
  }

  lemma {:induction false} TotalGrows(c: Context, count: nat)
    ensures Total(c, count) >= count
    decreases c
  {
    if c != Top {
      TotalGrows(c.above, 1 + count + Count(Sibling(c)));
    }
  }

  lemma TotalAbove(c: Context, count: nat)
    ensures c == Top ==> Total(c, count) == count
    ensures c != Top ==>
              && Total(c, count) == Total(c.above, 1 + count + Count(Sibling(c)))
              && Total(c, count) >= 1 + count + Count(Sibling(c))
  {
    if c != Top {
      TotalGrows(c.above, 1 + count + Count(Sibling(c)));
    }
  }

  lemma {:induction false} SubtreeFrame(mem: Memory, mem': Memory, node: Ptr, parent: Ptr, t: Tree)
    requires Subtree(mem, node, parent, t) && forall x | x in Ids(t) && x in mem :: x in mem' && mem'[x] == mem[x]
    ensures Subtree(mem', node, parent, t)
    decreases t
  {
    if t != Empty {
      SubtreeFrame(mem, mem', mem[t.id].left, t.id, t.left);
      SubtreeFrame(mem, mem', mem[t.id].right, t.id, t.right);
    }
  }

  lemma {:induction false} AroundFrame(mem: Memory, mem': Memory, node: Ptr, count: int, c: Context)
    requires Around(mem, node, count, c) && forall x | x in ContextIds(c) && x in mem :: x in mem' && mem'[x] == mem[x]
    ensures Around(mem', node, count, c)
    decreases c
  {
    if c != Top {
      SubtreeFrame(mem, mem', if c.InLeft? then mem[c.id].right else mem[c.id].left, c.id, Sibling(c));
      AroundFrame(mem, mem', c.id, mem[c.id].count, c.above);
    }
  }

  /** The nodes on the way to the root. */
  function Ancestors(c: Context): set<Ptr> {
    if c == Top then {} else {c.id} + Ancestors(c.above)
  }

  lemma {:induction false} AncestorsInContext(c: Context)
    ensures Ancestors(c) <= ContextIds(c)
    decreases c
  {
    if c != Top {
      AncestorsInContext(c.above);
    }
  }

  class Forest {
    var mem: Memory

    method CreateNode(p: Ptr) returns (n: Ptr)
      modifies this
      ensures n !in old(mem) && n != NULL && mem == old(mem)[n := Cell(NULL, NULL, p, 1)]
    {
      n := Malloc(mem);
      mem := mem[n := Cell(NULL, NULL, p, 1)];
    }

    constructor ()
      ensures mem == map[]
    {
      mem := map[];
    }

    /** 'create_tree' */
    method CreateTree() returns (n: Ptr)
      requires mem == map[]
      modifies this
      ensures Focus(mem, n, Top, Node(n, Empty, Empty))
    {
      n := CreateNode(NULL);
    }

    method SubtreeGetCount(node: Ptr, ghost parent: Ptr, ghost t: Tree) returns (count: int)
      requires Subtree(mem, node, parent, t)
      ensures count == Count(t)
    {
      count := if node != NULL then mem[node].count else 0;
    }

    /** 'fixup_ancestors': the counts of the ancestors are made those of a subtree with the given count. It fails, in
        the source by 'abort', exactly if the count of the whole tree does not fit. */
    method FixupAncestors(n: Ptr, p: Ptr, count: int, ghost c: Context, ghost oldCount: int) returns (ok: bool)
      requires Around(mem, n, oldCount, c) && p == ParentIn(c) && 0 <= count <= INT_MAX && n != NULL
      requires DistinctContext(c) && n !in ContextIds(c)
      modifies this
      ensures ok <==> Total(c, count) <= INT_MAX
      ensures ok ==> Around(mem, n, count, c)
      ensures mem.Keys == old(mem.Keys) && forall x | x in mem && x !in Ancestors(c) :: mem[x] == old(mem)[x]
      decreases c
    {
      hide Total, Distinct, Ids, Count;
      TotalAbove(c, count);
      if p == NULL {
        return true;
      }
      var (left, right, grandparent) := (mem[p].left, mem[p].right, mem[p].parent);
      var leftCount, rightCount := count, count;
      if n == left {
        NotTheSibling(mem, n, oldCount, c);
        rightCount := SubtreeGetCount(right, p, c.right);
      } else {
        leftCount := SubtreeGetCount(left, p, c.left);
      }
      if INT_MAX - 1 - leftCount < rightCount {
        return false;
      }
      ghost var mem0 := mem;
      mem := mem[p := mem[p].(count := 1 + leftCount + rightCount)];
      AroundFrame(mem0, mem, p, mem0[p].count, c.above);
      ok := FixupAncestors(p, grandparent, 1 + leftCount + rightCount, c.above, mem0[p].count);
      AncestorsInContext(c.above);
      SubtreeFrame(mem0, mem, if c.InLeft? then right else left, p, Sibling(c));
    }

    /** 'tree_add_left': the focus moves to the new node. It fails exactly if the tree has become too large. */
    method AddLeft(node: Ptr, ghost c: Context, ghost t: Tree) returns (r: Option<Ptr>)
      requires Focus(mem, node, c, t) && t.Node? && t.left == Empty
      modifies this
      ensures match r
              case None => Count(Combine(c, t)) + 1 > INT_MAX
              case Some(n) =>
                && n !in old(mem) && Count(Combine(c, t)) + 1 <= INT_MAX
                && Focus(mem, n, InLeft(c, node, t.right), Node(n, Empty, Empty))
    {
      ghost var c' := InLeft(c, node, t.right);
      var n := CreateNode(node);
      mem := mem[node := mem[node].(left := n)];
      NewLeaf(old(mem), mem, node, c, t, c', n);
      var ok := FixupAncestors(n, node, 1, c', 0);
      if !ok {
        return None;
      }
      AncestorsInContext(c');
      return Some(n);
    }

    /** 'tree_add_right' */
    method AddRight(node: Ptr, ghost c: Context, ghost t: Tree) returns (r: Option<Ptr>)
      requires Focus(mem, node, c, t) && t.Node? && t.right == Empty
      modifies this
      ensures match r
              case None => Count(Combine(c, t)) + 1 > INT_MAX
              case Some(n) =>
                && n !in old(mem) && Count(Combine(c, t)) + 1 <= INT_MAX
                && Focus(mem, n, InRight(c, node, t.left), Node(n, Empty, Empty))
    {
      ghost var c' := InRight(c, node, t.left);
      var n := CreateNode(node);
      mem := mem[node := mem[node].(right := n)];
      NewLeaf(old(mem), mem, node, c, t, c', n);
      var ok := FixupAncestors(n, node, 1, c', 0);
      if !ok {
        return None;
      }
      AncestorsInContext(c');
      return Some(n);
    }

    /** 'tree_get_parent' */
    method GetParent(node: Ptr, ghost c: Context, ghost t: Tree) returns (p: Ptr)
      requires Focus(mem, node, c, t) && c != Top && t != Empty
      ensures p == c.id && Focus(mem, p, c.above, Above(c, t))
    {
      hide Distinct, Ids, Around;
      SubtreeRoot(mem, node, ParentIn(c), t);
      GoUp(mem, c, t);
      p := mem[node].parent;
    }

    /** 'subtree_dispose': every node is freed once. */
    method SubtreeDispose(node: Ptr, ghost parent: Ptr, ghost t: Tree)
      requires Subtree(mem, node, parent, t) && Distinct(t)
      modifies this
      ensures mem == old(mem) - Ids(t)
      decreases t
    {
      if node != NULL {
        ghost var mem0 := mem;
        var left := mem[node].left;
        SubtreeDispose(left, node, t.left);
        var right := mem[node].right;
        SubtreeFrame(mem0, mem, right, node, t.right);
        SubtreeDispose(right, node, t.right);
        mem := mem - {node};
      }
    }

    /** 'tree_dispose' */
    method TreeDispose(node: Ptr, ghost t: Tree)
      requires Focus(mem, node, Top, t)
      modifies this
      ensures mem == map[]
    {
      SubtreeDispose(node, NULL, t);
    }

    /** 'main': the focus is moved between the calls, and the whole tree is freed at the end. */
    method Example()
      requires mem == map[]
      modifies this
      ensures mem == map[]
    {
      hide Focus;
      var root := CreateTree();
      var added := AddLeft(root, Top, Leaf(root));
      var left := added.value;
      ghost var c1 := InLeft(Top, root, Empty);
      CombinedCount(c1, Leaf(left));
      added := AddRight(left, c1, Leaf(left));
      var leftRight := added.value;
      var parent := GetParent(leftRight, InRight(c1, left, Empty), Leaf(leftRight));
      assert parent == left;
      CombinedCount(c1, Node(left, Empty, Leaf(leftRight)));
      added := AddLeft(left, c1, Node(left, Empty, Leaf(leftRight)));
      var leftLeft := added.value;
      ghost var c2 := InRight(c1, left, Leaf(leftLeft));
      GoUp(mem, InLeft(c1, left, Leaf(leftRight)), Leaf(leftLeft));
      GoUp(mem, c2, Leaf(leftRight));
      CombinedCount(c2, Leaf(leftRight));
      assert Total(c2, 1) == Total(c1, 3) == Total(Top, 4);
      added := AddRight(leftRight, c2, Leaf(leftRight));
      ghost var t := Node(leftRight, Empty, Leaf(added.value));
      GoUp(mem, InRight(c2, leftRight, Empty), Leaf(added.value));
      GoUp(mem, c2, t);
      GoUp(mem, c1, Node(left, Leaf(leftLeft), t));
      TreeDispose(root, Node(root, Node(left, Leaf(leftLeft), t), Empty));
    }
  }

  function Leaf(n: Ptr): Tree {
    Node(n, Empty, Empty)
  }

  /** The context of a new leaf below a node. */
  predicate Extends(c: Context, t: Tree, c': Context, node: Ptr) {
    && t.Node? && t.id == node
    && (|| (c' == InLeft(c, node, t.right) && t.left == Empty)
        || (c' == InRight(c, node, t.left) && t.right == Empty))
  }

  lemma NewLeafIds(c: Context, t: Tree, c': Context, node: Ptr, n: Ptr)
    requires Distinct(Combine(c, t)) && n !in Ids(Combine(c, t)) && Extends(c, t, c', node)
    ensures DistinctContext(c') && n !in ContextIds(c') && node in Ancestors(c')
    ensures Distinct(Combine(c', Node(n, Empty, Empty)))
    ensures Ids(Combine(c', Node(n, Empty, Empty))) == Ids(Combine(c, t)) + {n}
    ensures node !in ContextIds(c) && node !in Ids(Sibling(c'))
    ensures ContextIds(c) <= Ids(Combine(c, t)) && Ids(Sibling(c')) <= Ids(Combine(c, t))
  {
    CombinedIds(c, t);
    CombinedIds(c', Node(n, Empty, Empty));
  }

  lemma NewLeafTotal(c: Context, t: Tree, c': Context, node: Ptr)
    requires Extends(c, t, c', node)
    ensures Total(c', 1) == Count(Combine(c, t)) + 1 && Count(t) == 1 + Count(Sibling(c'))
  {
    CombinedCount(c, t);
    assert Count(Empty) == 0;
    OneMore(c, Count(t));
  }

  /** A new leaf is linked below the node in focus; the counts of the ancestors still are those without it. */
  lemma NewLeaf(mem: Memory, mem': Memory, node: Ptr, c: Context, t: Tree, c': Context, n: Ptr)
    requires Focus(mem, node, c, t) && n !in mem && n != NULL && Extends(c, t, c', node)
    requires var cell := if c'.InLeft? then mem[node].(left := n) else mem[node].(right := n);
             mem' == mem[n := Cell(NULL, NULL, node, 1)][node := cell]
    ensures Around(mem', n, 0, c') && DistinctContext(c') && n !in ContextIds(c')
    ensures Total(c', 1) == Count(Combine(c, t)) + 1
    ensures Distinct(Combine(c', Node(n, Empty, Empty))) && node in Ancestors(c')
    ensures Ids(Combine(c', Node(n, Empty, Empty))) == Ids(Combine(c, t)) + {n}
  {
    hide Distinct, Ids, Combine, ContextIds, Ancestors, Total, DistinctContext;
    NewLeafIds(c, t, c', node, n);
    NewLeafTotal(c, t, c', node);
    AroundFrame(mem, mem', node, Count(t), c);
    SubtreeFrame(mem, mem', if c'.InLeft? then mem[node].right else mem[node].left, node, Sibling(c'));
  }

  lemma {:induction false} OneMore(c: Context, count: nat)
    ensures Total(c, count + 1) == Total(c, count) + 1
    decreases c
  {
    if c != Top {
      OneMore(c.above, 1 + count + Count(Sibling(c)));
    }
  }

  lemma NotTheSibling(mem: Memory, n: Ptr, count: int, c: Context)
    requires Around(mem, n, count, c) && c != Top && n !in ContextIds(c) && n != NULL
    ensures n == mem[c.id].left <==> c.InLeft?
  {
    if c.InRight? {
      SubtreeRoot(mem, mem[c.id].left, c.id, c.left);
    }
  }
}
