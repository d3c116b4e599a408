/** composite5.c: trees in which every node stores the size of its subtree, and in which a child can be added at
    any node; the counts of its ancestors are then corrected through the parent pointers. */
module CompositeTree {
  import opened Basics
  import opened Objects

  datatype Node = Node(firstChild: Ptr, nextSibling: Ptr, parent: Ptr, count: int)

  type Nodes = map<Ptr, Node>

  /** A list of trees: the first one, given by its root and the list of its children, and the others. */
  datatype Forest = Empty | Tree(root: Ptr, kids: Forest, siblings: Forest)

  function Head(f: Forest): Ptr {
    if f == Empty then NULL else f.root
  }

  function Members(f: Forest): set<Ptr> {
    if f == Empty then {} else {f.root} + Members(f.kids) + Members(f.siblings)
  }

  function Size(f: Forest): nat {
    if f == Empty then 0 else 1 + Size(f.kids) + Size(f.siblings)
  }

  predicate Distinct(f: Forest) {
    f != Empty ==>
      && f.root !in Members(f.kids) && f.root !in Members(f.siblings) && Members(f.kids) !! Members(f.siblings)
      && Distinct(f.kids) && Distinct(f.siblings)
  }

  /** The pointers in memory are those of the trees, whose roots have the given parent. */
  predicate Shape(mem: Nodes, f: Forest, parent: Ptr) {
    f != Empty ==>
      && f.root != NULL && f.root in mem
      && mem[f.root].firstChild == Head(f.kids) && mem[f.root].nextSibling == Head(f.siblings)
      && mem[f.root].parent == parent
      && Shape(mem, f.kids, f.root) && Shape(mem, f.siblings, parent)
  }

  /** The stored counts are the sizes of the subtrees, except that those of the nodes in 'late' lack delta. */
  predicate Counts(mem: Nodes, f: Forest, late: set<Ptr>, delta: int) {
    f != Empty ==>
      && f.root in mem && mem[f.root].count == 1 + Size(f.kids) - (if f.root in late then delta else 0)
      && Counts(mem, f.kids, late, delta) && Counts(mem, f.siblings, late, delta)
  }

  /** The node and its ancestors. */
  function Lineage(f: Forest, x: Ptr): set<Ptr> {
    if f == Empty then {}
    else if x == f.root then {x}
    else if x in Members(f.kids) then {f.root} + Lineage(f.kids, x)
    else Lineage(f.siblings, x)
  }

  /** A new first child 'n' of 'at'; everything else stays. */
  function Add(f: Forest, at: Ptr, n: Ptr): Forest {
    if f == Empty then Empty
    else if f.root == at then f.(kids := Tree(n, Empty, f.kids))
    else f.(kids := Add(f.kids, at, n), siblings := Add(f.siblings, at, n))
  }

  lemma {:induction false} AddElsewhere(f: Forest, at: Ptr, n: Ptr)
    requires at !in Members(f)
    ensures Add(f, at, n) == f
  {
    if f != Empty {
      AddElsewhere(f.kids, at, n);
      AddElsewhere(f.siblings, at, n);
    }
  }

  lemma {:induction false} LineageInside(f: Forest, x: Ptr)
    ensures Lineage(f, x) <= Members(f) && (x in Members(f) ==> x in Lineage(f, x))
    ensures x !in Members(f) ==> Lineage(f, x) == {}
  {
    if f != Empty {
      LineageInside(f.kids, x);
      LineageInside(f.siblings, x);
    }
  }

  lemma FirstKid(n: Ptr, kids: Forest)
    ensures Members(Tree(n, Empty, kids)) == {n} + Members(kids) && Size(Tree(n, Empty, kids)) == 1 + Size(kids)
    ensures n !in Members(kids) && Distinct(kids) ==> Distinct(Tree(n, Empty, kids))
  {
    assert Members(Empty) == {} && Size(Empty) == 0 && Distinct(Empty);
  }

  /** The new node is the only new member, the tree is larger by one, and the lineage of the node it was added to is
      the same. */
  lemma {:induction false} AddMembers(f: Forest, at: Ptr, n: Ptr)
    requires Distinct(f) && n !in Members(f) && at in Members(f)
    ensures Members(Add(f, at, n)) == Members(f) + {n} && Distinct(Add(f, at, n)) && Size(Add(f, at, n)) == Size(f) + 1
    ensures Lineage(Add(f, at, n), at) == Lineage(f, at)
  {
    if f.root == at {
      var kids := Tree(n, Empty, f.kids);
      FirstKid(n, f.kids);
      assert Add(f, at, n) == f.(kids := kids);
    } else {
      if at in Members(f.kids) {
        AddMembers(f.kids, at, n);
        AddElsewhere(f.siblings, at, n);
      } else {
        AddMembers(f.siblings, at, n);
        AddElsewhere(f.kids, at, n);
      }
    }
  }

  lemma {:induction false} ShapeInMemory(mem: Nodes, f: Forest, parent: Ptr)
    requires Shape(mem, f, parent)
    ensures forall p | p in Members(f) :: p in mem && p != NULL
  {
    if f != Empty {
      ShapeInMemory(mem, f.kids, f.root);
      ShapeInMemory(mem, f.siblings, parent);
    }
  }

  /** Shape and counts do not depend on other nodes. */
  lemma {:induction false} ForestFrame(mem: Nodes, mem': Nodes, f: Forest, parent: Ptr, late: set<Ptr>, late': set<Ptr>,
                                       delta: int)
    requires Shape(mem, f, parent) && Counts(mem, f, late, delta)
    requires forall p | p in Members(f) && p in mem :: p in mem' && mem'[p] == mem[p] && (p in late <==> p in late')
    ensures Shape(mem', f, parent) && Counts(mem', f, late', delta)
  {
    if f != Empty {
      ForestFrame(mem, mem', f.kids, f.root, late, late', delta);
      ForestFrame(mem, mem', f.siblings, parent, late, late', delta);
    }
  }

  /** Linking the new node leaves the counts of its ancestors one too small, and no others. */
  lemma {:induction false} AddLinked(mem: Nodes, f: Forest, parent: Ptr, at: Ptr, n: Ptr, mem': Nodes)
    requires Shape(mem, f, parent) && Counts(mem, f, {}, 1) && Distinct(f) && at in Members(f) && at in mem
    requires n !in Members(f) && n !in mem && n != NULL
    requires mem' == mem[n := Node(NULL, mem[at].firstChild, at, 1)][at := mem[at].(firstChild := n)]
    ensures Shape(mem', Add(f, at, n), parent) && Counts(mem', Add(f, at, n), Lineage(f, at), 1)
  {
    ShapeInMemory(mem, f.kids, f.root);
    ShapeInMemory(mem, f.siblings, parent);
    LineageInside(f.kids, at);
    LineageInside(f.siblings, at);
    if f.root == at {
      ForestFrame(mem, mem', f.kids, at, {}, {at}, 1);
      ForestFrame(mem, mem', f.siblings, parent, {}, {at}, 1);
    } else if at in Members(f.kids) {
      AddMembers(f.kids, at, n);
      AddElsewhere(f.siblings, at, n);
      AddLinked(mem, f.kids, f.root, at, n, mem');
      ForestFrame(mem, mem', f.siblings, parent, {}, Lineage(f, at), 1);
      AddMembers(f.kids, at, n);
      LateElsewhere(mem', Add(f.kids, at, n), Lineage(f.kids, at), Lineage(f, at), 1);
    } else {
      AddElsewhere(f.kids, at, n);
      AddLinked(mem, f.siblings, parent, at, n, mem');
      ForestFrame(mem, mem', f.kids, f.root, {}, Lineage(f, at), 1);
    }
  }

  lemma {:induction false} LateElsewhere(mem: Nodes, f: Forest, late: set<Ptr>, late': set<Ptr>, delta: int)
    requires Counts(mem, f, late, delta) && forall p | p in Members(f) :: p in late <==> p in late'
    ensures Counts(mem, f, late', delta)
  {
    if f != Empty {
      LateElsewhere(mem, f.kids, late, late', delta);
      LateElsewhere(mem, f.siblings, late, late', delta);
    }
  }

  /** The parent pointer of a node leads to its next ancestor. */
  lemma {:induction false} ParentIsNext(mem: Nodes, f: Forest, parent: Ptr, x: Ptr)
    requires Shape(mem, f, parent) && Distinct(f) && x in Members(f) && parent !in Members(f)
    ensures x in mem
    ensures var q := mem[x].parent;
            if q == parent then Lineage(f, x) == {x}
            else q in Members(f) && Lineage(f, x) == Lineage(f, q) + {x} && x !in Lineage(f, q)
  {
    ShapeInMemory(mem, f, parent);
    LineageInside(f.kids, mem[x].parent);
    LineageInside(f.siblings, mem[x].parent);
    if x != f.root {
      if x in Members(f.kids) {
        ParentIsNext(mem, f.kids, f.root, x);
      } else {
        ParentIsNext(mem, f.siblings, parent, x);
      }
    }
  }

  /** Correcting the count of one late node. */
  lemma {:induction false} CountCorrected(mem: Nodes, f: Forest, parent: Ptr, x: Ptr, late: set<Ptr>, delta: int)
    requires Shape(mem, f, parent) && Counts(mem, f, late, delta) && Distinct(f) && x in late && x in mem
    ensures var mem' := mem[x := mem[x].(count := mem[x].count + delta)];
            Shape(mem', f, parent) && Counts(mem', f, late - {x}, delta)
  {
    if f != Empty {
      CountCorrected(mem, f.kids, f.root, x, late, delta);
      CountCorrected(mem, f.siblings, parent, x, late, delta);
    }
  }

  class Composite {
    var mem: Nodes

    /** The tree that the pointers describe. */
    ghost var tree: Forest

    ghost predicate Linked()
      reads this
    {
      tree != Empty && tree.siblings == Empty && Distinct(tree) && Shape(mem, tree, NULL) && NULL !in mem
    }

    /** Between calls every stored count is the size of the node's subtree. */
    ghost predicate Valid()
      reads this
    {
      Linked() && Counts(mem, tree, {}, 1)
    }

    /** 'create_tree' */
    constructor (root: Ptr)
      requires root != NULL
      ensures Valid() && tree == Tree(root, Empty, Empty) && mem == map[root := Node(NULL, NULL, NULL, 1)]
    {
      mem := map[root := Node(NULL, NULL, NULL, 1)];
      tree := Tree(root, Empty, Empty);
    }

    /** 'create_node' */
    method CreateNode(parent: Ptr, next: Ptr) returns (n: Ptr)
      requires NULL !in mem
      modifies `mem
      ensures n !in old(mem) && n != NULL && mem == old(mem)[n := Node(NULL, next, parent, 1)]
    {
      n := Malloc(mem);
      mem := mem[n := Node(NULL, next, parent, 1)];
    }

    /** 'add_to_count': the counts of the node and of all its ancestors are corrected. */
    method AddToCount(p: Ptr, delta: int)
      requires Linked() && p in Members(tree) && Counts(mem, tree, Lineage(tree, p), delta)
      modifies `mem
      ensures Linked() && Counts(mem, tree, {}, delta) && mem.Keys == old(mem.Keys)
      decreases Lineage(tree, p)
    {
      ShapeInMemory(mem, tree, NULL);
      ParentIsNext(mem, tree, NULL, p);
      LineageInside(tree, p);
      CountCorrected(mem, tree, NULL, p, Lineage(tree, p), delta);
      var pp := mem[p].parent;
      mem := mem[p := mem[p].(count := mem[p].count + delta)];
      if pp != NULL {
        assert Lineage(tree, p) - {p} == Lineage(tree, pp);
        AddToCount(pp, delta);
      } else {
        assert Lineage(tree, p) - {p} == {};
      }
    }

    /** 'tree_add': the tree gets a new first child at the node, and nothing else changes but the counts, which are
        again the sizes of the subtrees. */
    method TreeAdd(node: Ptr) returns (n: Ptr)
      requires Valid() && node in Members(tree)
      modifies this
      ensures Valid() && n !in old(mem) && tree == Add(old(tree), node, n) && mem.Keys == old(mem.Keys) + {n}
    {
      ghost var before, f := mem, tree;
      ShapeInMemory(mem, tree, NULL);
      n := CreateNode(node, mem[node].firstChild);
      AddMembers(f, node, n);
      mem := mem[node := mem[node].(firstChild := n)];
      AddLinked(before, f, NULL, node, n, mem);
      tree := Add(f, node, n);
      AddToCount(node, 1);
    }
  }
}
