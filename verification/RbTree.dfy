/** In-order stepping, and the trees of interfaces that discovery keeps: nodes sorted by interface
    index, added, removed, looked up and visited while packets arrive. */
module RbTree {
  import opened RbModel
  import opened RbHeap
  import RbInsert
  import RbErase

  // ---------- the place of a node in the order ----------

  /** The subtree whose top is the node at position `i` of `t`, and the path down to it. */
  ghost function Zoom(p: Path<Node>, t: Tree<Node>, i: nat): (r: (Path<Node>, Tree<Node>))
    requires i < |Inorder(t)|
    decreases t
  {
    var n := |Inorder(t.left)|;
    if i < n then Zoom(InLeft(p, t.node, t.color, t.right), t.left, i)
    else if i == n then (p, t)
    else Zoom(InRight(p, t.node, t.color, t.left), t.right, i - n - 1)
  }

  lemma {:induction false} ZoomFinds(p: Path<Node>, t: Tree<Node>, i: nat)
    requires i < |Inorder(t)|
    ensures var (q, f) := Zoom(p, t, i);
            && f.Fork? && f.node == Inorder(t)[i] && Plug(q, f) == Plug(p, t)
            && |Before(q)| + |Inorder(f.left)| == |Before(p)| + i
    decreases t
  {
    var n := |Inorder(t.left)|;
    if i < n {
      ZoomFinds(InLeft(p, t.node, t.color, t.right), t.left, i);
    } else if i > n {
      ZoomFinds(InRight(p, t.node, t.color, t.left), t.right, i - n - 1);
      assert Inorder(t)[i] == Inorder(t.right)[i - n - 1];
    }
  }

  /** The order around a focus: what follows its top node starts in its right subtree, if any. */
  lemma {:induction false} Around(q: Path<Node>, f: Tree<Node>)
    requires f.Fork?
    ensures var order := Inorder(Plug(q, f));
            var i := |Before(q)| + |Inorder(f.left)|;
            && i < |order| && order[i] == f.node
            && order[i + 1..] == Inorder(f.right) + After(q)
            && order[..i] == Before(q) + Inorder(f.left)
  {
    PlugInorder(q, f);
    SplitAt(Before(q), Inorder(f.left), f.node, Inorder(f.right), After(q));
  }

  lemma {:induction false} SplitAt<V>(a: seq<V>, b: seq<V>, x: V, c: seq<V>, d: seq<V>)
    ensures var all, i := a + (b + [x] + c) + d, |a| + |b|;
            all[i] == x && all[i + 1..] == c + d && all[..i] == a + b
  {
    var all, i := a + (b + [x] + c) + d, |a| + |b|;
    assert all == (a + b) + [x] + (c + d);
  }

  lemma {:induction false} InorderEnds(t: Tree<Node>)
    requires t.Fork?
    ensures |Inorder(t)| > 0
    ensures t.left.Leaf? ==> Inorder(t)[0] == t.node
    ensures t.left.Fork? ==> Inorder(t)[0] == Inorder(t.left)[0] && |Inorder(t.left)| > 0
    ensures t.right.Leaf? ==> Inorder(t)[|Inorder(t)| - 1] == t.node
    ensures t.right.Fork? ==>
      && |Inorder(t.right)| > 0
      && Inorder(t)[|Inorder(t)| - 1] == Inorder(t.right)[|Inorder(t.right)| - 1]
  {
    if t.left.Fork? { InorderEnds(t.left); }
    if t.right.Fork? { InorderEnds(t.right); }
  }

  // ---------- rb_first, rb_last, rb_next, rb_prev ----------

  method DownLeft(start: Node, root: Root, ghost s: set<Node>, ghost p: Path<Node>, ghost t: Tree<Node>)
    returns (n: Node)
    requires Holds(s, p, t, root) && t.Fork? && start == t.node
    ensures |Inorder(t)| > 0 && n == Inorder(t)[0]
  {
    ghost var q, f := p, t;
    n := start;
    Look(s, q, f, root);
    InorderEnds(f);
    while n.left != null
      invariant Holds(s, q, f, root) && f.Fork? && n == f.node && n in s && n.left == RootOf(f.left)
      invariant |Inorder(f)| > 0 && |Inorder(t)| > 0 && Inorder(f)[0] == Inorder(t)[0]
      decreases f
    {
      n := n.left;
      InorderEnds(f);
      ghost var b := InLeft(q, f.node, f.color, f.right);
      Ascend(Snapshot(s), b, f.left);
      q, f := b, f.left;
      Look(s, q, f, root);
    }
    InorderEnds(f);
  }

  method DownRight(start: Node, root: Root, ghost s: set<Node>, ghost p: Path<Node>, ghost t: Tree<Node>)
    returns (n: Node)
    requires Holds(s, p, t, root) && t.Fork? && start == t.node
    ensures |Inorder(t)| > 0 && n == Inorder(t)[|Inorder(t)| - 1]
  {
    ghost var q, f := p, t;
    n := start;
    Look(s, q, f, root);
    InorderEnds(f);
    while n.right != null
      invariant Holds(s, q, f, root) && f.Fork? && n == f.node && n in s && n.right == RootOf(f.right)
      invariant |Inorder(f)| > 0 && |Inorder(t)| > 0 && Inorder(f)[|Inorder(f)| - 1] == Inorder(t)[|Inorder(t)| - 1]
      decreases f
    {
      n := n.right;
      InorderEnds(f);
      ghost var b := InRight(q, f.node, f.color, f.left);
      Ascend(Snapshot(s), b, f.right);
      q, f := b, f.right;
      Look(s, q, f, root);
    }
    InorderEnds(f);
  }

  method First(root: Root, ghost s: set<Node>, ghost t: Tree<Node>) returns (n: Node?)
    requires Holds(s, Top, t, root)
    ensures n == if Inorder(t) == [] then null else Inorder(t)[0]
  {
    if root.node == null { return null; }
    n := DownLeft(root.node, root, s, Top, t);
  }

  method Last(root: Root, ghost s: set<Node>, ghost t: Tree<Node>) returns (n: Node?)
    requires Holds(s, Top, t, root)
    ensures n == if Inorder(t) == [] then null else Inorder(t)[|Inorder(t)| - 1]
  {
    if root.node == null { return null; }
    n := DownRight(root.node, root, s, Top, t);
  }

  /** rb_next is the in-order successor of any node of any tree, and null at the last one. */
  method Next(start: Node, root: Root, ghost s: set<Node>, ghost t: Tree<Node>, ghost i: nat) returns (n: Node?)
    requires Holds(s, Top, t, root) && i < |Inorder(t)| && start == Inorder(t)[i]
    ensures n == if i + 1 < |Inorder(t)| then Inorder(t)[i + 1] else null
  {
    ghost var (q, f) := Zoom(Top, t, i);
    ghost var order := Inorder(t);
    ZoomFinds(Top, t, i);
    AscendAll(Snapshot(s), q, f);
    Around(q, f);
    assert i + 1 < |order| ==> order[i + 1] == order[i + 1..][0];
    Look(s, q, f, root);
    AtFocus(Snapshot(s), q, f);
    if start.parent == start { return null; }
    if start.right != null {
      ghost var b := InRight(q, f.node, f.color, f.left);
      Ascend(Snapshot(s), b, f.right);
      n := DownLeft(start.right, root, s, b, f.right);
    } else {
      n := Climb(start, true, root, s, q, f);
    }
  }

  method Prev(start: Node, root: Root, ghost s: set<Node>, ghost t: Tree<Node>, ghost i: nat) returns (n: Node?)
    requires Holds(s, Top, t, root) && i < |Inorder(t)| && start == Inorder(t)[i]
    ensures n == if 0 < i then Inorder(t)[i - 1] else null
  {
    ghost var (q, f) := Zoom(Top, t, i);
    ghost var order := Inorder(t);
    ZoomFinds(Top, t, i);
    AscendAll(Snapshot(s), q, f);
    Around(q, f);
    assert 0 < i ==> order[i - 1] == order[..i][i - 1];
    Look(s, q, f, root);
    AtFocus(Snapshot(s), q, f);
    if start.parent == start { return null; }
    if start.left != null {
      ghost var b := InLeft(q, f.node, f.color, f.right);
      Ascend(Snapshot(s), b, f.left);
      n := DownRight(start.left, root, s, b, f.left);
    } else {
      n := Climb(start, false, root, s, q, f);
    }
  }

  /** Up the tree until the step comes from the other side. */
  method Climb(start: Node, forward: bool, root: Root, ghost s: set<Node>, ghost p: Path<Node>, ghost t: Tree<Node>)
    returns (parent: Node?)
    requires Holds(s, p, t, root) && t.Fork? && start == t.node
    ensures forward ==> parent == if After(p) == [] then null else After(p)[0]
    ensures !forward ==> parent == if Before(p) == [] then null else Before(p)[|Before(p)| - 1]
  {
    ghost var q, f := p, t;
    var node := start;
    AtFocus(Snapshot(s), q, f);
    Look(s, q, f, root);
    parent := node.parent;
    while parent != null && (if forward then node == parent.right else node == parent.left)
      invariant Holds(s, q, f, root) && f.Fork? && node == f.node && parent == ParentOf(q)
      invariant !q.Top? ==>
        && q.node in s && (q.InRight? <==> q.node.right == node)
        && (q.InLeft? <==> q.node.left == node)
      invariant if forward then After(q) == After(p) else Before(q) == Before(p)
      decreases q
    {
      node := parent;
      Ascend(Snapshot(s), q, f);
      q, f := q.up, Up(q, f);
      AtFocus(Snapshot(s), q, f);
      Look(s, q, f, root);
      parent := node.parent;
    }
  }

  // ---------- rb_link_node and the sorted trees of discovery ----------

  /** rb_link_node: the new node becomes a red leaf in an empty place. */
  method LinkNode(node: Node, parent: Node?, left: bool, root: Root, ghost s: set<Node>, ghost p: Path<Node>)
    requires Holds(s, p, Leaf, root) && parent == ParentOf(p) && (!p.Top? ==> left == p.InLeft?)
    requires node in s && node !in PathNodes(p)
    modifies root, s
    ensures Holds(s, p, Fork(Leaf, node, Red, Leaf), root)
  {
    ghost var m := Snapshot(s);
    Look(s, p, Leaf, root);
    assert !p.Top? ==> p.node in PathNodes(p);
    node.parent, node.color, node.left, node.right := parent, Red, null, null;
    if parent == null {
      root.node := node;
    } else if left {
      parent.left := node;
    } else {
      parent.right := node;
    }
    Rehang(m, Snapshot(s), p, null, node);
    RbErase.NewTop(p, null, node);
  }

  ghost predicate Sorted(xs: seq<Node>) {
    forall i, j | 0 <= i < j < |xs| :: xs[i].key < xs[j].key
  }

  /** In a sorted tree a key that is not at the focus lies on one side of it only. */
  lemma {:induction false} SearchSide(p: Path<Node>, t: Tree<Node>, key: int)
    requires t.Fork? && Sorted(Inorder(Plug(p, t)))
    ensures key < t.node.key ==> forall x | x in Inorder(t.right) :: key < x.key
    ensures t.node.key < key ==> forall x | x in Inorder(t.left) :: x.key < key
  {
    Around(p, t);
    var order, i := Inorder(Plug(p, t)), |Before(p)| + |Inorder(t.left)|;
    forall x | x in Inorder(t.right) ensures t.node.key < x.key {
      var k :| 0 <= k < |Inorder(t.right)| && Inorder(t.right)[k] == x;
      assert order[i + 1..][k] == x;
    }
    forall x | x in Inorder(t.left) ensures x.key < t.node.key {
      var k :| 0 <= k < |Inorder(t.left)| && Inorder(t.left)[k] == x;
      assert order[..i][|Before(p)| + k] == x;
    }
  }

  ghost function Elements(xs: seq<Node>): set<Node> { set x | x in xs }

  lemma {:induction false} ElementsConcat(a: seq<Node>, b: seq<Node>)
    ensures Elements(a + b) == Elements(a) + Elements(b)
  {
  }

  lemma {:induction false} NodesInorder(t: Tree<Node>)
    ensures Nodes(t) == Elements(Inorder(t))
  {
    if t.Fork? {
      NodesInorder(t.left);
      NodesInorder(t.right);
      ElementsConcat(Inorder(t.left) + [t.node], Inorder(t.right));
      ElementsConcat(Inorder(t.left), [t.node]);
    }
  }

  /** Which further nodes are looked at does not matter. */
  lemma {:induction false} Within(s: set<Node>, s': set<Node>, p: Path<Node>, t: Tree<Node>, root: Root)
    requires Holds(s, p, t, root) && Nodes(t) <= s' && PathNodes(p) <= s'
    ensures Holds(s', p, t, root)
  {
    TreeFrame(Snapshot(s), Snapshot(s'), t, ParentOf(p));
    PathFrame(Snapshot(s), Snapshot(s'), p, RootOf(t));
  }

  /** One tree of interfaces of the discovery code: red-black, and sorted by interface index. */
  class IfTree {
    const root: Root
    ghost var tree: Tree<Node>
    ghost var repr: set<Node>

    ghost predicate Valid()
      reads this, root, repr
    {
      repr == Nodes(tree) && Holds(repr, Top, tree, root) && RedBlack(tree) && Sorted(Inorder(tree))
    }

    constructor ()
      ensures Valid() && fresh(root) && Inorder(tree) == []
    {
      root := new Root();
      tree, repr := Leaf, {};
    }

    /** The descent shared by lookup and insertion: it ends at the node with the key, or in the one
        empty place where the key fits. */
    method Search(key: int) returns (found: Node?, parent: Node?, left: bool, ghost p: Path<Node>, ghost t: Tree<Node>)
      requires Valid()
      ensures Valid() && Holds(repr, p, t, root) && Plug(p, t) == tree
      ensures found == RootOf(t) && parent == ParentOf(p) && (!p.Top? ==> left == p.InLeft?)
      ensures found != null ==> found.key == key
      ensures found == null ==> (forall x | x in Before(p) :: x.key < key) && (forall x | x in After(p) :: key < x.key)
    {
      ghost var s := repr;
      p, t := Top, tree;
      found, parent, left := root.node, null, false;
      while found != null && found.key != key
        invariant Holds(s, p, t, root) && Plug(p, t) == tree
        invariant found == RootOf(t) && parent == ParentOf(p) && (!p.Top? ==> left == p.InLeft?)
        invariant forall x | x in Before(p) :: x.key < key
        invariant forall x | x in After(p) :: key < x.key
        decreases t
      {
        Look(s, p, t, root);
        SearchSide(p, t, key);
        parent, left := found, key < found.key;
        ghost var b := if left then InLeft(p, t.node, t.color, t.right) else InRight(p, t.node, t.color, t.left);
        ghost var u := if left then t.left else t.right;
        Ascend(Snapshot(s), b, u);
        found := if left then found.left else found.right;
        p, t := b, u;
      }
    }

    /** The lookup made for each received packet. */
    method Forward(key: int) returns (n: Node?)
      requires Valid()
      ensures n != null ==> n in Inorder(tree) && n.key == key
      ensures n == null ==> forall x | x in Inorder(tree) :: x.key != key
    {
      ghost var p, t;
      var parent, left;
      n, parent, left, p, t := Search(key);
      PlugInorder(p, t);
    }

    /** Starting an interface: refused exactly when its index is already there, otherwise the tree
        gains this node, in its place, and nothing else. */
    method Start(node: Node) returns (ok: bool)
      requires Valid() && node !in repr
      modifies this, root, repr, node
      ensures Valid()
      ensures ok <==> forall x | x in old(Inorder(tree)) :: x.key != node.key
      ensures !ok ==> tree == old(tree)
      ensures ok ==> exists k :: Inserted(old(Inorder(tree)), Inorder(tree), k, node)
    {
      ghost var p, t;
      var found, parent, left;
      found, parent, left, p, t := Search(node.key);
      PlugInorder(p, t);
      if found != null {
        ok := false;
      } else {
        ok := true;
        InsertPlaced(p, t, node);
        LinkAndColor(node, parent, left, root, repr, p);
        tree, repr := InsertFix(p, Fork(Leaf, node, Red, Leaf)), repr + {node};
      }
    }

    /** Stopping an interface: the tree loses this node and nothing else. */
    method Stop(node: Node, ghost i: nat)
      requires Valid() && i < |Inorder(tree)| && Inorder(tree)[i] == node
      modifies this, root, repr
      ensures Valid()
      ensures Inserted(Inorder(tree), old(Inorder(tree)), i, node)
    {
      ghost var s := repr;
      ghost var (p, t) := Zoom(Top, tree, i);
      EraseZoomed(tree, i);
      AscendAll(Snapshot(s), p, t);
      RbErase.EraseNode(node, root, s, p, t);
      tree := Erase(p, t);
      repr := Nodes(tree);
      Within(s, repr, Top, tree, root);
    }

    /** Shutting down: every interface is visited once, in order. */
    method StopAll() returns (visited: seq<Node>)
      requires Valid()
      ensures visited == Inorder(tree)
    {
      visited := [];
      var n := First(root, repr, tree);
      while n != null
        invariant Valid() && |visited| <= |Inorder(tree)| && visited == Inorder(tree)[..|visited|]
        invariant n == if |visited| < |Inorder(tree)| then Inorder(tree)[|visited|] else null
        decreases |Inorder(tree)| - |visited|
      {
        visited := visited + [n];
        n := Next(n, root, repr, tree, |visited| - 1);
      }
    }
  }

  /** `after` is `before` with `node` put in at position `k`. */
  ghost predicate Inserted(before: seq<Node>, after: seq<Node>, k: nat, node: Node) {
    k <= |before| && after == before[..k] + [node] + before[k..]
  }

  method LinkAndColor(node: Node, parent: Node?, left: bool, root: Root, ghost s0: set<Node>, ghost p: Path<Node>)
    requires Holds(s0, p, Leaf, root) && parent == ParentOf(p) && (!p.Top? ==> left == p.InLeft?)
    requires RedBlack(Plug(p, Leaf)) && Nodes(Plug(p, Leaf)) == s0 && node !in s0
    modifies root, s0, node
    ensures Holds(s0 + {node}, Top, InsertFix(p, Fork(Leaf, node, Red, Leaf)), root)
  {
    ghost var s := s0 + {node};
    AscendAll(Snapshot(s0), p, Leaf);
    Within(s0, s, p, Leaf, root);
    UnplugFits(p, Leaf);
    RbInsert.FitsAlternates(p, 0);
    LinkNode(node, parent, left, root, s, p);
    RbInsert.InsertColor(node, root, s, p, Fork(Leaf, node, Red, Leaf));
  }

  ghost predicate AllBelow(a: seq<Node>, b: seq<Node>) {
    forall x, y | x in a && y in b :: x.key < y.key
  }

  lemma {:induction false} SortedConcat(a: seq<Node>, b: seq<Node>)
    ensures Sorted(a + b) <==> Sorted(a) && Sorted(b) && AllBelow(a, b)
  {
    var c := a + b;
    assert forall i | 0 <= i < |a| :: c[i] == a[i];
    assert forall i | 0 <= i < |b| :: c[|a| + i] == b[i];
    if Sorted(c) {
      forall i, j | 0 <= i < j < |b| ensures b[i].key < b[j].key { assert c[|a| + i].key < c[|a| + j].key; }
      forall x, y | x in a && y in b ensures x.key < y.key {
        var i :| 0 <= i < |a| && a[i] == x;
        var j :| 0 <= j < |b| && b[j] == y;
        assert c[i].key < c[|a| + j].key;
      }
    }
  }

  lemma {:induction false} SortedAround(a: seq<Node>, x: Node, b: seq<Node>)
    ensures Sorted(a + [x] + b) <==> Sorted(a + b) && AllBelow(a, [x]) && AllBelow([x], b)
    ensures Inserted(a + b, a + [x] + b, |a|, x)
  {
    assert (a + b)[..|a|] == a && (a + b)[|a|..] == b;
    SortedConcat(a + [x], b);
    SortedConcat(a, [x]);
    SortedConcat(a, b);
    if AllBelow(a, [x]) && AllBelow([x], b) {
      assert x in [x];
      forall y, z | y in a && z in b ensures y.key < z.key { assert y.key < x.key < z.key; }
    }
  }

  /** The order, the colours and the nodes of a tree after an insertion in the right place. */
  lemma {:induction false} InsertPlaced(p: Path<Node>, t: Tree<Node>, node: Node)
    requires t.Leaf? && RedBlack(Plug(p, t)) && Sorted(Inorder(Plug(p, t)))
    requires (forall x | x in Before(p) :: x.key < node.key) && (forall x | x in After(p) :: node.key < x.key)
    ensures var order, t' := Inorder(Plug(p, t)), InsertFix(p, Fork(Leaf, node, Red, Leaf));
            && Inserted(order, Inorder(t'), |Before(p)|, node)
            && Sorted(Inorder(t')) && RedBlack(t') && Nodes(t') == Nodes(Plug(p, t)) + {node}
  {
    var leaf := Fork(Leaf, node, Red, Leaf);
    var order, order' := Before(p) + After(p), Before(p) + [node] + After(p);
    assert Inorder(Plug(p, t)) == order by { PlugInorder(p, t); }
    assert RedBlack(InsertFix(p, leaf)) && Inorder(InsertFix(p, leaf)) == order' by {
      UnplugFits(p, t);
      InsertFixCorrect(p, leaf);
      assert Inorder(leaf) == [node];
    }
    SortedAround(Before(p), node, After(p));
    NodesOfInserted(Plug(p, t), InsertFix(p, leaf), |Before(p)|, node);
  }

  lemma {:induction false} NodesOfInserted(t: Tree<Node>, t': Tree<Node>, k: nat, node: Node)
    requires Inserted(Inorder(t), Inorder(t'), k, node)
    ensures Nodes(t') == Nodes(t) + {node}
  {
    NodesInorder(t');
    NodesInorder(t);
    var a, b := Inorder(t)[..k], Inorder(t)[k..];
    assert Inorder(t) == a + b;
    ElementsConcat(a, b);
    ElementsConcat(a + [node], b);
    ElementsConcat(a, [node]);
  }

  lemma {:induction false} EraseZoomed(t: Tree<Node>, i: nat)
    requires i < |Inorder(t)| && RedBlack(t) && Sorted(Inorder(t))
    ensures var (p, f) := Zoom(Top, t, i);
            && f.Fork? && f.node == Inorder(t)[i] && Plug(p, f) == t
            && RedBlack(Erase(p, f)) && Sorted(Inorder(Erase(p, f))) && Nodes(Erase(p, f)) <= Nodes(t)
            && Inserted(Inorder(Erase(p, f)), Inorder(t), i, f.node)
  {
    var (p, f) := Zoom(Top, t, i);
    ZoomFinds(Top, t, i);
    EraseCorrect(p, f);
    Regrouped(Before(p), Inorder(f.left), f.node, Inorder(f.right), After(p));
    SortedAround(Before(p) + Inorder(f.left), f.node, Inorder(f.right) + After(p));
    NodesOfInserted(Erase(p, f), t, i, f.node);
  }

  lemma {:induction false} Regrouped<V>(a: seq<V>, b: seq<V>, x: V, c: seq<V>, d: seq<V>)
    ensures a + (b + [x] + c) + d == (a + b) + [x] + (c + d)
    ensures a + (b + c) + d == (a + b) + (c + d)
  {
  }
}
