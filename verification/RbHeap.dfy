/** Red-black tree nodes as rbtree.c has them: parent, left and right pointers and a colour, all
    changed in place. What the nodes hold is described by a path and a subtree of RbModel; rotations
    and colour changes are proved to act on that pair as expected. */
module RbHeap {
  import opened RbModel

  /** A tree node together with the key of the record that embeds it. */
  class Node {
    const key: int
    var parent: Node?
    var left: Node?
    var right: Node?
    var color: Color

    constructor (key: int)
      ensures this.key == key
    {
      this.key := key;
      parent, left, right, color := null, null, null, Red;
    }
  }

  /** What one node holds. */
  datatype Cell = Cell(parent: Node?, left: Node?, right: Node?, color: Color)

  class Root {
    var node: Node?

    constructor ()
      ensures node == null
    {
      node := null;
    }
  }

  // ---------- the nodes of a tree and of a path ----------

  ghost function Nodes(t: Tree<Node>): set<Node> {
    if t.Leaf? then {} else Nodes(t.left) + {t.node} + Nodes(t.right)
  }

  ghost function PathNodes(p: Path<Node>): set<Node> {
    if p.Top? then {} else PathNodes(p.up) + {p.node} + Nodes(p.other)
  }

  ghost predicate Distinct(t: Tree<Node>) {
    t.Leaf? ||
    (&& Distinct(t.left) && Distinct(t.right)
     && t.node !in Nodes(t.left) && t.node !in Nodes(t.right) && Nodes(t.left) !! Nodes(t.right))
  }

  ghost predicate DistinctPath(p: Path<Node>) {
    p.Top? ||
    (&& DistinctPath(p.up) && Distinct(p.other)
     && p.node !in PathNodes(p.up) && p.node !in Nodes(p.other) && Nodes(p.other) !! PathNodes(p.up))
  }

  // ---------- what the heap holds ----------

  ghost function RootOf(t: Tree<Node>): Node? { if t.Leaf? then null else t.node }

  ghost function ParentOf(p: Path<Node>): Node? { if p.Top? then null else p.node }

  /** The node the root link must name when `child` hangs in the hole of `p`. */
  ghost function TopNode(p: Path<Node>, child: Node?): Node? {
    if p.Top? then child else TopNode(p.up, p.node)
  }

  ghost function Snapshot(s: set<Node>): map<Node, Cell>
    reads s
  {
    map x | x in s :: Cell(x.parent, x.left, x.right, x.color)
  }

  /** Every node of `t` holds the links and the colour that `t` gives it, under the given parent. */
  ghost predicate IsTree(m: map<Node, Cell>, t: Tree<Node>, parent: Node?) {
    t.Leaf? ||
    (&& t.node in m
     && m[t.node] == Cell(parent, RootOf(t.left), RootOf(t.right), t.color)
     && IsTree(m, t.left, t.node) && IsTree(m, t.right, t.node))
  }

  /** Every node of `p` holds the links and the colour that `p` gives it, with `child` in the hole. */
  ghost predicate IsPath(m: map<Node, Cell>, p: Path<Node>, child: Node?) {
    p.Top? ||
    (&& p.node in m
     && m[p.node] == (if p.InLeft? then Cell(ParentOf(p.up), child, RootOf(p.other), p.color)
                      else Cell(ParentOf(p.up), RootOf(p.other), child, p.color))
     && IsTree(m, p.other, p.node)
     && IsPath(m, p.up, p.node))
  }

  ghost predicate Shape(m: map<Node, Cell>, p: Path<Node>, t: Tree<Node>) {
    && Distinct(t) && DistinctPath(p) && Nodes(t) !! PathNodes(p)
    && IsTree(m, t, ParentOf(p)) && IsPath(m, p, RootOf(t))
  }

  /** The nodes reachable from `root` form exactly the tree `Plug(p, t)`, parent links included, and
      they are all among `s`. */
  ghost predicate Holds(s: set<Node>, p: Path<Node>, t: Tree<Node>, root: Root)
    reads root, s
  {
    Shape(Snapshot(s), p, t) && root.node == TopNode(p, RootOf(t))
  }

  // ---------- only the nodes of a tree matter to it ----------

  lemma {:induction false} TreeFrame(m: map<Node, Cell>, m': map<Node, Cell>, t: Tree<Node>, parent: Node?)
    requires IsTree(m, t, parent)
    requires forall x | x in Nodes(t) :: x in m ==> x in m' && m'[x] == m[x]
    ensures IsTree(m', t, parent)
  {
    if t.Fork? {
      TreeFrame(m, m', t.left, t.node);
      TreeFrame(m, m', t.right, t.node);
    }
  }

  lemma {:induction false} PathFrame(m: map<Node, Cell>, m': map<Node, Cell>, p: Path<Node>, child: Node?)
    requires IsPath(m, p, child)
    requires forall x | x in PathNodes(p) :: x in m ==> x in m' && m'[x] == m[x]
    ensures IsPath(m', p, child)
  {
    if !p.Top? {
      TreeFrame(m, m', p.other, p.node);
      PathFrame(m, m', p.up, p.node);
    }
  }

  /** A tree whose top node alone was given another parent. */
  lemma Reparent(m: map<Node, Cell>, m': map<Node, Cell>, t: Tree<Node>, was: Node?, parent: Node?)
    requires Distinct(t) && IsTree(m, t, was)
    requires forall x | x in Nodes(t) && x in m ::
               x in m' && m'[x] == if x == RootOf(t) then m[x].(parent := parent) else m[x]
    ensures IsTree(m', t, parent)
  {
    if t.Fork? {
      TreeFrame(m, m', t.left, t.node);
      TreeFrame(m, m', t.right, t.node);
    }
  }

  /** A path whose hole was given another child. */
  lemma Rehang(m: map<Node, Cell>, m': map<Node, Cell>, p: Path<Node>, was: Node?, child: Node?)
    requires DistinctPath(p) && IsPath(m, p, was)
    requires forall x | x in PathNodes(p) && x in m ::
               x in m' && m'[x] == (if p.Top? || x != p.node then m[x]
                                    else if p.InLeft? then m[x].(left := child) else m[x].(right := child))
    ensures IsPath(m', p, child)
  {
    if !p.Top? {
      TreeFrame(m, m', p.other, p.node);
      PathFrame(m, m', p.up, p.node);
    }
  }

  // ---------- moving the focus ----------

  lemma {:induction false} Ascend(m: map<Node, Cell>, p: Path<Node>, t: Tree<Node>)
    requires !p.Top?
    ensures Shape(m, p, t) <==> Shape(m, p.up, Up(p, t))
    ensures Nodes(t) + PathNodes(p) == Nodes(Up(p, t)) + PathNodes(p.up)
  {
    assert Nodes(Up(p, t)) == Nodes(t) + {p.node} + Nodes(p.other);
  }

  lemma {:induction false} AscendAll(m: map<Node, Cell>, p: Path<Node>, t: Tree<Node>)
    ensures Shape(m, p, t) <==> Shape(m, Top, Plug(p, t))
    ensures TopNode(p, RootOf(t)) == RootOf(Plug(p, t)) && (t.Fork? ==> Plug(p, t).Fork?)
    ensures Nodes(t) + PathNodes(p) == Nodes(Plug(p, t))
    decreases p
  {
    if !p.Top? {
      Ascend(m, p, t);
      AscendAll(m, p.up, Up(p, t));
    }
  }

  // ---------- changes at the focus ----------

  /** What the focus and the node above it hold, and that they are not each other's. */
  lemma {:induction false} AtFocus(m: map<Node, Cell>, p: Path<Node>, t: Tree<Node>)
    requires Shape(m, p, t) && t.Fork?
    ensures t.node in Nodes(t) && t.node in m
    ensures m[t.node] == Cell(ParentOf(p), RootOf(t.left), RootOf(t.right), t.color)
    ensures t.node !in Nodes(t.left) && t.node !in Nodes(t.right) && t.node !in PathNodes(p)
    ensures Nodes(t.left) <= Nodes(t) && Nodes(t.right) <= Nodes(t) && Nodes(t.left) !! Nodes(t.right)
    ensures t.left.Fork? ==> t.left.node in Nodes(t.left)
    ensures t.right.Fork? ==> t.right.node in Nodes(t.right)
    ensures !p.Top? ==>
              && p.node in PathNodes(p) && p.node !in Nodes(t) && p.node in m
              && (p.InLeft? <==> m[p.node].left == t.node) && (p.InRight? <==> m[p.node].right == t.node)
  {
    if !p.Top? && p.other.Fork? { assert p.other.node in PathNodes(p); }
  }

  lemma ColorShape(m: map<Node, Cell>, p: Path<Node>, t: Tree<Node>, c: Color)
    requires Shape(m, p, t) && t.Fork?
    ensures t.node in m && Shape(m[t.node := m[t.node].(color := c)], p, t.(color := c))
  {
    AtFocus(m, p, t);
    var m' := m[t.node := m[t.node].(color := c)];
    TreeFrame(m, m', t.left, t.node);
    TreeFrame(m, m', t.right, t.node);
    PathFrame(m, m', p, t.node);
  }

  method SetColor(x: Node, c: Color, root: Root, ghost s: set<Node>, ghost p: Path<Node>, ghost t: Tree<Node>)
    requires Holds(s, p, t, root) && t.Fork? && t.node == x
    modifies x`color
    ensures Holds(s, p, t.(color := c), root)
  {
    ghost var m := Snapshot(s);
    ColorShape(m, p, t, c);
    x.color := c;
    assert Snapshot(s) == m[x := m[x].(color := c)];
  }

  ghost function RotatedLeft(t: Tree<Node>): Tree<Node>
    requires t.Fork? && t.right.Fork?
  {
    Fork(Fork(t.left, t.node, t.color, t.right.left), t.right.node, t.right.color, t.right.right)
  }

  ghost function RotatedRight(t: Tree<Node>): Tree<Node>
    requires t.Fork? && t.left.Fork?
  {
    Fork(t.left.left, t.left.node, t.left.color, Fork(t.left.right, t.node, t.color, t.right))
  }

  /** Where the nodes of a rotation's three subtrees are, and that a rotation moves none of them. */
  lemma {:induction false} RotatedNodes(a: Tree<Node>, x: Node, b: Tree<Node>, y: Node, c: Tree<Node>, cx: Color,
                                        cy: Color)
    ensures var (l, r) := (Fork(Fork(a, x, cx, b), y, cy, c), Fork(a, x, cx, Fork(b, y, cy, c)));
            && Nodes(l) == Nodes(r) == Nodes(a) + Nodes(b) + Nodes(c) + {x, y}
            && (Distinct(l) <==> Distinct(r))
            && (Distinct(l) ==>
                  && x != y && Nodes(a) !! Nodes(b) && Nodes(a) !! Nodes(c) && Nodes(b) !! Nodes(c)
                  && x !in Nodes(a) + Nodes(b) + Nodes(c) && y !in Nodes(a) + Nodes(b) + Nodes(c)
                  && Distinct(a) && Distinct(b) && Distinct(c))
  {
    var l, r := Fork(a, x, cx, b), Fork(b, y, cy, c);
    assert Nodes(l) == Nodes(a) + {x} + Nodes(b) && Nodes(r) == Nodes(b) + {y} + Nodes(c);
    assert Nodes(Fork(l, y, cy, c)) == Nodes(l) + {y} + Nodes(c);
    assert Nodes(Fork(a, x, cx, r)) == Nodes(a) + {x} + Nodes(r);
    assert Distinct(l) <==> Distinct(a) && Distinct(b) && x !in Nodes(a) && x !in Nodes(b) && Nodes(a) !! Nodes(b);
    assert Distinct(r) <==> Distinct(b) && Distinct(c) && y !in Nodes(b) && y !in Nodes(c) && Nodes(b) !! Nodes(c);
  }

  /** A rotation changes the links of the two nodes that swap places, the parent of the subtree
      between them and the child link above them. */
  ghost predicate Rotated(m: map<Node, Cell>, m': map<Node, Cell>, p: Path<Node>, x: Node, y: Node, mid: Tree<Node>)
  {
    && m'.Keys == m.Keys
    && (forall z | z in m && z != x && z != y && z != RootOf(mid) && z != ParentOf(p) :: m'[z] == m[z])
    && (mid.Fork? && mid.node in m ==> m'[mid.node] == m[mid.node].(parent := x))
    && (!p.Top? && p.node in m ==>
          m'[p.node] == if p.InLeft? then m[p.node].(left := y) else m[p.node].(right := y))
  }

  lemma {:induction false} RotateLeftNodes(m: map<Node, Cell>, p: Path<Node>, t: Tree<Node>)
    requires Shape(m, p, t) && t.Fork? && t.right.Fork?
    ensures var (y, b) := (t.right.node, t.right.left);
            && y in m && m[y] == Cell(t.node, RootOf(b), RootOf(t.right.right), t.right.color)
            && y in Nodes(t) && y != t.node
            && (b.Fork? ==> b.node in m && b.node in Nodes(t) && b.node != t.node && b.node != y)
  {
    RotatedNodes(t.left, t.node, t.right.left, t.right.node, t.right.right, t.color, t.right.color);
    assert t.right.left.Fork? ==> t.right.left.node in Nodes(t.right.left);
    assert IsTree(m, t.right, t.node) && IsTree(m, t.right.left, t.right.node);
  }

  lemma RotateLeftShape(m: map<Node, Cell>, m': map<Node, Cell>, p: Path<Node>, t: Tree<Node>)
    requires Shape(m, p, t) && t.Fork? && t.right.Fork?
    requires Rotated(m, m', p, t.node, t.right.node, t.right.left)
    requires t.node in m' && m'[t.node] == Cell(t.right.node, RootOf(t.left), RootOf(t.right.left), t.color)
    requires t.right.node in m' && m'[t.right.node] == Cell(ParentOf(p), t.node, RootOf(t.right.right), t.right.color)
    ensures Shape(m', p, RotatedLeft(t))
  {
    var a, b, c, x, y := t.left, t.right.left, t.right.right, t.node, t.right.node;
    AtFocus(m, p, t);
    RotatedNodes(a, x, b, y, c, t.color, t.right.color);
    assert b.Fork? ==> b.node in Nodes(b);
    assert IsTree(m, t.right, x);
    TreeFrame(m, m', a, x);
    TreeFrame(m, m', c, y);
    Reparent(m, m', b, y, x);
    Rehang(m, m', p, x, y);
  }

  /** The assignments of __rb_rotate_left, field by field. */
  method RelinkLeft(x: Node, root: Root)
    requires x.right != null && x.right != x && x.parent != x && x.right != x.parent
    requires x.right.left != null ==> x.right.left != x && x.right.left != x.right && x.right.left != x.parent
    modifies root, x, x.right, x.parent, x.right.left
    ensures var (y, b, up) := (old(x.right), old(x.right.left), old(x.parent));
            && x.parent == y && x.left == old(x.left) && x.right == b && x.color == old(x.color)
            && y.parent == up && y.left == x && y.right == old(y.right) && y.color == old(y.color)
            && (b != null ==>
                  && b.parent == x && b.left == old(b.left) && b.right == old(b.right)
                  && b.color == old(b.color))
            && (if up == null then root.node == y
                else
                  && root.node == old(root.node) && up.parent == old(up.parent) && up.color == old(up.color)
                  && up.left == (if old(up.left) == x then y else old(up.left))
                  && up.right == (if old(up.left) == x then old(up.right) else y))
  {
    var right := x.right;
    var parent := x.parent;
    x.right := right.left;
    if right.left != null { right.left.parent := x; }
    right.left := x;
    right.parent := parent;
    if parent != null {
      if x == parent.left { parent.left := right; } else { parent.right := right; }
    } else {
      root.node := right;
    }
    x.parent := right;
  }

  method RotateLeft(x: Node, root: Root, ghost s: set<Node>, ghost p: Path<Node>, ghost t: Tree<Node>)
    requires Holds(s, p, t, root) && t.Fork? && t.node == x && t.right.Fork?
    modifies root, s
    ensures Holds(s, p, RotatedLeft(t), root)
  {
    ghost var m := Snapshot(s);
    AtFocus(m, p, t);
    RotateLeftNodes(m, p, t);
    RelinkLeft(x, root);
    RotateLeftShape(m, Snapshot(s), p, t);
  }

  lemma {:induction false} RotateRightNodes(m: map<Node, Cell>, p: Path<Node>, t: Tree<Node>)
    requires Shape(m, p, t) && t.Fork? && t.left.Fork?
    ensures var (y, b) := (t.left.node, t.left.right);
            && y in m && m[y] == Cell(t.node, RootOf(t.left.left), RootOf(b), t.left.color)
            && y in Nodes(t) && y != t.node
            && (b.Fork? ==> b.node in m && b.node in Nodes(t) && b.node != t.node && b.node != y)
  {
    RotatedNodes(t.left.left, t.left.node, t.left.right, t.node, t.right, t.left.color, t.color);
    assert t.left.right.Fork? ==> t.left.right.node in Nodes(t.left.right);
    assert IsTree(m, t.left, t.node) && IsTree(m, t.left.right, t.left.node);
  }

  lemma RotateRightShape(m: map<Node, Cell>, m': map<Node, Cell>, p: Path<Node>, t: Tree<Node>)
    requires Shape(m, p, t) && t.Fork? && t.left.Fork?
    requires Rotated(m, m', p, t.node, t.left.node, t.left.right)
    requires t.node in m' && m'[t.node] == Cell(t.left.node, RootOf(t.left.right), RootOf(t.right), t.color)
    requires t.left.node in m' && m'[t.left.node] == Cell(ParentOf(p), RootOf(t.left.left), t.node, t.left.color)
    ensures Shape(m', p, RotatedRight(t))
  {
    var a, b, c, x, y := t.left.left, t.left.right, t.right, t.node, t.left.node;
    AtFocus(m, p, t);
    RotatedNodes(a, y, b, x, c, t.left.color, t.color);
    assert b.Fork? ==> b.node in Nodes(b);
    assert IsTree(m, t.left, x);
    TreeFrame(m, m', a, y);
    TreeFrame(m, m', c, x);
    Reparent(m, m', b, y, x);
    Rehang(m, m', p, x, y);
  }

  /** The assignments of __rb_rotate_right, field by field. */
  method RelinkRight(x: Node, root: Root)
    requires x.left != null && x.left != x && x.parent != x && x.left != x.parent
    requires x.left.right != null ==> x.left.right != x && x.left.right != x.left && x.left.right != x.parent
    modifies root, x, x.left, x.parent, x.left.right
    ensures var (y, b, up) := (old(x.left), old(x.left.right), old(x.parent));
            && x.parent == y && x.right == old(x.right) && x.left == b && x.color == old(x.color)
            && y.parent == up && y.right == x && y.left == old(y.left) && y.color == old(y.color)
            && (b != null ==>
                  && b.parent == x && b.left == old(b.left) && b.right == old(b.right)
                  && b.color == old(b.color))
            && (if up == null then root.node == y
                else
                  && root.node == old(root.node) && up.parent == old(up.parent) && up.color == old(up.color)
                  && up.right == (if old(up.right) == x then y else old(up.right))
                  && up.left == (if old(up.right) == x then old(up.left) else y))
  {
    var left := x.left;
    var parent := x.parent;
    x.left := left.right;
    if left.right != null { left.right.parent := x; }
    left.right := x;
    left.parent := parent;
    if parent != null {
      if x == parent.right { parent.right := left; } else { parent.left := left; }
    } else {
      root.node := left;
    }
    x.parent := left;
  }

  method RotateRight(x: Node, root: Root, ghost s: set<Node>, ghost p: Path<Node>, ghost t: Tree<Node>)
    requires Holds(s, p, t, root) && t.Fork? && t.node == x && t.left.Fork?
    modifies root, s
    ensures Holds(s, p, RotatedRight(t), root)
  {
    ghost var m := Snapshot(s);
    AtFocus(m, p, t);
    RotateRightNodes(m, p, t);
    RelinkRight(x, root);
    RotateRightShape(m, Snapshot(s), p, t);
  }

  /** What can be read at the focus and next to it. */
  lemma {:induction false} Look(s: set<Node>, p: Path<Node>, t: Tree<Node>, root: Root)
    requires Holds(s, p, t, root)
    ensures t.Fork? ==> t.node in s && t.node.parent == ParentOf(p) && t.node.color == t.color
                        && t.node.left == RootOf(t.left) && t.node.right == RootOf(t.right)
    ensures !p.Top? ==>
              && p.node in s && p.node.parent == ParentOf(p.up) && p.node.color == p.color
              && p.node.left == (if p.InLeft? then RootOf(t) else RootOf(p.other))
              && p.node.right == (if p.InLeft? then RootOf(p.other) else RootOf(t))
              && (t.Fork? ==> RootOf(p.other) != t.node)
    ensures !p.Top? && p.other.Fork? ==>
              && p.other.node in s && p.other.node.color == p.other.color
              && p.other.node.left == RootOf(p.other.left) && p.other.node.right == RootOf(p.other.right)
  {
    if t.Fork? { AtFocus(Snapshot(s), p, t); }
    assert !p.Top? ==> IsTree(Snapshot(s), p.other, p.node);
  }

  // ---------- colours next to the focus ----------

  method SetParentColor(x: Node, c: Color, root: Root, ghost s: set<Node>, ghost p: Path<Node>, ghost t: Tree<Node>)
    requires Holds(s, p, t, root) && !p.Top? && p.node == x
    modifies x`color
    ensures Holds(s, p.(color := c), t, root)
  {
    Ascend(Snapshot(s), p, t);
    SetColor(x, c, root, s, p.up, Up(p, t));
    Ascend(Snapshot(s), p.(color := c), t);
  }

  /** The path to the other child of the node above the focus. */
  ghost function Across(p: Path<Node>, t: Tree<Node>): Path<Node>
    requires !p.Top?
  {
    if p.InLeft? then InRight(p.up, p.node, p.color, t) else InLeft(p.up, p.node, p.color, t)
  }

  lemma Cross(m: map<Node, Cell>, p: Path<Node>, t: Tree<Node>)
    requires !p.Top?
    ensures Shape(m, p, t) <==> Shape(m, Across(p, t), p.other)
  {
    Ascend(m, p, t);
    Ascend(m, Across(p, t), p.other);
  }

  method SetOtherColor(x: Node, c: Color, root: Root, ghost s: set<Node>, ghost p: Path<Node>, ghost t: Tree<Node>)
    requires Holds(s, p, t, root) && !p.Top? && p.other.Fork? && p.other.node == x
    modifies x`color
    ensures Holds(s, p.(other := p.other.(color := c)), t, root)
  {
    Cross(Snapshot(s), p, t);
    SetColor(x, c, root, s, Across(p, t), p.other);
    Cross(Snapshot(s), p.(other := p.other.(color := c)), t);
  }
}
