/** rb_insert_color on the nodes: it leaves exactly the tree that RbModel.InsertFix computes. */
module RbInsert {
  import opened RbModel
  import opened RbHeap

  /** Every red node of the path has a black parent. */
  ghost predicate Alternates(p: Path<Node>) {
    p.Top? || ((p.color.Red? ==> BlackAbove(p.up)) && Alternates(p.up))
  }

  lemma {:induction false} FitsAlternates(p: Path<Node>, h: nat)
    requires Fits(p, h)
    ensures Alternates(p)
  {
    if !p.Top? { FitsAlternates(p.up, h + Weight(p.color)); }
  }

  /** The red uncle of the node: the red moves from parent and uncle to the grandparent. */
  method PushRedUp(parent: Node, gparent: Node, uncle: Node, root: Root,
                   ghost s: set<Node>, ghost p: Path<Node>, ghost t: Tree<Node>)
    requires Holds(s, p, t, root) && !p.Top? && !p.up.Top? && IsRed(p.up.other)
    requires parent == p.node && gparent == p.up.node && uncle == p.up.other.node
    modifies root, s
    ensures Holds(s, p.up.up, RedMovedUp(p, t), root)
  {
    ghost var g := p.up;
    Ascend(Snapshot(s), p, t);
    SetOtherColor(uncle, Black, root, s, g, Up(p, t));
    g := g.(other := Blacken(g.other));
    SetColor(parent, Black, root, s, g, Up(p, t));
    SetParentColor(gparent, Red, root, s, g, Up(p.(color := Black), t));
    g := g.(color := Red);
    Ascend(Snapshot(s), g, Up(p.(color := Black), t));
  }

  /** A black uncle on the right: at most two rotations, and the grandparent ends up below. */
  method TurnRight(node: Node, parent: Node, gparent: Node, root: Root,
                   ghost s: set<Node>, ghost p: Path<Node>, ghost t: Tree<Node>)
    returns (low: Node)
    requires Holds(s, p, t, root) && IsRed(t) && t.node == node
    requires !p.Top? && p.color.Red? && p.up.InLeft? && parent == p.node && gparent == p.up.node
    modifies root, s
    ensures var r := InsertRotate(p, t);
            && Holds(s, InLeft(p.up.up, r.node, Black, r.right), r.left, root)
            && low == r.left.node
  {
    ghost var g, t1, r := p.up, Up(p, t), InsertRotate(p, t);
    var up := parent;
    low := node;
    Look(s, p, t, root);
    Ascend(Snapshot(s), p, t);
    if parent.right == node {
      RotateLeft(parent, root, s, g, t1);
      t1 := RotatedLeft(t1);
      up, low := node, parent;
    }
    SetColor(up, Black, root, s, g, t1);
    t1 := t1.(color := Black);
    SetParentColor(gparent, Red, root, s, g, t1);
    g := InLeft(g.up, gparent, Red, g.other);
    Ascend(Snapshot(s), g, t1);
    RotateRight(gparent, root, s, g.up, Up(g, t1));
    Ascend(Snapshot(s), InLeft(g.up, r.node, Black, r.right), r.left);
  }

  /** A black uncle on the left: the mirror image. */
  method TurnLeft(node: Node, parent: Node, gparent: Node, root: Root,
                  ghost s: set<Node>, ghost p: Path<Node>, ghost t: Tree<Node>)
    returns (low: Node)
    requires Holds(s, p, t, root) && IsRed(t) && t.node == node
    requires !p.Top? && p.color.Red? && p.up.InRight? && parent == p.node && gparent == p.up.node
    modifies root, s
    ensures var r := InsertRotate(p, t);
            && Holds(s, InRight(p.up.up, r.node, Black, r.left), r.right, root)
            && low == r.right.node
  {
    ghost var g, t1, r := p.up, Up(p, t), InsertRotate(p, t);
    var up := parent;
    low := node;
    Look(s, p, t, root);
    Ascend(Snapshot(s), p, t);
    if parent.left == node {
      RotateRight(parent, root, s, g, t1);
      t1 := RotatedRight(t1);
      up, low := node, parent;
    }
    SetColor(up, Black, root, s, g, t1);
    t1 := t1.(color := Black);
    SetParentColor(gparent, Red, root, s, g, t1);
    g := InRight(g.up, gparent, Red, g.other);
    Ascend(Snapshot(s), g, t1);
    RotateLeft(gparent, root, s, g.up, Up(g, t1));
    Ascend(Snapshot(s), InRight(g.up, r.node, Black, r.left), r.right);
  }

  /** The two ways a step of rb_insert_color leaves the result of the whole unchanged. */
  lemma InsertFixSteps(p: Path<Node>, t: Tree<Node>)
    requires IsRed(t) && !p.Top? && p.color.Red? && !p.up.Top?
    ensures IsRed(p.up.other) ==>
              InsertFix(p, t) == InsertFix(p.up.up, RedMovedUp(p, t))
    ensures var r := InsertRotate(p, t);
            !IsRed(p.up.other) ==>
              && (p.up.InLeft? ==> InsertFix(p, t) == InsertFix(InLeft(p.up.up, r.node, Black, r.right), r.left))
              && (p.up.InRight? ==> InsertFix(p, t) == InsertFix(InRight(p.up.up, r.node, Black, r.left), r.right))
  {
    var r := InsertRotate(p, t);
    assert Plug(InLeft(p.up.up, r.node, Black, r.right), r.left) == Plug(p.up.up, r);
    assert Plug(InRight(p.up.up, r.node, Black, r.left), r.right) == Plug(p.up.up, r);
  }

  /** One pass through the loop of rb_insert_color, at a node whose parent is red. */
  method InsertStep(node: Node, root: Root, ghost s: set<Node>, ghost p: Path<Node>, ghost t: Tree<Node>)
    returns (next: Node, ghost p': Path<Node>, ghost t': Tree<Node>)
    requires Holds(s, p, t, root) && IsRed(t) && t.node == node
    requires !p.Top? && p.color.Red? && Alternates(p)
    modifies root, s
    ensures Holds(s, p', t', root) && IsRed(t') && t'.node == next && Alternates(p')
    ensures InsertFix(p', t') == InsertFix(p, t)
    ensures Depth(p') < Depth(p)
  {
    ghost var g, r := p.up, InsertRotate(p, t);
    Look(s, p, t, root);
    Ascend(Snapshot(s), p, t);
    Look(s, g, Up(p, t), root);
    InsertFixSteps(p, t);
    assert Depth(p) == 2 + Depth(g.up);
    var parent := node.parent;
    var gparent := parent.parent;
    if parent == gparent.left {
      var uncle := gparent.right;
      if uncle != null && uncle.color.Red? {
        PushRedUp(parent, gparent, uncle, root, s, p, t);
        p', t' := g.up, RedMovedUp(p, t);
        next := gparent;
      } else {
        next := TurnRight(node, parent, gparent, root, s, p, t);
        p', t' := InLeft(g.up, r.node, Black, r.right), r.left;
      }
    } else {
      var uncle := gparent.left;
      if uncle != null && uncle.color.Red? {
        PushRedUp(parent, gparent, uncle, root, s, p, t);
        p', t' := g.up, RedMovedUp(p, t);
        next := gparent;
      } else {
        next := TurnLeft(node, parent, gparent, root, s, p, t);
        p', t' := InRight(g.up, r.node, Black, r.left), r.right;
      }
    }
  }

  method InsertColor(inserted: Node, root: Root, ghost s: set<Node>, ghost p0: Path<Node>, ghost t0: Tree<Node>)
    requires Holds(s, p0, t0, root) && IsRed(t0) && t0.node == inserted && Alternates(p0)
    modifies root, s
    ensures Holds(s, Top, InsertFix(p0, t0), root)
  {
    ghost var p, t := p0, t0;
    var node := inserted;
    Look(s, p, t, root);
    while node.parent != null && node.parent.color.Red?
      invariant Holds(s, p, t, root) && IsRed(t) && t.node == node && Alternates(p)
      invariant node.parent == ParentOf(p) && (!p.Top? ==> p.node.color == p.color)
      invariant InsertFix(p, t) == InsertFix(p0, t0)
      decreases Depth(p)
    {
      node, p, t := InsertStep(node, root, s, p, t);
      Look(s, p, t, root);
    }
    AscendAll(Snapshot(s), p, t);
    SetColor(root.node, Black, root, s, Top, Plug(p, t));
  }
}
