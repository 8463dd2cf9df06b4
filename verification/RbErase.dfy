/** rb_erase and __rb_erase_color on the nodes: they leave exactly the tree that RbModel.Erase
    computes. */
module RbErase {
  import opened RbModel
  import opened RbHeap

  method SetLeftColor(x: Node, c: Color, root: Root, ghost s: set<Node>, ghost p: Path<Node>, ghost t: Tree<Node>)
    requires Holds(s, p, t, root) && t.Fork? && t.left.Fork? && t.left.node == x
    modifies x`color
    ensures Holds(s, p, t.(left := t.left.(color := c)), root)
  {
    ghost var down := InLeft(p, t.node, t.color, t.right);
    Ascend(Snapshot(s), down, t.left);
    SetColor(x, c, root, s, down, t.left);
    Ascend(Snapshot(s), down, t.left.(color := c));
  }

  method SetRightColor(x: Node, c: Color, root: Root, ghost s: set<Node>, ghost p: Path<Node>, ghost t: Tree<Node>)
    requires Holds(s, p, t, root) && t.Fork? && t.right.Fork? && t.right.node == x
    modifies x`color
    ensures Holds(s, p, t.(right := t.right.(color := c)), root)
  {
    ghost var down := InRight(p, t.node, t.color, t.left);
    Ascend(Snapshot(s), down, t.right);
    SetColor(x, c, root, s, down, t.right);
    Ascend(Snapshot(s), down, t.right.(color := c));
  }

  /** What can be read at the focus, at its children and above it. */
  lemma {:induction false} LookBelow(s: set<Node>, p: Path<Node>, t: Tree<Node>, root: Root)
    requires Holds(s, p, t, root) && t.Fork?
    ensures t.node in s && t.node.color == t.color && t.node.left == RootOf(t.left) && t.node.right == RootOf(t.right)
    ensures t.left.Fork? ==> t.left.node in s && t.left.node.color == t.left.color
    ensures t.right.Fork? ==> t.right.node in s && t.right.node.color == t.right.color
    ensures !p.Top? ==> p.node in s && p.node.color == p.color
                        && (if p.InLeft? then p.node.left == t.node else p.node.right == t.node)
  {
    AtFocus(Snapshot(s), p, t);
    assert IsTree(Snapshot(s), t.left, t.node) && IsTree(Snapshot(s), t.right, t.node);
  }

  /** A red other child on the right is rotated above the parent. */
  method RaiseRedRight(parent: Node, other: Node, root: Root, ghost s: set<Node>, ghost p: Path<Node>,
                       ghost t: Tree<Node>)
    requires Holds(s, p, t, root) && p.InLeft? && IsRed(p.other) && parent == p.node && other == p.other.node
    modifies root, s
    ensures Holds(s, BlackSibling(p), t, root)
  {
    ghost var o := p.other.(color := Black);
    SetOtherColor(other, Black, root, s, p, t);
    SetParentColor(parent, Red, root, s, InLeft(p.up, parent, p.color, o), t);
    Ascend(Snapshot(s), InLeft(p.up, parent, Red, o), t);
    RotateLeft(parent, root, s, p.up, Fork(t, parent, Red, o));
    ghost var q := BlackSibling(p);
    Ascend(Snapshot(s), q, t);
    Ascend(Snapshot(s), q.up, Up(q, t));
  }

  /** A black other child on the right with a red child: at most two rotations make up for the
      missing black node. */
  method FillFromRight(parent: Node, sibling: Node, root: Root, ghost s: set<Node>, ghost p: Path<Node>,
                       ghost t: Tree<Node>)
    requires Holds(s, p, t, root) && p.InLeft? && parent == p.node
    requires p.other.Fork? && sibling == p.other.node && (IsRed(p.other.left) || IsRed(p.other.right))
    modifies root, s
    ensures Holds(s, p.up, EraseRotate(p, t), root)
  {
    ghost var a, o := Across(p, t), p.other;
    var other := sibling;
    Cross(Snapshot(s), p, t);
    LookBelow(s, a, o, root);
    if other.right == null || other.right.color.Black? {
      var inner := other.left;
      if inner != null {
        SetLeftColor(inner, Black, root, s, a, o);
        o := o.(left := o.left.(color := Black));
      }
      SetColor(other, Red, root, s, a, o);
      o := o.(color := Red);
      RotateRight(other, root, s, a, o);
      o := RotatedRight(o);
      LookBelow(s, a, o, root);
      other := parent.right;
    }
    SetColor(other, parent.color, root, s, a, o);
    o := o.(color := p.color);
    SetParentColor(parent, Black, root, s, a, o);
    a := InRight(p.up, parent, Black, t);
    LookBelow(s, a, o, root);
    if other.right != null {
      SetRightColor(other.right, Black, root, s, a, o);
      o := o.(right := o.right.(color := Black));
    }
    Ascend(Snapshot(s), a, o);
    RotateLeft(parent, root, s, p.up, Up(a, o));
  }

  /** A red other child on the left is rotated above the parent. */
  method RaiseRedLeft(parent: Node, other: Node, root: Root, ghost s: set<Node>, ghost p: Path<Node>,
                      ghost t: Tree<Node>)
    requires Holds(s, p, t, root) && p.InRight? && IsRed(p.other) && parent == p.node && other == p.other.node
    modifies root, s
    ensures Holds(s, BlackSibling(p), t, root)
  {
    ghost var o := p.other.(color := Black);
    SetOtherColor(other, Black, root, s, p, t);
    SetParentColor(parent, Red, root, s, InRight(p.up, parent, p.color, o), t);
    Ascend(Snapshot(s), InRight(p.up, parent, Red, o), t);
    RotateRight(parent, root, s, p.up, Fork(o, parent, Red, t));
    ghost var q := BlackSibling(p);
    Ascend(Snapshot(s), q, t);
    Ascend(Snapshot(s), q.up, Up(q, t));
  }

  /** A black other child on the left with a red child: at most two rotations make up for the
      missing black node. */
  method FillFromLeft(parent: Node, sibling: Node, root: Root, ghost s: set<Node>, ghost p: Path<Node>,
                      ghost t: Tree<Node>)
    requires Holds(s, p, t, root) && p.InRight? && parent == p.node
    requires p.other.Fork? && sibling == p.other.node && (IsRed(p.other.left) || IsRed(p.other.right))
    modifies root, s
    ensures Holds(s, p.up, EraseRotate(p, t), root)
  {
    ghost var a, o := Across(p, t), p.other;
    var other := sibling;
    Cross(Snapshot(s), p, t);
    LookBelow(s, a, o, root);
    if other.left == null || other.left.color.Black? {
      var inner := other.right;
      if inner != null {
        SetRightColor(inner, Black, root, s, a, o);
        o := o.(right := o.right.(color := Black));
      }
      SetColor(other, Red, root, s, a, o);
      o := o.(color := Red);
      RotateLeft(other, root, s, a, o);
      o := RotatedLeft(o);
      LookBelow(s, a, o, root);
      other := parent.left;
    }
    SetColor(other, parent.color, root, s, a, o);
    o := o.(color := p.color);
    SetParentColor(parent, Black, root, s, a, o);
    a := InLeft(p.up, parent, Black, t);
    LookBelow(s, a, o, root);
    if other.left != null {
      SetLeftColor(other.left, Black, root, s, a, o);
      o := o.(left := o.left.(color := Black));
    }
    Ascend(Snapshot(s), a, o);
    RotateRight(parent, root, s, p.up, Up(a, o));
  }

  /** What can be read at the other child and below it. */
  lemma {:induction false} LookAcross(s: set<Node>, p: Path<Node>, t: Tree<Node>, root: Root)
    requires Holds(s, p, t, root) && !p.Top? && p.other.Fork?
    ensures var o := p.other;
            && o.node in s && o.node.color == o.color && o.node.left == RootOf(o.left)
                && o.node.right == RootOf(o.right)
            && (o.left.Fork? ==> o.left.node in s && o.left.node.color == o.left.color)
            && (o.right.Fork? ==> o.right.node in s && o.right.node.color == o.right.color)
  {
    Cross(Snapshot(s), p, t);
    LookBelow(s, Across(p, t), p.other, root);
  }

  lemma {:induction false} TopNodeAbove(p: Path<Node>, child: Node?)
    requires !p.Top?
    ensures TopNode(p, child) != null && TopNode(p, child) in PathNodes(p)
  {
    if !p.up.Top? { TopNodeAbove(p.up, p.node); }
  }

  /** The half of the loop of __rb_erase_color for a node on the left: either the other child is made
      red and the shortage moves up, or it is made up for on the spot. */
  method EraseBesideRight(parent: Node, root: Root, ghost s: set<Node>, ghost p: Path<Node>, ghost t: Tree<Node>)
    returns (done: bool)
    requires Holds(s, p, t, root) && p.InLeft? && parent == p.node && Fits(p, BlackHeight(t) + 1)
    modifies root, s
    ensures var q := BlackSibling(p);
            && q.other.Fork?
            && (done <==> IsRed(q.other.left) || IsRed(q.other.right))
            && Holds(s, q.up, if done then EraseRotate(q, t) else ShortMovedUp(q, t), root)
  {
    ghost var q := BlackSibling(p);
    BlackSiblingFits(p, BlackHeight(t) + 1);
    Look(s, p, t, root);
    var other := parent.right;
    if other.color.Red? {
      RaiseRedRight(parent, other, root, s, p, t);
      Look(s, q, t, root);
      other := parent.right;
    }
    LookAcross(s, q, t, root);
    if (other.left == null || other.left.color.Black?) && (other.right == null || other.right.color.Black?) {
      done := false;
      SetOtherColor(other, Red, root, s, q, t);
      Ascend(Snapshot(s), InLeft(q.up, q.node, q.color, q.other.(color := Red)), t);
    } else {
      done := true;
      FillFromRight(parent, other, root, s, q, t);
    }
  }

  /** The half of the loop of __rb_erase_color for a node on the right: either the other child is made
      red and the shortage moves up, or it is made up for on the spot. */
  method EraseBesideLeft(parent: Node, root: Root, ghost s: set<Node>, ghost p: Path<Node>, ghost t: Tree<Node>)
    returns (done: bool)
    requires Holds(s, p, t, root) && p.InRight? && parent == p.node && Fits(p, BlackHeight(t) + 1)
    modifies root, s
    ensures var q := BlackSibling(p);
            && q.other.Fork?
            && (done <==> IsRed(q.other.left) || IsRed(q.other.right))
            && Holds(s, q.up, if done then EraseRotate(q, t) else ShortMovedUp(q, t), root)
  {
    ghost var q := BlackSibling(p);
    BlackSiblingFits(p, BlackHeight(t) + 1);
    Look(s, p, t, root);
    var other := parent.left;
    if other.color.Red? {
      RaiseRedLeft(parent, other, root, s, p, t);
      Look(s, q, t, root);
      other := parent.left;
    }
    LookAcross(s, q, t, root);
    if (other.left == null || other.left.color.Black?) && (other.right == null || other.right.color.Black?) {
      done := false;
      SetOtherColor(other, Red, root, s, q, t);
      Ascend(Snapshot(s), InRight(q.up, q.node, q.color, q.other.(color := Red)), t);
    } else {
      done := true;
      FillFromLeft(parent, other, root, s, q, t);
    }
  }

  /** Where __rb_erase_color stands after one pass: at the whole tree when the pass ends the loop,
      otherwise one step further up. */
  ghost function EraseNext(p: Path<Node>, t: Tree<Node>): (bool, Path<Node>, Tree<Node>)
    requires !p.Top? && BlackSibling(p).other.Fork?
  {
    var q := BlackSibling(p);
    if IsRed(q.other.left) || IsRed(q.other.right) then (true, Top, Plug(q.up, EraseRotate(q, t)))
    else (false, q.up, ShortMovedUp(q, t))
  }

  /** A pass leaves the result of the whole unchanged, and what the next pass needs. */
  lemma {:induction false} EraseNextKeeps(p: Path<Node>, t: Tree<Node>)
    requires !p.Top? && !IsRed(t) && Balanced(t) && Fits(p, BlackHeight(t) + 1)
    ensures p.other.Fork? && BlackSibling(p).other.Fork?
    ensures var (done, p', t') := EraseNext(p, t);
            if done then EraseFix(p, t) == Blacken(t')
            else
              && EraseFix(p, t) == EraseFix(p', t')
              && Balanced(Blacken(t')) && Fits(p', BlackHeight(t') + 1)
              && (IsRed(t') || Depth(p') < Depth(p))
  {
    BlackSiblingFits(p, BlackHeight(t) + 1);
    var q := BlackSibling(p);
    if !IsRed(q.other.left) && !IsRed(q.other.right) { EraseClimb(q, t); }
  }

  method EraseBeside(node: Node?, parent: Node, root: Root, ghost s: set<Node>, ghost p: Path<Node>,
                     ghost t: Tree<Node>)
    returns (done: bool)
    requires Holds(s, p, t, root) && node == RootOf(t) && !p.Top? && parent == p.node
    requires p.other.Fork? && Fits(p, BlackHeight(t) + 1)
    modifies root, s
    ensures var q := BlackSibling(p);
            && q.other.Fork?
            && (done <==> IsRed(q.other.left) || IsRed(q.other.right))
            && Holds(s, q.up, if done then EraseRotate(q, t) else ShortMovedUp(q, t), root)
  {
    Look(s, p, t, root);
    if parent.left == node {
      done := EraseBesideRight(parent, root, s, p, t);
    } else {
      done := EraseBesideLeft(parent, root, s, p, t);
    }
  }

  /** One pass through the loop of __rb_erase_color. */
  method EraseStep(node: Node?, parent: Node, root: Root, ghost s: set<Node>, ghost p: Path<Node>, ghost t: Tree<Node>)
    returns (next: Node?, nextParent: Node?, done: bool)
    requires Holds(s, p, t, root) && node == RootOf(t) && !p.Top? && parent == p.node
    requires p.other.Fork? && BlackSibling(p).other.Fork? && Fits(p, BlackHeight(t) + 1)
    modifies root, s
    ensures var (done', p', t') := EraseNext(p, t);
            && done == done' && Holds(s, p', t', root) && next == RootOf(t')
            && (!done ==> nextParent == ParentOf(p'))
  {
    ghost var q := BlackSibling(p);
    done := EraseBeside(node, parent, root, s, p, t);
    if done {
      AscendAll(Snapshot(s), q.up, EraseRotate(q, t));
      next, nextParent := root.node, parent;
    } else {
      Look(s, q.up, ShortMovedUp(q, t), root);
      next, nextParent := parent, parent.parent;
    }
  }

  /** The last assignment of __rb_erase_color. */
  method Darken(node: Node?, root: Root, ghost s: set<Node>, ghost p: Path<Node>, ghost t: Tree<Node>)
    requires Holds(s, p, t, root) && node == RootOf(t)
    modifies root, s
    ensures Holds(s, Top, Plug(p, Blacken(t)), root)
  {
    if node != null {
      SetColor(node, Black, root, s, p, t);
    }
    AscendAll(Snapshot(s), p, Blacken(t));
  }

  /** The same pass, seen from the whole: what it leaves is closer to the end, and the end is the same. */
  method ErasePass(node: Node?, parent: Node, root: Root, ghost s: set<Node>, ghost p: Path<Node>, ghost t: Tree<Node>)
    returns (next: Node?, nextParent: Node?, done: bool, ghost p': Path<Node>, ghost t': Tree<Node>)
    requires Holds(s, p, t, root) && node == RootOf(t) && !p.Top? && parent == p.node
    requires !IsRed(t) && Balanced(t) && Fits(p, BlackHeight(t) + 1)
    modifies root, s
    ensures Holds(s, p', t', root) && next == RootOf(t') && (t'.Fork? ==> next in s && next.color == t'.color)
    ensures done ==> p'.Top? && EraseFix(p, t) == Blacken(t')
    ensures !done ==>
              && nextParent == ParentOf(p') && EraseFix(p, t) == EraseFix(p', t')
              && Balanced(Blacken(t')) && Fits(p', BlackHeight(t') + 1)
              && (IsRed(t') || Depth(p') < Depth(p))
  {
    EraseNextKeeps(p, t);
    next, nextParent, done := EraseStep(node, parent, root, s, p, t);
    ghost var (_, up, whole) := EraseNext(p, t);
    p', t' := up, whole;
    Look(s, p', t', root);
  }

  method EraseColor(start: Node?, startParent: Node?, root: Root,
                    ghost s: set<Node>, ghost p0: Path<Node>, ghost t0: Tree<Node>)
    requires Holds(s, p0, t0, root) && start == RootOf(t0) && startParent == ParentOf(p0)
    requires Balanced(Blacken(t0)) && Fits(p0, BlackHeight(t0) + 1)
    modifies root, s
    ensures Holds(s, Top, EraseFix(p0, t0), root)
  {
    ghost var p, t := p0, t0;
    ghost var filled := false;
    var node, parent := start, startParent;
    Look(s, p, t, root);
    while (node == null || node.color.Black?) && node != root.node
      invariant Holds(s, p, t, root) && node == RootOf(t) && parent == ParentOf(p) && !filled
      invariant Balanced(Blacken(t)) && Fits(p, BlackHeight(t) + 1)
      invariant EraseFix(p, t) == EraseFix(p0, t0)
      invariant t.Fork? ==> node in s && node.color == t.color
      decreases if IsRed(t) then 0 else 1 + Depth(p)
    {
      var done: bool;
      node, parent, done, p, t := ErasePass(node, parent, root, s, p, t);
      if done {
        filled := true;
        break;
      }
    }
    if !filled && !p.Top? { TopNodeAbove(p, RootOf(t)); }
    Darken(node, root, s, p, t);
  }

  // ---------- rb_replace_node ----------

  /** The assignments of rb_replace_node, field by field. */
  method TakePlace(victim: Node, heir: Node, root: Root)
    requires victim != heir && victim.parent != victim && victim.parent != heir
    requires victim.left != victim && victim.left != heir && victim.right != victim && victim.right != heir
    requires victim.left != null ==> victim.left != victim.parent && victim.left != victim.right
    requires victim.right != null ==> victim.right != victim.parent
    modifies root, heir, victim.parent, victim.left, victim.right
    ensures var (up, l, r) := (victim.parent, victim.left, victim.right);
            && heir.parent == up && heir.left == l && heir.right == r && heir.color == victim.color
            && (l != null ==>
                  && l.parent == heir && l.left == old(l.left) && l.right == old(l.right)
                  && l.color == old(l.color))
            && (r != null ==>
                  && r.parent == heir && r.left == old(r.left) && r.right == old(r.right)
                  && r.color == old(r.color))
            && (if up == null then root.node == heir
                else
                  && root.node == old(root.node) && up.parent == old(up.parent) && up.color == old(up.color)
                  && up.left == (if old(up.left) == victim then heir else old(up.left))
                  && up.right == (if old(up.left) == victim then old(up.right) else heir))
  {
    var parent := victim.parent;
    if parent != null {
      if victim == parent.left { parent.left := heir; } else { parent.right := heir; }
    } else {
      root.node := heir;
    }
    if victim.left != null { victim.left.parent := heir; }
    if victim.right != null { victim.right.parent := heir; }
    heir.parent, heir.color, heir.left, heir.right := victim.parent, victim.color, victim.left, victim.right;
  }

  lemma {:induction false} ReplaceShape(m: map<Node, Cell>, m': map<Node, Cell>, p: Path<Node>, t: Tree<Node>,
                                        heir: Node)
    requires Shape(m, p, t) && t.Fork? && heir !in Nodes(t) && heir !in PathNodes(p) && heir in m
    requires m'.Keys == m.Keys
    requires forall z | z in m && z != heir && z != RootOf(t.left) && z != RootOf(t.right)
        && z != ParentOf(p) :: m'[z] == m[z]
    requires t.node in m && m'[heir] == m[t.node]
    requires t.left.Fork? ==> t.left.node in m && m'[t.left.node] == m[t.left.node].(parent := heir)
    requires t.right.Fork? ==> t.right.node in m && m'[t.right.node] == m[t.right.node].(parent := heir)
    requires !p.Top? ==>
               && p.node in m
               && m'[p.node] == (if p.InLeft? then m[p.node].(left := heir) else m[p.node].(right := heir))
    ensures Shape(m', p, t.(node := heir))
  {
    AtFocus(m, p, t);
    Reparent(m, m', t.left, t.node, heir);
    Reparent(m, m', t.right, t.node, heir);
    Rehang(m, m', p, t.node, heir);
  }

  method ReplaceNode(victim: Node, heir: Node, root: Root, ghost s: set<Node>, ghost p: Path<Node>, ghost t: Tree<Node>)
    requires Holds(s, p, t, root) && t.Fork? && t.node == victim
    requires heir in s && heir !in Nodes(t) && heir !in PathNodes(p)
    modifies root, s
    ensures Holds(s, p, t.(node := heir), root)
  {
    ghost var m := Snapshot(s);
    AtFocus(m, p, t);
    LookBelow(s, p, t, root);
    TakePlace(victim, heir, root);
    ReplaceShape(m, Snapshot(s), p, t, heir);
    NewTop(p, victim, heir);
  }

  lemma NewTop(p: Path<Node>, a: Node?, b: Node?)
    ensures TopNode(p, b) == if p.Top? then b else TopNode(p, a)
  {
  }

  // ---------- rb_erase ----------

  /** A node with at most one child is taken out of the tree by hanging that child in its place. */
  lemma {:induction false} SpliceShape(m: map<Node, Cell>, m': map<Node, Cell>, p: Path<Node>, t: Tree<Node>,
                                       child: Tree<Node>)
    requires Shape(m, p, t) && t.Fork?
    requires (t.left.Leaf? && child == t.right) || (t.right.Leaf? && child == t.left)
    requires m'.Keys == m.Keys
    requires forall z | z in m && z != RootOf(child) && z != ParentOf(p) :: m'[z] == m[z]
    requires child.Fork? ==> child.node in m && m'[child.node] == m[child.node].(parent := ParentOf(p))
    requires !p.Top? ==>
               && p.node in m
               && m'[p.node] == (if p.InLeft? then m[p.node].(left := RootOf(child))
                   else m[p.node].(right := RootOf(child)))
    ensures Shape(m', p, child)
    ensures t.node !in Nodes(child) && t.node !in PathNodes(p)
  {
    AtFocus(m, p, t);
    Reparent(m, m', child, t.node, ParentOf(p));
    Rehang(m, m', p, t.node, RootOf(child));
  }

  method SpliceOut(node: Node, child: Node?, root: Root,
                   ghost s: set<Node>, ghost p: Path<Node>, ghost t: Tree<Node>, ghost c: Tree<Node>)
    requires Holds(s, p, t, root) && t.Fork? && t.node == node
    requires (t.left.Leaf? && c == t.right) || (t.right.Leaf? && c == t.left)
    requires child == RootOf(c)
    modifies root, s
    ensures Holds(s, p, c, root)
    ensures node.color == old(node.color) && node.parent == old(node.parent)
    ensures node !in Nodes(c) && node !in PathNodes(p)
  {
    ghost var m := Snapshot(s);
    AtFocus(m, p, t);
    LookBelow(s, p, t, root);
    var parent := node.parent;
    if child != null { child.parent := parent; }
    if parent != null {
      if parent.left == node { parent.left := child; } else { parent.right := child; }
    } else {
      root.node := child;
    }
    SpliceShape(m, Snapshot(s), p, t, c);
    NewTop(p, node, child);
  }

  /** The tree with what is at the end of the left spine replaced. */
  ghost function PlugLeftmost(t: Tree<Node>, x: Tree<Node>): Tree<Node>
    requires t.Fork?
  {
    if t.left.Leaf? then x else t.(left := PlugLeftmost(t.left, x))
  }

  lemma {:induction false} AscendLeftmost(m: map<Node, Cell>, base: Path<Node>, t: Tree<Node>, x: Tree<Node>)
    requires t.Fork?
    ensures var q, u := LeftmostPath(base, t), PlugLeftmost(t, x);
            && (Shape(m, q, x) <==> Shape(m, base, u))
            && TopNode(q, RootOf(x)) == TopNode(base, RootOf(u))
            && Nodes(x) + PathNodes(q) == Nodes(u) + PathNodes(base)
    decreases t
  {
    if t.left.Fork? {
      var b := InLeft(base, t.node, t.color, t.right);
      AscendLeftmost(m, b, t.left, x);
      Ascend(m, b, PlugLeftmost(t.left, x));
    }
  }

  lemma {:induction false} LeftmostParent(a: Path<Node>, b: Path<Node>, t: Tree<Node>)
    requires t.Fork?
    ensures ParentOf(LeftmostPath(a, t)) == if t.left.Leaf? then ParentOf(a) else ParentOf(LeftmostPath(b, t))
    decreases t
  {
    if t.left.Fork? {
      LeftmostParent(InLeft(a, t.node, t.color, t.right), InLeft(b, t.node, t.color, t.right), t.left);
    }
  }

  /** A node with two children: the next node in order is spliced out and takes its place. */
  method EraseByNext(victim: Node, root: Root, ghost s: set<Node>, ghost p: Path<Node>, ghost t: Tree<Node>)
    returns (child: Node?, parent: Node?, color: Color)
    requires Holds(s, p, t, root) && t.Fork? && t.node == victim && t.left.Fork? && t.right.Fork?
    modifies root, s
    ensures var next := Leftmost(t.right);
            var q := LeftmostPath(InRight(p, next.node, t.color, t.left), t.right);
            && Holds(s, q, next.right, root)
            && child == RootOf(next.right) && parent == ParentOf(q) && color == next.color
  {
    ghost var base, f := InRight(p, victim, t.color, t.left), t.right;
    ghost var q := base;
    Ascend(Snapshot(s), base, f);
    Look(s, p, t, root);
    var node := victim.right;
    Look(s, q, f, root);
    while node.left != null
      invariant Holds(s, q, f, root) && f.Fork? && node == f.node && node in s && node.left == RootOf(f.left)
      invariant Leftmost(f) == Leftmost(t.right) && LeftmostPath(q, f) == LeftmostPath(base, t.right)
      decreases f
    {
      node := node.left;
      ghost var b := InLeft(q, f.node, f.color, f.right);
      Ascend(Snapshot(s), b, f.left);
      q, f := b, f.left;
      Look(s, q, f, root);
    }
    Look(s, q, f, root);
    child, parent, color := node.right, node.parent, node.color;
    SpliceOut(node, child, root, s, q, f, f.right);
    LeftmostParent(base, InRight(p, node, t.color, t.left), t.right);
    if parent == victim { parent := node; }
    ghost var r := PlugLeftmost(t.right, f.right);
    AscendLeftmost(Snapshot(s), base, t.right, f.right);
    Ascend(Snapshot(s), base, r);
    ReplaceNode(victim, node, root, s, p, Fork(t.left, victim, t.color, r));
    ghost var base' := InRight(p, node, t.color, t.left);
    Ascend(Snapshot(s), base', r);
    AscendLeftmost(Snapshot(s), base', t.right, f.right);
  }

  /** The path and the subtree at which a colour may be missing once the node is out, and that
      colour. */
  ghost function Gap(p: Path<Node>, t: Tree<Node>): (Path<Node>, Color, Tree<Node>)
    requires t.Fork?
  {
    if t.left.Leaf? then (p, t.color, t.right)
    else if t.right.Leaf? then (p, t.color, t.left)
    else
      var next := Leftmost(t.right);
      (LeftmostPath(InRight(p, next.node, t.color, t.left), t.right), next.color, next.right)
  }

  lemma GapErases(p: Path<Node>, t: Tree<Node>)
    requires t.Fork?
    ensures var (q, color, c) := Gap(p, t); Erase(p, t) == Splice(q, color, c)
  {
  }

  lemma {:induction false} GapBlack(p: Path<Node>, t: Tree<Node>)
    requires t.Fork? && RedBlack(Plug(p, t))
    ensures var (q, color, c) := Gap(p, t); color.Black? ==> Balanced(Blacken(c)) && Fits(q, BlackHeight(c) + 1)
  {
    UnplugFits(p, t);
    if t.left.Fork? && t.right.Fork? {
      LeftmostPathKeeps(InRight(p, Leftmost(t.right).node, t.color, t.left), t.right);
    }
  }

  lemma GapFits(p: Path<Node>, t: Tree<Node>)
    requires t.Fork? && RedBlack(Plug(p, t))
    ensures var (q, color, c) := Gap(p, t);
            Erase(p, t) == Splice(q, color, c) && (color.Black? ==> Balanced(Blacken(c)) && Fits(q, BlackHeight(c) + 1))
  {
    GapErases(p, t);
    GapBlack(p, t);
  }

  method TakeOut(node: Node, root: Root, ghost s: set<Node>, ghost p: Path<Node>, ghost t: Tree<Node>)
    returns (child: Node?, parent: Node?, color: Color)
    requires Holds(s, p, t, root) && t.Fork? && t.node == node
    modifies root, s
    ensures var (q, color', c) := Gap(p, t);
            && Holds(s, q, c, root)
            && child == RootOf(c) && parent == ParentOf(q) && color == color'
  {
    Look(s, p, t, root);
    if node.left == null {
      child, parent, color := node.right, node.parent, node.color;
      SpliceOut(node, child, root, s, p, t, t.right);
    } else if node.right == null {
      child, parent, color := node.left, node.parent, node.color;
      SpliceOut(node, child, root, s, p, t, t.left);
    } else {
      child, parent, color := EraseByNext(node, root, s, p, t);
    }
  }

  method EraseNode(node: Node, root: Root, ghost s: set<Node>, ghost p: Path<Node>, ghost t: Tree<Node>)
    requires Holds(s, p, t, root) && t.Fork? && t.node == node && RedBlack(Plug(p, t))
    modifies root, s
    ensures Holds(s, Top, Erase(p, t), root)
  {
    GapFits(p, t);
    ghost var (q, _, c) := Gap(p, t);
    var child, parent, color := TakeOut(node, root, s, p, t);
    if color.Black? {
      EraseColor(child, parent, root, s, q, c);
    } else {
      AscendAll(Snapshot(s), q, c);
    }
  }
}
