/** Red-black trees as values: a tree, the path from a subtree up to the root (a zipper),
    and the two fix-ups of rbtree.c as functions on a path and the subtree below it. */
module RbModel {
  import opened Common

  datatype Color = Red | Black

  datatype Tree<V> = Leaf | Fork(left: Tree<V>, node: V, color: Color, right: Tree<V>)

  /** Where a subtree hangs: the ancestors from its parent up, each with its other subtree. */
  datatype Path<V> =
    | Top
    | InLeft(up: Path<V>, node: V, color: Color, other: Tree<V>)
    | InRight(up: Path<V>, node: V, color: Color, other: Tree<V>)

  // ---------- order and shape ----------

  function Inorder<V>(t: Tree<V>): seq<V> {
    match t
    case Leaf => []
    case Fork(l, x, _, r) => Inorder(l) + [x] + Inorder(r)
  }

  /** The nodes that come before the hole of a path, in order. */
  function Before<V>(p: Path<V>): seq<V> {
    match p
    case Top => []
    case InLeft(up, _, _, _) => Before(up)
    case InRight(up, x, _, l) => Before(up) + Inorder(l) + [x]
  }

  function After<V>(p: Path<V>): seq<V> {
    match p
    case Top => []
    case InLeft(up, x, _, r) => [x] + Inorder(r) + After(up)
    case InRight(up, _, _, _) => After(up)
  }

  function Up<V>(p: Path<V>, t: Tree<V>): Tree<V>
    requires !p.Top?
  {
    if p.InLeft? then Fork(t, p.node, p.color, p.other) else Fork(p.other, p.node, p.color, t)
  }

  /** The whole tree obtained by putting `t` into the hole of `p`. */
  function Plug<V>(p: Path<V>, t: Tree<V>): Tree<V> {
    if p.Top? then t else Plug(p.up, Up(p, t))
  }

  /** Concatenation, regrouped around two single elements as a rotation regroups three subtrees. */
  lemma {:induction false} Regroup<V>(a: seq<V>, x: V, b: seq<V>, y: V, c: seq<V>)
    ensures (a + [x] + b) + [y] + c == a + [x] + (b + [y] + c)
  {
  }

  lemma {:induction false} Concat4<V>(a: seq<V>, b: seq<V>, c: seq<V>, d: seq<V>)
    ensures a + (b + c) + d == a + b + (c + d)
  {
  }

  lemma {:induction false} Concat5<V>(a: seq<V>, b: seq<V>, c: seq<V>, d: seq<V>, e: seq<V>)
    ensures a + (b + c + d) + e == a + b + (c + d + e) == (a + b + c) + d + e
  {
  }

  lemma {:induction false} PlugInorder<V>(p: Path<V>, t: Tree<V>)
    ensures Inorder(Plug(p, t)) == Before(p) + Inorder(t) + After(p)
    decreases p
  {
    if !p.Top? {
      PlugInorder(p.up, Up(p, t));
      if p.InLeft? {
        Concat5(Before(p.up), Inorder(t), [p.node], Inorder(p.other), After(p.up));
      } else {
        Concat5(Before(p.up), Inorder(p.other), [p.node], Inorder(t), After(p.up));
      }
    }
  }

  // ---------- the red-black conditions ----------

  predicate IsRed<V>(t: Tree<V>) { t.Fork? && t.color.Red? }

  function Weight(c: Color): nat { if c.Black? then 1 else 0 }

  /** Black nodes on the way down, counted along the left spine. */
  function BlackHeight<V>(t: Tree<V>): nat {
    match t
    case Leaf => 0
    case Fork(l, _, c, _) => BlackHeight(l) + Weight(c)
  }

  /** No red node has a red child, and both sides of every node have the same black height. */
  predicate Balanced<V>(t: Tree<V>) {
    match t
    case Leaf => true
    case Fork(l, _, c, r) =>
      && Balanced(l) && Balanced(r)
      && BlackHeight(l) == BlackHeight(r)
      && (c.Red? ==> !IsRed(l) && !IsRed(r))
  }

  predicate RedBlack<V>(t: Tree<V>) { Balanced(t) && !IsRed(t) }

  /** A path whose hole takes a subtree of black height `h`: every other subtree is balanced, and
      every red ancestor has a black parent and a black other child. */
  predicate Fits<V>(p: Path<V>, h: nat) {
    p.Top? ||
    (&& Balanced(p.other)
     && BlackHeight(p.other) == h
     && (p.color.Red? ==> !IsRed(p.other) && !p.up.Top? && p.up.color.Black?)
     && Fits(p.up, h + Weight(p.color)))
  }

  predicate BlackAbove<V>(p: Path<V>) { !p.Top? && p.color.Black? }

  lemma {:induction false} PlugRedBlack<V>(p: Path<V>, t: Tree<V>)
    requires Fits(p, BlackHeight(t)) && Balanced(t)
    requires IsRed(t) ==> BlackAbove(p)
    ensures RedBlack(Plug(p, t))
    decreases p
  {
    if !p.Top? { PlugRedBlack(p.up, Up(p, t)); }
  }

  /** Any path taken out of a red-black tree fits what was below it. */
  lemma {:induction false} UnplugFits<V>(p: Path<V>, t: Tree<V>)
    requires RedBlack(Plug(p, t))
    ensures Fits(p, BlackHeight(t)) && Balanced(t)
    ensures IsRed(t) ==> BlackAbove(p)
    decreases p
  {
    if !p.Top? { UnplugFits(p.up, Up(p, t)); }
  }

  // ---------- rb_insert_color ----------

  function Blacken<V>(t: Tree<V>): Tree<V> {
    if t.Fork? then t.(color := Black) else t
  }

  /** The tree rb_insert_color leaves when it starts at the red node at the root of `t`.
      A red parent without a parent of its own cannot be reached in a red-black tree; the value
      given there is arbitrary. */
  function InsertFix<V>(p: Path<V>, t: Tree<V>): Tree<V>
    requires IsRed(t)
    decreases p
  {
    if p.Top? || p.color.Black? || p.up.Top? then Blacken(Plug(p, t))
    else
      var g := p.up;
      if IsRed(g.other) then
        InsertFix(g.up, RedMovedUp(p, t))
      else
        Blacken(Plug(g.up, InsertRotate(p, t)))
  }

  /** A red uncle: the red of parent and uncle moves to the grandparent. */
  function RedMovedUp<V>(p: Path<V>, t: Tree<V>): Tree<V>
    requires !p.Top? && !p.up.Top?
  {
    Up(p.up.(color := Red, other := Blacken(p.up.other)), Up(p.(color := Black), t))
  }

  /** The rotations at the grandparent: the parent (after the inner rotation, the node itself)
      becomes the black root of the subtree. */
  function InsertRotate<V>(p: Path<V>, t: Tree<V>): Tree<V>
    requires IsRed(t) && !p.Top? && !p.up.Top?
  {
    var g := p.up;
    if g.InLeft? then
      if p.InLeft? then Fork(t, p.node, Black, Fork(p.other, g.node, Red, g.other))
      else Fork(Fork(p.other, p.node, Red, t.left), t.node, Black, Fork(t.right, g.node, Red, g.other))
    else
      if p.InRight? then Fork(Fork(g.other, g.node, Red, p.other), p.node, Black, t)
      else Fork(Fork(g.other, g.node, Red, t.left), t.node, Black, Fork(t.right, p.node, Red, p.other))
  }

  lemma {:induction false} InsertRotateInorder<V>(p: Path<V>, t: Tree<V>)
    requires IsRed(t) && !p.Top? && !p.up.Top?
    ensures Inorder(InsertRotate(p, t)) == Inorder(Up(p.up, Up(p, t)))
  {
    var g := p.up;
    var gs, ps, ls, rs := Inorder(g.other), Inorder(p.other), Inorder(t.left), Inorder(t.right);
    if g.InLeft? && p.InLeft? {
      Regroup(Inorder(t), p.node, ps, g.node, gs);
    } else if g.InLeft? {
      assert Inorder(Up(p, t)) == (ps + [p.node] + ls) + [t.node] + rs by { Regroup(ps, p.node, ls, t.node, rs); }
      Regroup(ps + [p.node] + ls, t.node, rs, g.node, gs);
    } else if p.InRight? {
      Regroup(gs, g.node, ps, p.node, Inorder(t));
    } else {
      assert Inorder(Up(p, t)) == ls + [t.node] + (rs + [p.node] + ps) by { Regroup(ls, t.node, rs, p.node, ps); }
      Regroup(gs, g.node, ls, t.node, rs + [p.node] + ps);
    }
  }

  lemma {:induction false} InsertFixInorder<V>(p: Path<V>, t: Tree<V>)
    requires IsRed(t)
    ensures Inorder(InsertFix(p, t)) == Inorder(Plug(p, t))
    decreases p
  {
    if p.Top? || p.color.Black? || p.up.Top? {
    } else {
      var g := p.up;
      var t0 := Up(g, Up(p, t));
      var t1 := if IsRed(g.other) then RedMovedUp(p, t) else InsertRotate(p, t);
      if IsRed(g.other) { InsertFixInorder(g.up, t1); } else { InsertRotateInorder(p, t); }
      PlugInorder(g.up, t0);
      PlugInorder(g.up, t1);
    }
  }

  lemma {:induction false} InsertRotateBalanced<V>(p: Path<V>, t: Tree<V>)
    requires IsRed(t) && Balanced(t) && Fits(p, BlackHeight(t))
    requires !p.Top? && p.color.Red? && !IsRed(p.up.other)
    ensures RedBlack(InsertRotate(p, t))
    ensures BlackHeight(InsertRotate(p, t)) == BlackHeight(t) + 1
  {
    var g := p.up;
    assert Fits(g, BlackHeight(t));
  }

  lemma {:induction false} InsertFixRedBlack<V>(p: Path<V>, t: Tree<V>)
    requires IsRed(t) && Balanced(t) && Fits(p, BlackHeight(t))
    ensures RedBlack(InsertFix(p, t))
    decreases p
  {
    if p.Top? {
    } else if p.color.Black? {
      PlugRedBlack(p, t);
    } else if IsRed(p.up.other) {
      var g := p.up;
      assert Balanced(Blacken(g.other));
      InsertFixRedBlack(g.up, RedMovedUp(p, t));
    } else {
      InsertRotateBalanced(p, t);
      PlugRedBlack(p.up.up, InsertRotate(p, t));
    }
  }

  /** rb_insert_color keeps the order of the nodes and restores every red-black condition, wherever
      the red node was put. */
  lemma {:induction false} InsertFixCorrect<V>(p: Path<V>, t: Tree<V>)
    requires IsRed(t) && Balanced(t) && Fits(p, BlackHeight(t))
    ensures RedBlack(InsertFix(p, t))
    ensures Inorder(InsertFix(p, t)) == Before(p) + Inorder(t) + After(p)
  {
    InsertFixRedBlack(p, t);
    InsertFixInorder(p, t);
    PlugInorder(p, t);
  }

  // ---------- __rb_erase_color ----------

  function Depth<V>(p: Path<V>): nat { if p.Top? then 0 else 1 + Depth(p.up) }

  /** When the other child is red it is rotated above the parent, so that the new one is black. */
  function BlackSibling<V>(p: Path<V>): (q: Path<V>)
    requires !p.Top?
    ensures !q.Top? && (q == p || (q.color.Red? && !q.up.Top? && Depth(q.up) == Depth(p)))
  {
    if !IsRed(p.other) then p
    else if p.InLeft? then
      InLeft(InLeft(p.up, p.other.node, Black, p.other.right), p.node, Red, p.other.left)
    else
      InRight(InRight(p.up, p.other.node, Black, p.other.left), p.node, Red, p.other.right)
  }

  /** The last rotations: the missing black node is made up for below the parent. */
  function EraseRotate<V>(p: Path<V>, t: Tree<V>): Tree<V>
    requires !p.Top? && p.other.Fork? && (IsRed(p.other.left) || IsRed(p.other.right))
  {
    var o := p.other;
    if p.InLeft? then
      if !IsRed(o.right) then
        Fork(Fork(t, p.node, Black, o.left.left), o.left.node, p.color, Fork(o.left.right, o.node, Black, o.right))
      else
        Fork(Fork(t, p.node, Black, o.left), o.node, p.color, Blacken(o.right))
    else
      if !IsRed(o.left) then
        Fork(Fork(o.left, o.node, Black, o.right.left), o.right.node, p.color, Fork(o.right.right, p.node, Black, t))
      else
        Fork(Blacken(o.left), o.node, p.color, Fork(o.right, p.node, Black, t))
  }

  /** The other child is made red too, so that the node above is short on both sides. */
  function ShortMovedUp<V>(p: Path<V>, t: Tree<V>): Tree<V>
    requires !p.Top? && p.other.Fork?
  {
    Up(p.(other := p.other.(color := Red)), t)
  }

  /** The tree __rb_erase_color leaves when the subtree `t` is one black node short. An other
      subtree that is empty cannot be reached in a red-black tree; the value given there is
      arbitrary. */
  function EraseFix<V>(p: Path<V>, t: Tree<V>): Tree<V>
    decreases if IsRed(t) then 0 else 1 + Depth(p)
  {
    if IsRed(t) || p.Top? then Plug(p, Blacken(t))
    else
      var q := BlackSibling(p);
      if q.other.Leaf? then Plug(q, t)
      else if !IsRed(q.other.left) && !IsRed(q.other.right) then
        EraseFix(q.up, ShortMovedUp(q, t))
      else
        Blacken(Plug(q.up, EraseRotate(q, t)))
  }

  lemma {:induction false} BlackSiblingInorder<V>(p: Path<V>)
    requires !p.Top?
    ensures Before(BlackSibling(p)) == Before(p) && After(BlackSibling(p)) == After(p)
  {
    var o := p.other;
    if IsRed(o) {
      var ls, rs := Inorder(o.left), Inorder(o.right);
      if p.InLeft? {
        Concat5([p.node], ls, [o.node], rs, After(p.up));
      } else {
        Concat5(Before(p.up), ls, [o.node], rs, [p.node]);
      }
    }
  }

  lemma {:induction false} EraseRotateInorder<V>(p: Path<V>, t: Tree<V>)
    requires !p.Top? && p.other.Fork? && (IsRed(p.other.left) || IsRed(p.other.right))
    ensures Inorder(EraseRotate(p, t)) == Inorder(Up(p, t))
  {
    var o := p.other;
    var ts, ls, rs := Inorder(t), Inorder(o.left), Inorder(o.right);
    if p.InLeft? {
      Regroup(ts, p.node, ls, o.node, rs);
      if !IsRed(o.right) {
        Regroup(Inorder(o.left.left), o.left.node, Inorder(o.left.right), o.node, rs);
        Regroup(ts, p.node, Inorder(o.left.left), o.left.node, Inorder(o.left.right) + [o.node] + rs);
      }
    } else {
      Regroup(ls, o.node, rs, p.node, ts);
      if !IsRed(o.left) {
        Regroup(ls, o.node, Inorder(o.right.left), o.right.node, Inorder(o.right.right));
        Regroup(ls + [o.node] + Inorder(o.right.left), o.right.node, Inorder(o.right.right), p.node, ts);
      }
    }
  }

  lemma {:induction false} EraseFixInorder<V>(p: Path<V>, t: Tree<V>)
    ensures Inorder(EraseFix(p, t)) == Before(p) + Inorder(t) + After(p)
    decreases if IsRed(t) then 0 else 1 + Depth(p)
  {
    if IsRed(t) || p.Top? {
      PlugInorder(p, Blacken(t));
    } else {
      BlackSiblingInorder(p);
      var q := BlackSibling(p);
      PlugInorder(q, t);
      PlugInorder(q.up, Up(q, t));
      if q.other.Leaf? {
      } else if !IsRed(q.other.left) && !IsRed(q.other.right) {
        EraseFixInorder(q.up, ShortMovedUp(q, t));
      } else {
        EraseRotateInorder(q, t);
        PlugInorder(q.up, EraseRotate(q, t));
      }
    }
  }

  lemma {:induction false} EraseRotateBalanced<V>(p: Path<V>, t: Tree<V>)
    requires Balanced(t) && !IsRed(t) && !p.Top? && Fits(p, BlackHeight(t) + 1)
    requires p.other.Fork? && p.other.color.Black? && (IsRed(p.other.left) || IsRed(p.other.right))
    ensures Balanced(EraseRotate(p, t))
    ensures BlackHeight(EraseRotate(p, t)) == BlackHeight(t) + 1 + Weight(p.color)
    ensures IsRed(EraseRotate(p, t)) <==> p.color.Red?
  {
    var o := p.other;
    assert Balanced(o.left) && Balanced(o.right);
    if p.InLeft? && !IsRed(o.right) {
      assert Balanced(o.left.left) && Balanced(o.left.right);
      assert Balanced(Fork(t, p.node, Black, o.left.left));
    } else if p.InRight? && !IsRed(o.left) {
      assert Balanced(o.right.left) && Balanced(o.right.right);
      assert Balanced(Fork(o.right.right, p.node, Black, t));
    }
  }

  /** Below a hole that wants at least one black node the other subtree is not empty, and once its
      top is black the path still fits. */
  lemma {:induction false} BlackSiblingFits<V>(p: Path<V>, h: nat)
    requires !p.Top? && h > 0 && Fits(p, h)
    ensures var q := BlackSibling(p);
            && Fits(q, h) && q.other.Fork? && q.other.color.Black? && Balanced(q.other)
            && BlackHeight(q.other.left) == BlackHeight(q.other.right) == h - 1
            && (q.color.Red? ==> BlackAbove(q.up))
  {
    if IsRed(p.other) {
      assert Balanced(p.other.left) && Balanced(p.other.right);
    }
  }

  /** When both children of the other child are black it is made red and the shortage moves up. */
  lemma {:induction false} EraseClimb<V>(q: Path<V>, t: Tree<V>)
    requires !q.Top? && Fits(q, BlackHeight(t) + 1) && Balanced(t) && !IsRed(t)
    requires q.other.Fork? && q.other.color.Black? && !IsRed(q.other.left) && !IsRed(q.other.right)
    ensures var t' := ShortMovedUp(q, t);
            Balanced(Blacken(t')) && Fits(q.up, BlackHeight(t') + 1)
  {
  }

  lemma {:induction false} EraseRotateDone<V>(q: Path<V>, t: Tree<V>)
    requires Balanced(t) && !IsRed(t) && !q.Top? && Fits(q, BlackHeight(t) + 1)
    requires q.other.Fork? && q.other.color.Black? && (IsRed(q.other.left) || IsRed(q.other.right))
    ensures RedBlack(Blacken(Plug(q.up, EraseRotate(q, t))))
  {
    EraseRotateBalanced(q, t);
    PlugRedBlack(q.up, EraseRotate(q, t));
  }

  lemma {:induction false} EraseFixRedBlack<V>(p: Path<V>, t: Tree<V>)
    requires Balanced(Blacken(t)) && Fits(p, BlackHeight(t) + 1)
    ensures RedBlack(EraseFix(p, t))
    decreases if IsRed(t) then 0 else 1 + Depth(p)
  {
    if IsRed(t) || p.Top? {
      PlugRedBlack(p, Blacken(t));
    } else {
      assert Balanced(t);
      var q := BlackSibling(p);
      BlackSiblingFits(p, BlackHeight(t) + 1);
      if !IsRed(q.other.left) && !IsRed(q.other.right) {
        EraseClimb(q, t);
        EraseFixRedBlack(q.up, ShortMovedUp(q, t));
      } else {
        EraseRotateDone(q, t);
      }
    }
  }

  /** __rb_erase_color keeps the order of the nodes and restores every red-black condition when the
      subtree it starts at is one black node short. */
  lemma {:induction false} EraseFixCorrect<V>(p: Path<V>, t: Tree<V>)
    requires Balanced(Blacken(t)) && Fits(p, BlackHeight(t) + 1)
    ensures RedBlack(EraseFix(p, t))
    ensures Inorder(EraseFix(p, t)) == Before(p) + Inorder(t) + After(p)
  {
    EraseFixRedBlack(p, t);
    EraseFixInorder(p, t);
  }

  // ---------- rb_erase ----------

  /** The subtree at the end of the left spine, and the path to it from below `base`. */
  function Leftmost<V>(t: Tree<V>): (m: Tree<V>)
    requires t.Fork?
    ensures m.Fork? && m.left.Leaf?
  {
    if t.left.Leaf? then t else Leftmost(t.left)
  }

  function LeftmostPath<V>(base: Path<V>, t: Tree<V>): Path<V>
    requires t.Fork?
    decreases t
  {
    if t.left.Leaf? then base else LeftmostPath(InLeft(base, t.node, t.color, t.right), t.left)
  }

  lemma {:induction false} LeftmostPathKeeps<V>(base: Path<V>, t: Tree<V>)
    requires t.Fork? && Balanced(t) && Fits(base, BlackHeight(t))
    requires IsRed(t) ==> BlackAbove(base)
    ensures Fits(LeftmostPath(base, t), BlackHeight(Leftmost(t))) && Balanced(Leftmost(t))
    ensures IsRed(Leftmost(t)) ==> BlackAbove(LeftmostPath(base, t))
    decreases t
  {
    if t.left.Fork? { LeftmostPathKeeps(InLeft(base, t.node, t.color, t.right), t.left); }
  }

  lemma {:induction false} LeftmostPathInorder<V>(base: Path<V>, t: Tree<V>)
    requires t.Fork?
    ensures var q := LeftmostPath(base, t);
            && Before(q) == Before(base)
            && Inorder(Leftmost(t)) + After(q) == Inorder(t) + After(base)
            && Inorder(Leftmost(t)) == [Leftmost(t).node] + Inorder(Leftmost(t).right)
    decreases t
  {
    if t.left.Fork? {
      var b := InLeft(base, t.node, t.color, t.right);
      LeftmostPathInorder(b, t.left);
      assert Inorder(t.left) + After(b) == Inorder(t) + After(base);
    }
  }

  /** Taking out a node with at most one child. */
  function Splice<V>(p: Path<V>, color: Color, child: Tree<V>): Tree<V> {
    if color.Black? then EraseFix(p, child) else Plug(p, child)
  }

  /** The tree rb_erase leaves when it removes the node at the root of `t`. With two children the
      next node in order takes its place and colour, and that node is spliced out instead. */
  function Erase<V>(p: Path<V>, t: Tree<V>): Tree<V>
    requires t.Fork?
  {
    if t.left.Leaf? then Splice(p, t.color, t.right)
    else if t.right.Leaf? then Splice(p, t.color, t.left)
    else
      var next := Leftmost(t.right);
      Splice(LeftmostPath(InRight(p, next.node, t.color, t.left), t.right), next.color, next.right)
  }

  lemma {:induction false} SpliceInorder<V>(p: Path<V>, color: Color, child: Tree<V>)
    ensures Inorder(Splice(p, color, child)) == Before(p) + Inorder(child) + After(p)
  {
    if color.Black? { EraseFixInorder(p, child); } else { PlugInorder(p, child); }
  }

  lemma {:induction false} SpliceRedBlack<V>(p: Path<V>, t: Tree<V>, child: Tree<V>)
    requires t.Fork? && Balanced(t) && Fits(p, BlackHeight(t)) && (IsRed(t) ==> BlackAbove(p))
    requires (t.left.Leaf? && child == t.right) || (t.right.Leaf? && child == t.left)
    ensures RedBlack(Splice(p, t.color, child))
  {
    assert BlackHeight(child) + Weight(t.color) == BlackHeight(t);
    if t.color.Black? { EraseFixRedBlack(p, child); } else { PlugRedBlack(p, child); }
  }

  /** Two children: the next node moves up, so the order loses the erased node only. */
  lemma {:induction false} EraseNextInorder<V>(p: Path<V>, t: Tree<V>)
    requires t.Fork? && t.right.Fork?
    ensures var next := Leftmost(t.right);
            var q := LeftmostPath(InRight(p, next.node, t.color, t.left), t.right);
            Before(q) + Inorder(next.right) + After(q) == Before(p) + (Inorder(t.left) + Inorder(t.right)) + After(p)
  {
    var next := Leftmost(t.right);
    var base := InRight(p, next.node, t.color, t.left);
    var q := LeftmostPath(base, t.right);
    LeftmostPathInorder(base, t.right);
    var ls, rs := Inorder(t.left), Inorder(next.right);
    Concat5(Before(p), ls, [next.node], rs, After(q));
    Concat4(Before(p), ls, Inorder(t.right), After(p));
  }

  lemma {:induction false} EraseInorder<V>(p: Path<V>, t: Tree<V>)
    requires t.Fork?
    ensures Inorder(Erase(p, t)) == Before(p) + (Inorder(t.left) + Inorder(t.right)) + After(p)
  {
    if t.left.Leaf? {
      SpliceInorder(p, t.color, t.right);
    } else if t.right.Leaf? {
      SpliceInorder(p, t.color, t.left);
    } else {
      var next := Leftmost(t.right);
      EraseNextInorder(p, t);
      SpliceInorder(LeftmostPath(InRight(p, next.node, t.color, t.left), t.right), next.color, next.right);
    }
  }

  lemma {:induction false} EraseRedBlack<V>(p: Path<V>, t: Tree<V>)
    requires t.Fork? && Balanced(t) && Fits(p, BlackHeight(t)) && (IsRed(t) ==> BlackAbove(p))
    ensures RedBlack(Erase(p, t))
  {
    if t.left.Leaf? {
      SpliceRedBlack(p, t, t.right);
    } else if t.right.Leaf? {
      SpliceRedBlack(p, t, t.left);
    } else {
      var next := Leftmost(t.right);
      var base := InRight(p, next.node, t.color, t.left);
      LeftmostPathKeeps(base, t.right);
      SpliceRedBlack(LeftmostPath(base, t.right), next, next.right);
    }
  }

  /** rb_erase on any node of any red-black tree leaves a red-black tree whose nodes are the old
      ones, in the old order, without the erased one. */
  lemma {:induction false} EraseCorrect<V>(p: Path<V>, t: Tree<V>)
    requires t.Fork? && RedBlack(Plug(p, t))
    ensures RedBlack(Erase(p, t))
    ensures Inorder(Plug(p, t)) == Before(p) + (Inorder(t.left) + [t.node] + Inorder(t.right)) + After(p)
    ensures Inorder(Erase(p, t)) == Before(p) + (Inorder(t.left) + Inorder(t.right)) + After(p)
  {
    UnplugFits(p, t);
    EraseRedBlack(p, t);
    EraseInorder(p, t);
    PlugInorder(p, t);
  }

  // ---------- height ----------

  function Height<V>(t: Tree<V>): nat {
    if t.Leaf? then 0
    else 1 + if Height(t.left) < Height(t.right) then Height(t.right) else Height(t.left)
  }

  lemma {:induction false} HeightOfBlack<V>(t: Tree<V>)
    requires Balanced(t)
    ensures Height(t) <= 2 * BlackHeight(t) + (if IsRed(t) then 1 else 0)
    ensures Pow2(BlackHeight(t)) <= |Inorder(t)| + 1
  {
    if t.Fork? { HeightOfBlack(t.left); HeightOfBlack(t.right); }
  }

  lemma {:induction false} ProductMonotone(b: nat, n: nat)
    requires b <= n
    ensures b * b <= n * n
  {
    assert b * b <= n * b;
  }

  /** A red-black tree of n nodes is at most 2 log2(n + 1) high. */
  lemma {:induction false} HeightBound<V>(t: Tree<V>)
    requires RedBlack(t)
    ensures Pow2(Height(t)) <= (|Inorder(t)| + 1) * (|Inorder(t)| + 1)
  {
    HeightOfBlack(t);
    var b, n := Pow2(BlackHeight(t)), |Inorder(t)| + 1;
    Pow2Monotone(Height(t), 2 * BlackHeight(t));
    Pow2Sum(BlackHeight(t), BlackHeight(t));
    ProductMonotone(b, n);
  }
}
