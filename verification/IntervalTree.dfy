// The interval tree of IntervalTree.cc, rewiring its nodes in place.

module IntervalTrees {
  import opened IntervalNodes
  import opened IntervalHeap
  import opened IntervalColours
  import opened IntervalQuery
  import opened Powers

  class IntervalTree {
    const nil: Node
    const root: Node
    // The tree the linked nodes stand for, and those nodes with the sentinels.
    ghost var tree: Tree
    ghost var repr: set<Node>
    // The recursion stack of query; its allocated size is the sequence's length.
    var stack: seq<Frame>
    var stackTop: nat
    var currentParent: nat

    ghost predicate Shaped()
      reads this`tree, this`repr, repr
    {
      nil in repr && root in repr && Shape(Cells(repr), tree, root, nil) && nil.maxHigh == -MAX_TIME
    }

    ghost predicate Exact()
      reads this`tree, this`repr, repr
    {
      HighOK(MaxHighs(repr), tree)
    }

    constructor ()
      ensures Valid() && Idle() && tree == Empty && fresh(repr)
    {
      var n := new Node.Nil();
      nil := n;
      root := new Node.Root(n);
      tree := Empty;
      repr := {root, nil};
      stack := seq(128, _ => Frame(null, 0, false));
      stackTop := 1;
      currentParent := 0;
    }

    lemma Peek(c: Ctx, t: Tree)
      requires Shaped() && tree == Plug(c, t)
      ensures Par(c, root) in repr && Head(t, nil) in repr && Par(c, root) != nil && Head(t, nil) != Par(c, root)
        && !nil.red
      ensures t.Bin? ==>
        t.n.left == Head(t.l, nil) && t.n.right == Head(t.r, nil) && t.n.parent == Par(c, root) && t.n.red == t.red
      ensures t.Bin? ==> t.n != nil && t.n != root && t.n.left in repr && t.n.right in repr
      ensures t.Bin? ==> (t.l.Bin? ==> t.n.left != nil && t.n.left != t.n.right) && (t.r.Bin? ==> t.n.right != nil)
      ensures c.Top? ==> root.left == Head(t, nil) && !root.red
      ensures c.Lft? ==> c.n.left == Head(t, nil) && c.n.right == Head(c.r, nil)
      ensures c.Rgt? ==> c.n.left == Head(c.l, nil) && c.n.right == Head(t, nil)
      ensures !c.Top? ==> c.n.parent == Par(c.up, root) && c.n.red == c.red && c.n != root
      ensures !c.Top? && (t.Bin? || Sibling(c).Bin?) ==> c.n.left != c.n.right
    {
      var h := Cells(repr);
      Look(h, c, t, root, nil);
      assert t.Bin? ==> h[t.n] == Cell(t.n.left, t.n.right, t.n.parent, t.n.red);
      assert h[Par(c, root)] == Cell(Par(c, root).left, Par(c, root).right, Par(c, root).parent, Par(c, root).red);
    }

    lemma SameOrder(c: Ctx, t: Tree, s: Tree)
      requires s == Recolour(t, s.Bin? && s.red) || (t.Bin? && t.r.Bin? && s == RotL(t))
        || (t.Bin? && t.l.Bin? && s == RotR(t))
      ensures Inorder(Plug(c, s)) == Inorder(Plug(c, t))
    {
      PlugInorder(c, s);
      PlugInorder(c, t);
      if t.Bin? && t.r.Bin? { RotLKeeps(t); }
      if t.Bin? && t.l.Bin? { RotRKeeps(t); }
    }

    // The assignments of leftRotate, field by field.
    twostate predicate LeftFields(x: Node)
      reads *
    {
      var y, p := old(x.right), old(x.parent);
      var b := old(y.left);
      && x.left == old(x.left) && x.right == b && x.parent == y && x.red == old(x.red)
      && y.left == x && y.right == old(y.right) && y.parent == p && y.red == old(y.red)
      && b.parent == (if b == nil then old(b.parent) else x)
      && b.left == old(b.left) && b.right == old(b.right) && b.red == old(b.red) && b.maxHigh == old(b.maxHigh)
      && p.parent == old(p.parent) && p.red == old(p.red) && p.maxHigh == old(p.maxHigh)
      && p.left == (if old(p.left) == x then y else old(p.left))
      && p.right == (if old(p.left) == x then old(p.right) else y)
      && x.maxHigh == Max(old(x.left.maxHigh), Max(b.maxHigh, x.high))
      && y.maxHigh == Max(x.maxHigh, Max(old(y.right.maxHigh), y.high))
    }

    method LeftRotate(x: Node)
      requires x != x.right && x != x.parent && x != x.left && x != x.right.left && x != x.right.right
      requires x.right != x.parent && x.right != x.right.left && x.right != x.right.right && x.right != x.left
      requires x.right.left != x.parent && x.right != nil && x != nil && x.parent != nil
      modifies x, x.right, {x.right.left} - {nil}, x.parent
      ensures LeftFields(x)
    {
      var y := x.right;
      x.right := y.left;
      if y.left != nil {
        y.left.parent := x;
      }
      y.parent := x.parent;
      if x == x.parent.left {
        x.parent.left := y;
      } else {
        x.parent.right := y;
      }
      y.left := x;
      x.parent := y;
      x.maxHigh := Max(x.left.maxHigh, Max(x.right.maxHigh, x.high));
      y.maxHigh := Max(x.maxHigh, Max(y.right.maxHigh, y.high));
    }

    twostate lemma LeftView(x: Node)
      requires old(x in repr && x.right in repr && x.parent in repr && x.right.left in repr) && repr == old(repr)
      requires LeftFields(x)
      requires forall n :: n in repr && n !in {x, old(x.right), old(x.parent)} + ({old(x.right.left)} - {nil}) ==>
        unchanged(n)
      ensures LeftRotated(old(Cells(repr)), Cells(repr), x, nil)
      ensures SameOff(old(MaxHighs(repr)), MaxHighs(repr), {x, old(x.right)})
      ensures MaxHighs(repr)[x] == Max(old(x.left.maxHigh), Max(old(x.right.left.maxHigh), x.high))
      ensures var y := old(x.right);
        MaxHighs(repr)[y] == Max(MaxHighs(repr)[x], Max(old(x.right.right.maxHigh), y.high))
    {}

    // leftRotate at the top of the subtree t in the hole of c.
    method LeftRotateAt(x: Node, ghost c: Ctx, ghost t: Tree)
      requires Shaped() && Exact() && tree == Plug(c, t) && t.Bin? && t.r.Bin? && t.n == x
      modifies this`tree, repr
      ensures Shaped() && Exact() && tree == Plug(c, RotL(t)) && Inorder(tree) == old(Inorder(tree))
        && nil.parent == old(nil.parent)
    {
      hide Shape, HighOK, Plug, Inorder, LeftFields, Head, MaxHigh, Max, Cells, MaxHighs, RotL, SameOff, LeftRotated,
        Distinct;
      ghost var h, g := Cells(repr), MaxHighs(repr);
      LeftReady(x, c, t);
      tree := Plug(c, RotL(t));
      LeftRotate(x);
      LeftView(x);
      LeftRotatedShape(h, Cells(repr), c, t, root, nil);
      LeftRotatedHigh(g, MaxHighs(repr), c, t);
      SameOrder(c, t, RotL(t));
    }

    // What leftRotate reads, and that it reads different nodes.
    lemma LeftReady(x: Node, c: Ctx, t: Tree)
      requires Shaped() && Exact() && tree == Plug(c, t) && t.Bin? && t.r.Bin? && t.n == x
      ensures {x, x.right, x.parent, x.right.left} <= repr && x.right == t.r.n
      ensures x != x.right && x != x.parent && x != x.left && x != x.right.left && x != x.right.right
      ensures x.right != x.parent && x.right != x.right.left && x.right != x.right.right && x.right != x.left
      ensures x.right.left != x.parent && x.right != nil && x != nil && x.parent != nil
      ensures x.left == Head(t.l, nil) && x.left.maxHigh == MaxHigh(t.l)
      ensures x.right.left == Head(t.r.l, nil) && x.right.left.maxHigh == MaxHigh(t.r.l)
      ensures x.right.right == Head(t.r.r, nil) && x.right.right.maxHigh == MaxHigh(t.r.r)
      ensures x.parent == Par(c, root) && nil in repr && Distinct(Plug(c, t))
    {
      LeftRotateReady(Cells(repr), c, t, root, nil);
      LeftHighReady(c, t);
      hide Shape, HighOK, Plug, MaxHigh;
    }

    lemma LeftHighReady(c: Ctx, t: Tree)
      requires Shaped() && Exact() && tree == Plug(c, t) && t.Bin? && t.r.Bin?
      ensures Head(t.l, nil).maxHigh == MaxHigh(t.l)
      ensures Head(t.r.l, nil).maxHigh == MaxHigh(t.r.l)
      ensures Head(t.r.r, nil).maxHigh == MaxHigh(t.r.r)
    {
      var g := MaxHighs(repr);
      PlugHigh(g, c, t);
      assert HighOK(g, t.l) && HighOK(g, t.r.l) && HighOK(g, t.r.r);
    }

    // The assignments of rightRotate, field by field.
    twostate predicate RightFields(y: Node)
      reads *
    {
      var x, p := old(y.left), old(y.parent);
      var b := old(x.right);
      && y.right == old(y.right) && y.left == b && y.parent == x && y.red == old(y.red)
      && x.right == y && x.left == old(x.left) && x.parent == p && x.red == old(x.red)
      && b.parent == (if b == nil then old(b.parent) else y)
      && b.left == old(b.left) && b.right == old(b.right) && b.red == old(b.red) && b.maxHigh == old(b.maxHigh)
      && p.parent == old(p.parent) && p.red == old(p.red) && p.maxHigh == old(p.maxHigh)
      && p.left == (if old(p.left) == y then x else old(p.left))
      && p.right == (if old(p.left) == y then old(p.right) else x)
      && y.maxHigh == Max(b.maxHigh, Max(old(y.right.maxHigh), y.high))
      && x.maxHigh == Max(old(x.left.maxHigh), Max(y.maxHigh, x.high))
    }

    method RightRotate(y: Node)
      requires y != y.left && y != y.parent && y != y.right && y != y.left.left && y != y.left.right
      requires y.left != y.parent && y.left != y.left.left && y.left != y.left.right && y.left != y.right
      requires y.left.right != y.parent && y.left != nil && y != nil && y.parent != nil
      modifies y, y.left, {y.left.right} - {nil}, y.parent
      ensures RightFields(y)
    {
      var x := y.left;
      y.left := x.right;
      if nil != x.right {
        x.right.parent := y;
      }
      x.parent := y.parent;
      if y == y.parent.left {
        y.parent.left := x;
      } else {
        y.parent.right := x;
      }
      x.right := y;
      y.parent := x;
      y.maxHigh := Max(y.left.maxHigh, Max(y.right.maxHigh, y.high));
      x.maxHigh := Max(x.left.maxHigh, Max(y.maxHigh, x.high));
    }

    twostate lemma RightView(y: Node)
      requires old(y in repr && y.left in repr && y.parent in repr && y.left.right in repr) && repr == old(repr)
      requires RightFields(y)
      requires forall n :: n in repr && n !in {y, old(y.left), old(y.parent)} + ({old(y.left.right)} - {nil}) ==>
        unchanged(n)
      ensures RightRotated(old(Cells(repr)), Cells(repr), y, nil)
      ensures SameOff(old(MaxHighs(repr)), MaxHighs(repr), {y, old(y.left)})
      ensures MaxHighs(repr)[y] == Max(old(y.left.right.maxHigh), Max(old(y.right.maxHigh), y.high))
      ensures var x := old(y.left); MaxHighs(repr)[x] == Max(old(y.left.left.maxHigh), Max(MaxHighs(repr)[y], x.high))
    {}

    // rightRotate at the top of the subtree t in the hole of c.
    method RightRotateAt(y: Node, ghost c: Ctx, ghost t: Tree)
      requires Shaped() && Exact() && tree == Plug(c, t) && t.Bin? && t.l.Bin? && t.n == y
      modifies this`tree, repr
      ensures Shaped() && Exact() && tree == Plug(c, RotR(t)) && Inorder(tree) == old(Inorder(tree))
        && nil.parent == old(nil.parent)
    {
      hide Shape, HighOK, Plug, Inorder, RightFields, Head, MaxHigh, Max, Cells, MaxHighs, RotR, SameOff, RightRotated,
        Distinct;
      ghost var h, g := Cells(repr), MaxHighs(repr);
      RightReady(y, c, t);
      tree := Plug(c, RotR(t));
      RightRotate(y);
      RightView(y);
      RightRotatedShape(h, Cells(repr), c, t, root, nil);
      RightRotatedHigh(g, MaxHighs(repr), c, t);
      SameOrder(c, t, RotR(t));
    }

    // What rightRotate reads, and that it reads different nodes.
    lemma RightReady(y: Node, c: Ctx, t: Tree)
      requires Shaped() && Exact() && tree == Plug(c, t) && t.Bin? && t.l.Bin? && t.n == y
      ensures {y, y.left, y.parent, y.left.right} <= repr && y.left == t.l.n
      ensures y != y.left && y != y.parent && y != y.right && y != y.left.right && y != y.left.left
      ensures y.left != y.parent && y.left != y.left.right && y.left != y.left.left && y.left != y.right
      ensures y.left.right != y.parent && y.left != nil && y != nil && y.parent != nil
      ensures y.right == Head(t.r, nil) && y.right.maxHigh == MaxHigh(t.r)
      ensures y.left.right == Head(t.l.r, nil) && y.left.right.maxHigh == MaxHigh(t.l.r)
      ensures y.left.left == Head(t.l.l, nil) && y.left.left.maxHigh == MaxHigh(t.l.l)
      ensures y.parent == Par(c, root) && nil in repr && Distinct(Plug(c, t))
    {
      RightRotateReady(Cells(repr), c, t, root, nil);
      RightHighReady(c, t);
      hide Shape, HighOK, Plug, MaxHigh;
    }

    lemma RightHighReady(c: Ctx, t: Tree)
      requires Shaped() && Exact() && tree == Plug(c, t) && t.Bin? && t.l.Bin?
      ensures Head(t.r, nil).maxHigh == MaxHigh(t.r)
      ensures Head(t.l.l, nil).maxHigh == MaxHigh(t.l.l)
      ensures Head(t.l.r, nil).maxHigh == MaxHigh(t.l.r)
    {
      var g := MaxHighs(repr);
      PlugHigh(g, c, t);
      assert HighOK(g, t.r) && HighOK(g, t.l.l) && HighOK(g, t.l.r);
    }

    // Colours n, the top of the subtree t in the hole of c (or nil).
    method Paint(n: Node, red: bool, ghost c: Ctx, ghost t: Tree)
      requires Shaped() && Exact() && tree == Plug(c, t) && n == Head(t, nil) && (t.Empty? ==> !red)
      modifies this`tree, n`red
      ensures Shaped() && Exact() && tree == Plug(c, Recolour(t, red)) && Inorder(tree) == old(Inorder(tree))
    {
      hide Shape, HighOK, Plug, Inorder;
      Peek(c, t);
      tree := Plug(c, Recolour(t, red));
      n.red := red;
      Painted(Zip(c, t));
      SameOrder(c, t, Recolour(t, red));
    }

    // Only the colour of one node, the top of z.t, has changed.
    twostate lemma Painted(z: Zip)
      requires old(Shaped() && Exact()) && old(tree) == Plug(z.c, z.t) && Head(z.t, nil) in repr && repr == old(repr)
      requires tree == Plug(z.c, Recolour(z.t, Head(z.t, nil).red)) && (z.t.Empty? ==> !nil.red)
      requires forall m :: m in repr ==> unchanged(m`left, m`right, m`parent, m`maxHigh)
      requires forall m :: m in repr && m != Head(z.t, nil) ==> m.red == old(m.red)
      ensures Shaped() && Exact()
    {
      var c, t, h, k := z.c, z.t, old(Cells(repr)), Cells(repr);
      ShapeParts(h, c, t, root, nil);
      FrameHigh(old(MaxHighs(repr)), MaxHighs(repr), {}, Plug(c, t));
      if t.Bin? {
        HighRecolour(MaxHighs(repr), c, t, t.n.red);
        RecolouredShape(h, k, c, t, t.n.red, root, nil);
      } else {
        assert !old(nil.red);
        assert h == k;
      }
    }

    // fixupMaxHigh(x) repairs every max_high from x up to the root.
    method FixupMaxHigh(x: Node, ghost c: Ctx, ghost t: Tree)
      requires Shaped() && tree == Plug(c, t) && x == Par(c, root)
      requires HighOK(MaxHighs(repr), t) && HighSides(MaxHighs(repr), c)
      modifies repr`maxHigh
      ensures Shaped() && Exact()
    {
      hide Shape, HighOK, HighSides;
      var x := x;
      ghost var c, t := c, t;
      while x != root
        invariant tree == Plug(c, t) && x == Par(c, root) && Shaped()
        invariant HighOK(MaxHighs(repr), t) && HighSides(MaxHighs(repr), c)
        decreases Depth(c)
      {
        ghost var z := Climb(c, t);
        Peek(z.c, z.t);
        RepairMaxHigh(x, c, t);
        x := x.parent;
        c, t := z.c, z.t;
      }
      Peek(c, t);
      assert c.Top?;
    }

    // One step of fixupMaxHigh.
    method RepairMaxHigh(x: Node, ghost c: Ctx, ghost t: Tree)
      requires Shaped() && tree == Plug(c, t) && !c.Top? && x == c.n
      requires HighOK(MaxHighs(repr), t) && HighSides(MaxHighs(repr), c)
      modifies x`maxHigh
      ensures Shaped() && HighOK(MaxHighs(repr), Climb(c, t).t) && HighSides(MaxHighs(repr), c.up)
    {
      Peek(Climb(c, t).c, Climb(c, t).t);
      ReadHighs(c, t);
      hide Shape, HighOK, HighSides;
      x.maxHigh := Max(x.high, Max(x.left.maxHigh, x.right.maxHigh));
      Repaired(Zip(c, t));
    }

    lemma ReadHighs(c: Ctx, t: Tree)
      requires Shaped() && tree == Plug(c, t) && !c.Top?
      requires HighOK(MaxHighs(repr), t) && HighSides(MaxHighs(repr), c)
      ensures Head(t, nil).maxHigh == MaxHigh(t) && Head(Sibling(c), nil).maxHigh == MaxHigh(Sibling(c))
    {
      Look(Cells(repr), c, t, root, nil);
      assert HighOK(MaxHighs(repr), Sibling(c));
    }

    // Only max_high of z.c's innermost node has changed, and it is now right.
    twostate lemma Repaired(z: Zip)
      requires old(Shaped()) && repr == old(repr) && tree == old(tree) == Plug(z.c, z.t) && !z.c.Top?
      requires old(HighOK(MaxHighs(repr), z.t) && HighSides(MaxHighs(repr), z.c))
      requires forall m :: m in repr ==> unchanged(m`left, m`right, m`parent, m`red)
      requires forall m :: m in repr && m != z.c.n ==> m.maxHigh == old(m.maxHigh)
      requires z.c.n in repr && z.c.n.maxHigh == MaxHigh(Climb(z.c, z.t).t)
      ensures Shaped() && HighOK(MaxHighs(repr), Climb(z.c, z.t).t) && HighSides(MaxHighs(repr), z.c.up)
    {
      hide Shape, Plug;
      var g, k := old(MaxHighs(repr)), MaxHighs(repr);
      ShapeParts(old(Cells(repr)), z.c, z.t, root, nil);
      FrameHigh(g, k, {z.c.n}, z.t);
      FrameHigh(g, k, {z.c.n}, Sibling(z.c));
      SideNodesOfCtx(z.c.up);
      FrameHighSides(g, k, {z.c.n}, z.c.up);
      assert Cells(repr) == old(Cells(repr));
    }

    // The descent of recursiveInsert: y is where a node with this key goes, as a
    // left child exactly when y is the root sentinel or has a larger key.
    method FindSlot(key: SimTime) returns (y: Node, ghost c: Ctx)
      requires Shaped() && Ordered(Inorder(tree))
      ensures tree == Plug(c, Empty) && y == Par(c, root) && y in repr
      ensures c.Rgt? <==> !(y == root || y.key > key)
      ensures forall n :: n in Pre(c) ==> n.key <= key
      ensures forall n :: n in Post(c) ==> key < n.key
    {
      y := root;
      var x := root.left;
      c := Top;
      ghost var t := tree;
      while x != nil
        invariant tree == Plug(c, t) && x == Head(t, nil) && y == Par(c, root)
        invariant forall n :: n in Pre(c) ==> n.key <= key
        invariant forall n :: n in Post(c) ==> key < n.key
        decreases t
      {
        Peek(c, t);
        OrderedAround(c, t);
        y := x;
        if x.key > key {
          x := x.left;
          c, t := Lft(c, t.n, t.red, t.r), t.l;
        } else {
          x := x.right;
          c, t := Rgt(t.l, t.n, t.red, c), t.r;
        }
      }
      Peek(c, t);
      assert c.Lft? ==> c.n in Post(c);
      assert c.Rgt? ==> c.n in Pre(c);
    }

    // The links recursiveInsert sets once it has found y.
    method LinkLeaf(z: Node, y: Node)
      requires y != z
      modifies y`left, y`right, z`left, z`right, z`parent
      ensures z.left == z.right == nil && z.parent == y
      ensures if y == root || y.key > z.key then y.left == z && y.right == old(y.right)
        else y.left == old(y.left) && y.right == z
    {
      z.left := nil;
      z.right := nil;
      z.parent := y;
      if y == root || y.key > z.key {
        y.left := z;
      } else {
        y.right := z;
      }
    }

    // recursiveInsert: z becomes a leaf between the nodes with keys up to z's
    // and those with larger keys; max_high above it is left to repair.
    method RecursiveInsert(z: Node) returns (ghost c: Ctx)
      requires Shaped() && Exact() && Ordered(Inorder(tree)) && z !in repr && !z.red && z.maxHigh == z.high
      modifies this`tree, this`repr, repr`left, repr`right, z`left, z`right, z`parent
      ensures Plug(c, Empty) == old(tree) && tree == Plug(c, Bin(Empty, z, false, Empty)) && repr == old(repr) + {z}
      ensures Shaped() && HighOK(MaxHighs(repr), Bin(Empty, z, false, Empty)) && HighSides(MaxHighs(repr), c)
      ensures forall n :: n in Pre(c) ==> n.key <= z.key
      ensures forall n :: n in Post(c) ==> z.key < n.key
      ensures z.parent == Par(c, root)
    {
      hide Shape, HighOK, HighSides, Plug, Inorder, Pre, Post, Ordered;
      var y;
      y, c := FindSlot(z.key);
      tree, repr := Plug(c, Bin(Empty, z, false, Empty)), repr + {z};
      LinkLeaf(z, y);
      Leafed(Zip(c, Bin(Empty, z, false, Empty)));
    }

    // A new leaf, the top of z.t, has been linked to the innermost node of z.c.
    twostate lemma Leafed(new z: Zip)
      requires z.t.Bin? && z.t == Bin(Empty, z.t.n, false, Empty)
      requires old(Shaped() && Exact()) && old(tree) == Plug(z.c, Empty) && tree == Plug(z.c, z.t)
      requires z.t.n !in old(repr) && repr == old(repr) + {z.t.n} && Par(z.c, root) in old(repr)
      requires z.t.n.left == z.t.n.right == nil && z.t.n.parent == Par(z.c, root) && !z.t.n.red
        && z.t.n.maxHigh == z.t.n.high
      requires forall m :: m in old(repr) ==> unchanged(m`parent, m`red, m`maxHigh)
      requires forall m :: m in old(repr) && m != Par(z.c, root) ==> unchanged(m`left, m`right)
      requires if z.c.Rgt? then unchanged(z.c.n`left) && z.c.n.right == z.t.n
        else unchanged(Par(z.c, root)`right) && Par(z.c, root).left == z.t.n
      ensures Shaped() && HighOK(MaxHighs(repr), z.t) && HighSides(MaxHighs(repr), z.c)
    {
      hide Shape, Plug;
      var g, k := old(MaxHighs(repr)), MaxHighs(repr);
      LeafShape(old(Cells(repr)), Cells(repr), z.c, z.t.n, root, nil);
      PlugHigh(g, z.c, Empty);
      FrameHighSides(g, k, {}, z.c);
    }

    // What insert's loop reads around x: parent, grandparent and uncle.
    lemma PeekUncle(c: Ctx, t: Tree)
      requires Shaped() && tree == Plug(c, t) && t.Bin? && !c.Top? && !c.up.Top?
      ensures t.n.parent == c.n && c.n.parent == c.up.n && {t.n, c.n, c.up.n} <= repr
      ensures (t.n == c.n.left) == c.Lft? && (t.n == c.n.right) == c.Rgt?
      ensures (c.n == c.up.n.left) == c.up.Lft?
      ensures (if c.up.Lft? then c.up.n.right else c.up.n.left) == Head(Sibling(c.up), nil)
      ensures Head(Sibling(c.up), nil) in repr && Head(Sibling(c.up), nil).red == IsRed(Sibling(c.up))
      ensures Plug(c.up, Climb(c, t).t) == tree && Plug(SiblingCtx(c.up, Climb(c, t).t), Sibling(c.up)) == tree
    {
      var p := Climb(c, t).t;
      assert Plug(c.up, p) == tree;
      assert Plug(SiblingCtx(c.up, p), Sibling(c.up)) == Plug(c.up, p);
      Peek(c, t);
      Peek(c.up, p);
      Peek(SiblingCtx(c.up, p), Sibling(c.up));
    }

    // The three recolourings of insert when the uncle y is red.
    method PaintUncle(x: Node, y: Node, ghost c: Ctx, ghost t: Tree)
      requires Shaped() && Exact() && tree == Plug(c, t) && RedAtHole(c, t) && x == t.n
      requires !c.Top? && c.red && !c.up.Top? && IsRed(Sibling(c.up)) && y == Sibling(c.up).n
      modifies this`tree, repr`red
      ensures Shaped() && Exact() && tree == Plug(c.up.up, PaintedUncle(c, t)) && RedAtHole(c.up.up, PaintedUncle(c, t))
      ensures Inorder(tree) == old(Inorder(tree))
    {
      hide Shaped, Exact, RB, Fits, Inorder, Plug, Recolour, Climb, Sibling, SiblingCtx, PaintedUncle;
      assert t.Bin?;
      PeekUncle(c, t);
      UncleSteps(c, t);
      RedUncle(c, t);
      hide Plug, Recolour, Climb, Sibling, SiblingCtx, PaintedUncle;
      ghost var g, p := c.up, Climb(c, t).t;
      Paint(x.parent, false, g, p);
      p := Recolour(p, false);
      Paint(y, false, SiblingCtx(g, p), Sibling(g));
      ghost var q := Climb(SiblingCtx(g, p), Recolour(Sibling(g), false)).t;
      Paint(x.parent.parent, true, g.up, q);
    }

    // The foci of the three recolourings.
    lemma UncleSteps(c: Ctx, t: Tree)
      requires t.Bin? && !c.Top? && !c.up.Top?
      ensures var g, p := c.up, Climb(c, t).t;
        var p', s := Recolour(p, false), Sibling(g);
        var d := SiblingCtx(g, p');
        && !d.Top? && d.up == g.up && Plug(g, p) == Plug(c, t) && Plug(d, s) == Plug(g, p')
        && var q := Climb(d, Recolour(s, false)).t;
        && Plug(g.up, q) == Plug(d, Recolour(s, false)) && Recolour(q, true) == PaintedUncle(c, t)
        && p.Bin? && p.n == c.n && q.Bin? && q.n == g.n
    {}

    // The parent turns black, and the grandparent red.
    method PaintStraight(x: Node, ghost c: Ctx, ghost t: Tree)
      requires Shaped() && Exact() && tree == Plug(c, t) && t.Bin? && x == t.n && !c.Top? && !c.up.Top?
      modifies this`tree, repr`red
      ensures Shaped() && Exact() && tree == Plug(c.up.up, StraightPainted(c, t)) && Inorder(tree) == old(Inorder(tree))
      ensures StraightPainted(c, t).Bin? && StraightPainted(c, t).n == c.up.n && x.parent.parent == c.up.n
    {
      hide Shaped, Exact, Inorder, Plug, Climb, Recolour, StraightPainted, Sibling, SiblingCtx;
      PeekUncle(c, t);
      StraightPaintSteps(c, t);
      ghost var p := Climb(c, t).t;
      Paint(x.parent, false, c.up, p);
      Paint(x.parent.parent, true, c.up.up, Climb(c.up, Recolour(p, false)).t);
    }

    lemma StraightPaintSteps(c: Ctx, t: Tree)
      requires t.Bin? && !c.Top? && !c.up.Top?
      ensures var p := Climb(c, t).t;
        && Plug(c.up, p) == Plug(c, t) && p.Bin? && p.n == c.n
        && var q := Climb(c.up, Recolour(p, false)).t;
        && Plug(c.up.up, q) == Plug(c.up, Recolour(p, false)) && q.Bin? && q.n == c.up.n
        && Recolour(q, true) == StraightPainted(c, t) && StraightPainted(c, t).Bin? && StraightPainted(c, t).n == c.up.n
    {}

    // Black uncle, x a left child of a left child: recolour, then rightRotate
    // the grandparent.
    method StraightLeft(x: Node, ghost c: Ctx, ghost t: Tree)
      requires Shaped() && Exact() && tree == Plug(c, t) && RedAtHole(c, t) && x == t.n
      requires c.Lft? && c.red && c.up.Lft? && !IsRed(Sibling(c.up))
      modifies this`tree, repr
      ensures Shaped() && Exact() && tree == Plug(Lifted(c), t) && RedAtHole(Lifted(c), t)
      ensures Inorder(tree) == old(Inorder(tree))
    {
      OuterGrandchild(c, t);
      StraightSteps(c, t);
      hide Shaped, Exact, Inorder, Plug, Lifted, StraightPainted, RotR, RB, Fits;
      PaintStraight(x, c, t);
      RightRotateAt(x.parent.parent, c.up.up, StraightPainted(c, t));
    }

    lemma StraightSteps(c: Ctx, t: Tree)
      requires t.Bin? && !c.Top? && !c.up.Top? && c.Lft? == c.up.Lft?
      ensures var r := StraightPainted(c, t);
        && r.Bin?
        && (c.Lft? ==> r.l.Bin? && Plug(c.up.up, RotR(r)) == Plug(Lifted(c), t))
        && (c.Rgt? ==> r.r.Bin? && Plug(c.up.up, RotL(r)) == Plug(Lifted(c), t))
    {}

    lemma OutwardsSteps(c: Ctx, t: Tree)
      requires t.Bin? && !c.Top? && !c.up.Top?
      ensures var g, p, z := c.up, Climb(c, t).t, Outwards(c, t);
        && Plug(g, p) == Plug(c, t) && p.Bin? && p.n == c.n
        && (c.Rgt? ==> p.r.Bin? && Plug(g, RotL(p)) == Plug(z.c, z.t))
        && (c.Lft? ==> p.l.Bin? && Plug(g, RotR(p)) == Plug(z.c, z.t))
    {}

    // One round of insert's loop, when x's parent is a left child.
    method InsertFixLeft(x: Node, ghost c: Ctx, ghost t: Tree) returns (x': Node, ghost z: Zip)
      requires Shaped() && Exact() && tree == Plug(c, t) && RedAtHole(c, t) && x == t.n
      requires !c.Top? && c.red && c.up.Lft?
      modifies this`tree, repr
      ensures Shaped() && Exact() && tree == Plug(z.c, z.t) && RedAtHole(z.c, z.t) && x' == z.t.n
      ensures Inorder(tree) == old(Inorder(tree))
      ensures Depth(z.c) < Depth(c) || (!z.c.Top? && !z.c.red)
    {
      hide Shaped, Exact, Inorder, Plug;
      PeekUncle(c, t);
      var y := x.parent.parent.right;
      if y.red {
        PaintUncle(x, y, c, t);
        x' := x.parent.parent;
        z := Zip(c.up.up, PaintedUncle(c, t));
      } else {
        x', z := x, Zip(c, t);
        if x == x.parent.right {
          OutwardsSteps(c, t);
          InnerGrandchild(c, t);
          x' := x.parent;
          LeftRotateAt(x', c.up, Climb(c, t).t);
          z := Outwards(c, t);
        }
        StraightLeft(x', z.c, z.t);
        z := Zip(Lifted(z.c), z.t);
      }
    }

    // Black uncle, x a right child of a right child.
    method StraightRight(x: Node, ghost c: Ctx, ghost t: Tree)
      requires Shaped() && Exact() && tree == Plug(c, t) && RedAtHole(c, t) && x == t.n
      requires c.Rgt? && c.red && c.up.Rgt? && !IsRed(Sibling(c.up))
      modifies this`tree, repr
      ensures Shaped() && Exact() && tree == Plug(Lifted(c), t) && RedAtHole(Lifted(c), t)
      ensures Inorder(tree) == old(Inorder(tree))
    {
      OuterGrandchild(c, t);
      StraightSteps(c, t);
      hide Shaped, Exact, Inorder, Plug, Lifted, StraightPainted, RotL, RB, Fits;
      PaintStraight(x, c, t);
      LeftRotateAt(x.parent.parent, c.up.up, StraightPainted(c, t));
    }

    // One round of insert's loop, when x's parent is a right child.
    method InsertFixRight(x: Node, ghost c: Ctx, ghost t: Tree) returns (x': Node, ghost z: Zip)
      requires Shaped() && Exact() && tree == Plug(c, t) && RedAtHole(c, t) && x == t.n
      requires !c.Top? && c.red && c.up.Rgt?
      modifies this`tree, repr
      ensures Shaped() && Exact() && tree == Plug(z.c, z.t) && RedAtHole(z.c, z.t) && x' == z.t.n
      ensures Inorder(tree) == old(Inorder(tree))
      ensures Depth(z.c) < Depth(c) || (!z.c.Top? && !z.c.red)
    {
      hide Shaped, Exact, Inorder, Plug;
      PeekUncle(c, t);
      var y := x.parent.parent.left;
      if y.red {
        PaintUncle(x, y, c, t);
        x' := x.parent.parent;
        z := Zip(c.up.up, PaintedUncle(c, t));
      } else {
        x', z := x, Zip(c, t);
        if x == x.parent.left {
          OutwardsSteps(c, t);
          InnerGrandchild(c, t);
          x' := x.parent;
          RightRotateAt(x', c.up, Climb(c, t).t);
          z := Outwards(c, t);
        }
        StraightRight(x', z.c, z.t);
        z := Zip(Lifted(z.c), z.t);
      }
    }

    // insert's loop and the final blackening of the real root.
    method InsertFixup(x: Node, ghost c: Ctx, ghost t: Tree)
      requires Shaped() && Exact() && tree == Plug(c, t) && RedAtHole(c, t) && x == t.n
      modifies this`tree, repr
      ensures Shaped() && Exact() && Balanced(tree) && Inorder(tree) == old(Inorder(tree))
    {
      hide Shaped, Exact, RB, Fits, Inorder;
      var x := x;
      ghost var z := Zip(c, t);
      Peek(z.c, z.t);
      while x.parent.red
        invariant Shaped() && Exact() && tree == Plug(z.c, z.t) && RedAtHole(z.c, z.t) && x == z.t.n
        invariant x in repr && x.parent in repr && x.parent.red == (!z.c.Top? && z.c.red)
        invariant Inorder(tree) == old(Inorder(tree)) && repr == old(repr)
        decreases if !z.c.Top? && z.c.red then Depth(z.c) + 1 else 0
      {
        HasGrandparent(z.c, z.t);
        PeekUncle(z.c, z.t);
        if x.parent == x.parent.parent.left {
          x, z := InsertFixLeft(x, z.c, z.t);
        } else {
          x, z := InsertFixRight(x, z.c, z.t);
        }
        Peek(z.c, z.t);
      }
      RedAtHoleDone(z.c, z.t);
      Peek(Top, tree);
      Paint(root.left, false, Top, tree);
    }

    ghost predicate Valid()
      reads this`tree, this`repr, repr
    {
      Shaped() && Exact() && Balanced(tree) && Ordered(Inorder(tree)) && forall n :: n in Inorder(tree) ==> Carries(n)
    }

    // insert up to its loop: x becomes a red leaf after every node with the same key.
    method AddLeaf(x: Node) returns (ghost c: Ctx)
      requires Valid() && x !in repr && !x.red && x.maxHigh == x.high && Carries(x)
      modifies this`tree, this`repr, repr, x
      ensures Shaped() && Exact() && tree == Plug(c, Bin(Empty, x, true, Empty))
        && RedAtHole(c, Bin(Empty, x, true, Empty))
      ensures repr == old(repr) + {x} && Inserted(old(Inorder(tree)), Inorder(tree), x)
    {
      hide Shaped, Exact, Balanced, Plug, Inorder, Ordered, Inserted, RedAtHole, HighOK, HighSides, Carries;
      c := RecursiveInsert(x);
      LeafInserted(c, x);
      FixupMaxHigh(x.parent, c, Bin(Empty, x, false, Empty));
      Paint(x, true, c, Bin(Empty, x, false, Empty));
    }

    // insert: the new node goes after every node with the same key.
    method Insert(iv: Interval) returns (newNode: Node)
      requires Valid()
      modifies this`tree, this`repr, repr
      ensures Valid() && fresh(newNode) && repr == old(repr) + {newNode} && newNode.interval == iv
      ensures var s, i := old(Inorder(tree)), UpperBound(old(Inorder(tree)), iv.low);
        Inorder(tree) == s[..i] + [newNode] + s[i..]
    {
      hide Shaped, Exact, Balanced, Ordered, Inorder, Plug, RedAtHole, UpperBound;
      newNode := new Node(iv, nil);
      ghost var c := AddLeaf(newNode);
      InsertFixup(newNode, c, Bin(Empty, newNode, true, Empty));
    }

    ghost predicate Inserted(s: seq<Node>, s': seq<Node>, x: Node) {
      var i := UpperBound(s, x.key);
      Carries(x) && s' == s[..i] + [x] + s[i..] && Ordered(s') && forall n :: n in s' ==> Carries(n)
    }

    // Deleting a node just inserted gives the order before.
    lemma DeleteUndoesInsert(s: seq<Node>, s': seq<Node>, s'': seq<Node>, x: Node)
      requires x !in s && s' == s[..UpperBound(s, x.key)] + [x] + s[UpperBound(s, x.key)..] && Removed(s', s'', x)
      ensures s'' == s
    {}

    lemma LeafInserted(c: Ctx, x: Node)
      requires Ordered(Inorder(Plug(c, Empty))) && Balanced(Plug(c, Empty))
        && forall n :: n in Inorder(Plug(c, Empty)) ==> Carries(n)
      requires Carries(x)
      requires forall n :: n in Pre(c) ==> n.key <= x.key
      requires forall n :: n in Post(c) ==> x.key < n.key
      ensures Inserted(Inorder(Plug(c, Empty)), Inorder(Plug(c, Bin(Empty, x, false, Empty))), x)
      ensures RedAtHole(c, Bin(Empty, x, true, Empty))
    {
      PlugBalanced(c, Empty);
      PlugInorder(c, Empty);
      PlugInorder(c, Bin(Empty, x, false, Empty));
      assert Inorder(Plug(c, Empty)) == Pre(c) + Post(c);
      assert Inorder(Plug(c, Bin(Empty, x, false, Empty))) == Pre(c) + [x] + Post(c);
      UpperBoundSplit(Pre(c), Post(c), x.key);
      OrderedInsert(Pre(c), x, Post(c));
    }

    // What deleteFixup reads around x: its parent, its sibling and the sibling's children.
    lemma PeekSibling(c: Ctx, t: Tree)
      requires Shaped() && tree == Plug(c, t) && !c.Top? && Sibling(c).Bin?
      ensures var s := Sibling(c);
        && c.n in repr && c.n.red == c.red && Head(t, nil) in repr && !nil.red
        && (Head(t, nil) == c.n.left) == c.Lft? && (if c.Lft? then c.n.right else c.n.left) == s.n
        && s.n in repr && s.n.left == Head(s.l, nil) && s.n.right == Head(s.r, nil) && s.n.red == s.red
        && s.n.left in repr && s.n.left.red == IsRed(s.l) && s.n.right in repr && s.n.right.red == IsRed(s.r)
        && Plug(SiblingCtx(c, t), s) == tree && Plug(c.up, Climb(c, t).t) == tree
    {
      var s, d := Sibling(c), SiblingCtx(c, t);
      assert Plug(d, s) == tree;
      Peek(c, t);
      Peek(d, s);
      Peek(Lft(d, s.n, s.red, s.r), s.l);
      Peek(Rgt(s.l, s.n, s.red, d), s.r);
    }

    // x is the top of t, or nil pointing back to where t would hang.
    ghost predicate At(x: Node, c: Ctx, t: Tree)
      reads this, repr, x
    {
      x in repr && Shaped() && Exact() && tree == Plug(c, t) && x == Head(t, nil) && x.parent == Par(c, root)
    }

    lemma AtParent(x: Node, c: Ctx, t: Tree)
      requires Shaped() && Exact() && tree == Plug(c, t) && x == Head(t, nil)
        && (t.Empty? ==> nil.parent == Par(c, root))
      ensures At(x, c, t)
    {
      Peek(c, t);
    }

    // The sibling turns red, and the fault moves up to the parent.
    method PaintSibling(x: Node, w: Node, ghost c: Ctx, ghost t: Tree)
      requires At(x, c, t) && !c.Top? && Sibling(c).Bin? && w == Sibling(c).n
      modifies this`tree, repr`red
      ensures At(x.parent, c.up, PaleSibling(c, t)) && x.parent == old(x.parent) && Inorder(tree) == old(Inorder(tree))
    {
      PeekSibling(c, t);
      assert Plug(SiblingCtx(c, t), Recolour(Sibling(c), true)) == Plug(c.up, PaleSibling(c, t));
      hide Shaped, Exact, Plug, Inorder;
      Paint(w, true, SiblingCtx(c, t), Sibling(c));
      AtParent(x.parent, c.up, PaleSibling(c, t));
    }

    // A red sibling turns black, and the parent red.
    method PaintRedSibling(x: Node, w: Node, ghost c: Ctx, ghost t: Tree)
      requires At(x, c, t) && !c.Top? && Sibling(c).Bin? && w == Sibling(c).n
      modifies this`tree, repr`red
      ensures Shaped() && Exact() && tree == Plug(c.up, SiblingPainted(c, t)) && Inorder(tree) == old(Inorder(tree))
    {
      PeekSibling(c, t);
      RedSiblingSteps(c, t);
      hide Shaped, Exact, Plug, Inorder, Recolour, Climb, Sibling, SiblingCtx, SiblingPainted;
      ghost var d, s := SiblingCtx(c, t), Sibling(c);
      Paint(w, false, d, s);
      Paint(x.parent, true, c.up, Climb(d, Recolour(s, false)).t);
    }

    lemma RedSiblingSteps(c: Ctx, t: Tree)
      requires !c.Top? && Sibling(c).Bin?
      ensures var d, s := SiblingCtx(c, t), Sibling(c);
        && d.n == c.n && d.up == c.up && Plug(d, s) == Plug(c, t)
        && var q := Climb(d, Recolour(s, false)).t;
        && Plug(c.up, q) == Plug(d, Recolour(s, false)) && q.Bin? && q.n == c.n
        && Recolour(q, true) == SiblingPainted(c, t)
    {}

    lemma NearRedSteps(c: Ctx, t: Tree)
      requires !c.Top? && Sibling(c).Bin? && (if c.Lft? then Sibling(c).l else Sibling(c).r).Bin?
      ensures var d, s := SiblingCtx(c, t), Sibling(c);
        && Plug(d, s) == Plug(c, t) && !NearRed(c).Top? && NearRed(c).n == c.n
        && var e, v := if c.Lft? then Lft(d, s.n, s.red, s.r) else Rgt(s.l, s.n, s.red, d), if c.Lft? then s.l else s.r;
        && Plug(e, v) == Plug(d, s)
        && var q := Climb(e, Recolour(v, false)).t;
        && Plug(d, q) == Plug(e, Recolour(v, false)) && q.Bin? && q.n == s.n
        && var r := Recolour(q, true);
        && r.Bin? && r.n == s.n
        && (c.Lft? ==> r.l.Bin? && Plug(d, RotR(r)) == Plug(NearRed(c), t))
        && (c.Rgt? ==> r.r.Bin? && Plug(d, RotL(r)) == Plug(NearRed(c), t))
    {}

    // The sibling takes the parent's colour; the parent and v, the sibling's far
    // child, turn black.
    method PaintFarRed(x: Node, w: Node, v: Node, ghost c: Ctx, ghost t: Tree)
      requires At(x, c, t) && !c.Top? && Sibling(c).Bin? && FarChild(c).Bin? && w == Sibling(c).n && v == FarChild(c).n
      modifies this`tree, repr`red
      ensures Shaped() && Exact() && tree == Plug(c.up, FarPainted(c, t)) && Inorder(tree) == old(Inorder(tree))
    {
      PeekSibling(c, t);
      FarRedSteps(c, t);
      hide Shaped, Exact, Plug, Inorder, Recolour, Climb, Sibling, SiblingCtx, FarChild, FarCtx, FarPainted;
      ghost var d, s := SiblingCtx(c, t), Sibling(c);
      Paint(w, x.parent.red, d, s);
      Paint(x.parent, false, c.up, Climb(d, Recolour(s, c.red)).t);
      Paint(v, false, FarCtx(c, t), FarChild(c));
    }

    lemma FarRedSteps(c: Ctx, t: Tree)
      requires !c.Top? && Sibling(c).Bin?
      ensures var d, s := SiblingCtx(c, t), Sibling(c);
        && d.n == c.n && d.up == c.up && Plug(d, s) == Plug(c, t)
        && var q := Climb(d, Recolour(s, c.red)).t;
        && Plug(c.up, q) == Plug(d, Recolour(s, c.red)) && q.Bin? && q.n == c.n
        && Plug(FarCtx(c, t), FarChild(c)) == Plug(c.up, Recolour(q, false))
        && Plug(FarCtx(c, t), Recolour(FarChild(c), false)) == Plug(c.up, FarPainted(c, t))
    {}

    // A red sibling is rotated above the parent, which takes its colour.
    method RotateRedSiblingLeft(x: Node, w: Node, ghost c: Ctx, ghost t: Tree)
      requires At(x, c, t) && c.Lft? && Sibling(c).Bin? && w == Sibling(c).n
      modifies this`tree, repr
      ensures At(x, RedSibling(c), t) && Inorder(tree) == old(Inorder(tree))
    {
      hide Shaped, Exact, Inorder;
      PaintRedSibling(x, w, c, t);
      Peek(c.up, SiblingPainted(c, t));
      assert Plug(c.up, RotL(SiblingPainted(c, t))) == Plug(RedSibling(c), t);
      LeftRotateAt(x.parent, c.up, SiblingPainted(c, t));
      AtParent(x, RedSibling(c), t);
    }

    // The near nephew is rotated above the sibling, and they change colours.
    method RotateNearRedLeft(x: Node, w: Node, ghost c: Ctx, ghost t: Tree)
      requires At(x, c, t) && c.Lft? && Sibling(c).Bin? && Sibling(c).l.Bin? && w == Sibling(c).n
      modifies this`tree, repr
      ensures At(x, NearRed(c), t) && Inorder(tree) == old(Inorder(tree))
    {
      hide Shaped, Exact, Plug, Inorder, Recolour, Climb, Sibling, SiblingCtx, NearRed, RotR;
      PeekSibling(c, t);
      NearRedSteps(c, t);
      ghost var d, s := SiblingCtx(c, t), Sibling(c);
      ghost var e := Lft(d, s.n, s.red, s.r);
      Paint(w.left, false, e, s.l);
      ghost var q := Climb(e, Recolour(s.l, false)).t;
      Paint(w, true, d, q);
      RightRotateAt(w, d, Recolour(q, true));
      AtParent(x, NearRed(c), t);
    }

    // The sibling takes the parent's colour, parent and far nephew turn black,
    // and the parent is rotated down.
    method RotateFarRedLeft(x: Node, w: Node, ghost c: Ctx, ghost t: Tree)
      requires At(x, c, t) && c.Lft? && Sibling(c).Bin? && FarChild(c).Bin? && w == Sibling(c).n
      modifies this`tree, repr
      ensures Shaped() && Exact() && tree == Plug(c.up, FarRed(c, t)) && Inorder(tree) == old(Inorder(tree))
      ensures c.n in Nodes(tree) && !c.n.red
    {
      hide Shaped, Exact, Inorder;
      PeekSibling(c, t);
      PaintFarRed(x, w, w.right, c, t);
      Peek(c.up, FarPainted(c, t));
      LeftRotateAt(x.parent, c.up, FarPainted(c, t));
      FarRedBlack(c, t);
    }

    // The same on the other side: a red sibling is rotated above the parent.
    method RotateRedSiblingRight(x: Node, w: Node, ghost c: Ctx, ghost t: Tree)
      requires At(x, c, t) && c.Rgt? && Sibling(c).Bin? && w == Sibling(c).n
      modifies this`tree, repr
      ensures At(x, RedSibling(c), t) && Inorder(tree) == old(Inorder(tree))
    {
      hide Shaped, Exact, Inorder;
      PaintRedSibling(x, w, c, t);
      Peek(c.up, SiblingPainted(c, t));
      assert Plug(c.up, RotR(SiblingPainted(c, t))) == Plug(RedSibling(c), t);
      RightRotateAt(x.parent, c.up, SiblingPainted(c, t));
      AtParent(x, RedSibling(c), t);
    }

    // The near nephew is rotated above the sibling, and they change colours.
    method RotateNearRedRight(x: Node, w: Node, ghost c: Ctx, ghost t: Tree)
      requires At(x, c, t) && c.Rgt? && Sibling(c).Bin? && Sibling(c).r.Bin? && w == Sibling(c).n
      modifies this`tree, repr
      ensures At(x, NearRed(c), t) && Inorder(tree) == old(Inorder(tree))
    {
      hide Shaped, Exact, Plug, Inorder, Recolour, Climb, Sibling, SiblingCtx, NearRed, RotL;
      PeekSibling(c, t);
      NearRedSteps(c, t);
      ghost var d, s := SiblingCtx(c, t), Sibling(c);
      ghost var e := Rgt(s.l, s.n, s.red, d);
      Paint(w.right, false, e, s.r);
      ghost var q := Climb(e, Recolour(s.r, false)).t;
      Paint(w, true, d, q);
      LeftRotateAt(w, d, Recolour(q, true));
      AtParent(x, NearRed(c), t);
    }

    // Recolouring, and the parent rotated down, as on the other side.
    method RotateFarRedRight(x: Node, w: Node, ghost c: Ctx, ghost t: Tree)
      requires At(x, c, t) && c.Rgt? && Sibling(c).Bin? && FarChild(c).Bin? && w == Sibling(c).n
      modifies this`tree, repr
      ensures Shaped() && Exact() && tree == Plug(c.up, FarRed(c, t)) && Inorder(tree) == old(Inorder(tree))
      ensures c.n in Nodes(tree) && !c.n.red
    {
      hide Shaped, Exact, Inorder;
      PeekSibling(c, t);
      PaintFarRed(x, w, w.left, c, t);
      Peek(c.up, FarPainted(c, t));
      RightRotateAt(x.parent, c.up, FarPainted(c, t));
      FarRedBlack(c, t);
    }

    lemma FarRedBlack(c: Ctx, t: Tree)
      requires Shaped() && Exact() && !c.Top? && Sibling(c).Bin? && tree == Plug(c.up, FarRed(c, t))
      ensures c.n in Nodes(tree) && !c.n.red
    {
      var f := FarRed(c, t);
      var d := if c.Lft? then Lft(c.up, f.n, f.red, f.r) else Rgt(f.l, f.n, f.red, c.up);
      var u := if c.Lft? then f.l else f.r;
      assert tree == Plug(d, u);
      Peek(d, u);
      PlugNodes(d, u);
    }

    // What deleteFixup's loop keeps: either the fault is still at x, or the
    // tree is balanced again and x is the root node it started with.
    ghost predicate Fixing(x: Node, rootLeft: Node, z: Zip, done: bool)
      reads this, repr, x
    {
      if done then Shaped() && Exact() && Balanced(tree) && x == rootLeft && x in Nodes(tree) && x in repr && !x.red
      else At(x, z.c, z.t) && Short(z.c, z.t) && (IsRed(z.t) || Head(tree, nil) == rootLeft)
    }

    lemma RootIsBlack(r: Node, c: Ctx, t: Tree)
      requires Shaped() && Balanced(tree) && tree == Plug(c, t)
      requires (r in Nodes(tree) && !r.red) || (!c.Top? && Outermost(c) == r)
      ensures r in Nodes(tree) && r in repr && !r.red
    {
      if !(r in Nodes(tree) && !r.red) {
        HeadPlug(c, t, nil);
        Peek(Top, tree);
      }
    }

    function Remaining(z: Zip, done: bool): nat {
      if done then 0 else if IsRed(z.t) then 1 else Depth(z.c) + 2
    }

    // One round of deleteFixup's loop, when x is a left child.
    method DeleteFixLeft(x: Node, rootLeft: Node, ghost c: Ctx, ghost t: Tree)
      returns (x': Node, ghost z: Zip, ghost done: bool)
      requires Fixing(x, rootLeft, Zip(c, t), false) && !IsRed(t) && c.Lft?
      modifies this`tree, repr
      ensures Fixing(x', rootLeft, z, done) && Remaining(z, done) < Remaining(Zip(c, t), false)
      ensures Inorder(tree) == old(Inorder(tree))
    {
      hide Shaped, Exact, RB, Fits, Short, Balanced, Inorder, NodesC, RedSibling, Plug, Nodes;
      ShortSibling(c, t);
      PeekSibling(c, t);
      HeadPlug(c, t, nil);
      ghost var c' := c;
      var w := x.parent.right;
      if w.red {
        RotateRedSiblingLeft(x, w, c', t);
        RedSiblingShort(c', t);
        RedSiblingIs(c');
        c' := RedSibling(c');
        ShortSibling(c', t);
        PeekSibling(c', t);
        w := x.parent.right;
      }
      x', z, done := BlackSiblingLeft(x, w, rootLeft, c', t);
    }

    // The rest of the round, with a black sibling.
    method BlackSiblingLeft(x: Node, w: Node, rootLeft: Node, ghost c: Ctx, ghost t: Tree)
      returns (x': Node, ghost z: Zip, ghost done: bool)
      requires At(x, c, t) && Short(c, t) && !IsRed(t) && c.Lft? && Sibling(c).Bin? && w == Sibling(c).n
        && !IsRed(Sibling(c))
      requires rootLeft == c.n || (!c.up.Top? && Outermost(c.up) == rootLeft)
      requires c.red || Head(tree, nil) == rootLeft
      modifies this`tree, repr
      ensures Fixing(x', rootLeft, z, done) && Inorder(tree) == old(Inorder(tree))
      ensures Remaining(z, done) <= if c.red then 1 else Depth(c) + 1
    {
      hide Shaped, Exact, RB, Fits, Short, Balanced, Inorder, NodesC, NearRed, Plug, Nodes;
      PeekSibling(c, t);
      HeadPlug(c, t, nil);
      if !w.right.red && !w.left.red {
        PaintSibling(x, w, c, t);
        PaleSiblingShort(c, t);
        x', z, done := x.parent, Zip(c.up, PaleSibling(c, t)), false;
        if !c.up.Top? {
          HeadPlug(z.c, z.t, nil);
        } else {
          HeadOf(z.t);
        }
      } else {
        ghost var c' := c;
        var w' := w;
        if !w.right.red {
          RotateNearRedLeft(x, w, c, t);
          NearRedShort(c, t);
          NearRedIs(c);
          c' := NearRed(c);
          PeekSibling(c', t);
          w' := x.parent.right;
        }
        FarRedEndLeft(x, w', rootLeft, c', t);
        x', z, done := rootLeft, Zip(c, t), true;
      }
    }

    // ... and its last case.
    method FarRedEndLeft(x: Node, w: Node, rootLeft: Node, ghost c: Ctx, ghost t: Tree)
      requires At(x, c, t) && Short(c, t) && !IsRed(t) && c.Lft? && Sibling(c).Bin? && w == Sibling(c).n
        && !IsRed(Sibling(c)) && IsRed(FarChild(c))
      requires rootLeft == c.n || (!c.up.Top? && Outermost(c.up) == rootLeft)
      modifies this`tree, repr
      ensures Fixing(rootLeft, rootLeft, Zip(c, t), true) && Inorder(tree) == old(Inorder(tree))
    {
      hide Shaped, Exact, RB, Fits, Short, Balanced, Inorder, NodesC, FarRed, Plug, Nodes, At;
      FarRedDone(c, t);
      RotateFarRedLeft(x, w, c, t);
      RootIsBlack(rootLeft, c.up, FarRed(c, t));
    }

    // One round of deleteFixup's loop, when x is a right child.
    method DeleteFixRight(x: Node, rootLeft: Node, ghost c: Ctx, ghost t: Tree)
      returns (x': Node, ghost z: Zip, ghost done: bool)
      requires Fixing(x, rootLeft, Zip(c, t), false) && !IsRed(t) && c.Rgt?
      modifies this`tree, repr
      ensures Fixing(x', rootLeft, z, done) && Remaining(z, done) < Remaining(Zip(c, t), false)
      ensures Inorder(tree) == old(Inorder(tree))
    {
      hide Shaped, Exact, RB, Fits, Short, Balanced, Inorder, NodesC, RedSibling, Plug, Nodes;
      ShortSibling(c, t);
      PeekSibling(c, t);
      HeadPlug(c, t, nil);
      ghost var c' := c;
      var w := x.parent.left;
      if w.red {
        RotateRedSiblingRight(x, w, c', t);
        RedSiblingShort(c', t);
        RedSiblingIs(c');
        c' := RedSibling(c');
        ShortSibling(c', t);
        PeekSibling(c', t);
        w := x.parent.left;
      }
      x', z, done := BlackSiblingRight(x, w, rootLeft, c', t);
    }

    // The rest of the round, with a black sibling.
    method BlackSiblingRight(x: Node, w: Node, rootLeft: Node, ghost c: Ctx, ghost t: Tree)
      returns (x': Node, ghost z: Zip, ghost done: bool)
      requires At(x, c, t) && Short(c, t) && !IsRed(t) && c.Rgt? && Sibling(c).Bin? && w == Sibling(c).n
        && !IsRed(Sibling(c))
      requires rootLeft == c.n || (!c.up.Top? && Outermost(c.up) == rootLeft)
      requires c.red || Head(tree, nil) == rootLeft
      modifies this`tree, repr
      ensures Fixing(x', rootLeft, z, done) && Inorder(tree) == old(Inorder(tree))
      ensures Remaining(z, done) <= if c.red then 1 else Depth(c) + 1
    {
      hide Shaped, Exact, RB, Fits, Short, Balanced, Inorder, NodesC, NearRed, Plug, Nodes;
      PeekSibling(c, t);
      HeadPlug(c, t, nil);
      if !w.right.red && !w.left.red {
        PaintSibling(x, w, c, t);
        PaleSiblingShort(c, t);
        x', z, done := x.parent, Zip(c.up, PaleSibling(c, t)), false;
        if !c.up.Top? {
          HeadPlug(z.c, z.t, nil);
        } else {
          HeadOf(z.t);
        }
      } else {
        ghost var c' := c;
        var w' := w;
        if !w.left.red {
          RotateNearRedRight(x, w, c, t);
          NearRedShort(c, t);
          NearRedIs(c);
          c' := NearRed(c);
          PeekSibling(c', t);
          w' := x.parent.left;
        }
        FarRedEndRight(x, w', rootLeft, c', t);
        x', z, done := rootLeft, Zip(c, t), true;
      }
    }

    // ... and its last case.
    method FarRedEndRight(x: Node, w: Node, rootLeft: Node, ghost c: Ctx, ghost t: Tree)
      requires At(x, c, t) && Short(c, t) && !IsRed(t) && c.Rgt? && Sibling(c).Bin? && w == Sibling(c).n
        && !IsRed(Sibling(c)) && IsRed(FarChild(c))
      requires rootLeft == c.n || (!c.up.Top? && Outermost(c.up) == rootLeft)
      modifies this`tree, repr
      ensures Fixing(rootLeft, rootLeft, Zip(c, t), true) && Inorder(tree) == old(Inorder(tree))
    {
      hide Shaped, Exact, RB, Fits, Short, Balanced, Inorder, NodesC, FarRed, Plug, Nodes, At;
      FarRedDone(c, t);
      RotateFarRedRight(x, w, c, t);
      RootIsBlack(rootLeft, c.up, FarRed(c, t));
    }

    lemma HeadOf(t: Tree)
      ensures Plug(Top, t) == t
    {}

    method DeleteFixup(x: Node, ghost c: Ctx, ghost t: Tree)
      requires At(x, c, t) && Short(c, t)
      modifies this`tree, repr
      ensures Shaped() && Exact() && Balanced(tree) && Inorder(tree) == old(Inorder(tree))
    {
      hide Shaped, Exact, Inorder, RB, Fits, Short, Balanced;
      var x := x;
      ghost var z, done := Zip(c, t), false;
      Peek(c, t);
      var rootLeft := root.left;
      Peek(Top, tree);
      while !x.red && rootLeft != x
        invariant Fixing(x, rootLeft, z, done) && x in repr && repr == old(repr)
        invariant Inorder(tree) == old(Inorder(tree))
        decreases Remaining(z, done)
      {
        Peek(z.c, z.t);
        ShortSibling(z.c, z.t);
        PeekSibling(z.c, z.t);
        if x == x.parent.left {
          x, z, done := DeleteFixLeft(x, rootLeft, z.c, z.t);
        } else {
          x, z, done := DeleteFixRight(x, rootLeft, z.c, z.t);
        }
      }
      if done {
        ghost var c', t' := Locate(tree, Top, x);
        z := Zip(c', t');
      }
      FixupDone(x, rootLeft, z, done);
      Paint(x, false, z.c, z.t);
    }

    lemma FixupDone(x: Node, rootLeft: Node, z: Zip, done: bool)
      requires Shaped() && Exact() && (x.red || rootLeft == x) && tree == Plug(z.c, z.t) && x == Head(z.t, nil)
      requires if done then Balanced(tree) && !x.red && z.t.Bin? else Fixing(x, rootLeft, z, false)
      ensures Balanced(Plug(z.c, Recolour(z.t, false)))
    {
      Peek(z.c, z.t);
      if !done {
        if !z.c.Top? {
          HeadPlug(z.c, z.t, nil);
          ShapeParts(Cells(repr), z.c, z.t, root, nil);
        }
        ShortDone(z.c, z.t);
      }
    }

    // getMinimum: the leftmost node of the subtree t.
    method GetMinimum(x: Node, ghost c: Ctx, ghost t: Tree) returns (m: Node)
      requires Shaped() && tree == Plug(c, t) && t.Bin? && x == t.n
      ensures m == MinTree(t).n && tree == Plug(MinCtx(t, c), MinTree(t))
    {
      m := x;
      ghost var c', t' := c, t;
      Peek(c', t');
      while m.left != nil
        invariant tree == Plug(c', t') && t'.Bin? && m == t'.n && m.left == Head(t'.l, nil)
          && (t'.l.Bin? ==> t'.l.n != nil)
        invariant MinTree(t') == MinTree(t) && MinCtx(t', c') == MinCtx(t, c)
        decreases t'
      {
        m := m.left;
        c', t' := Lft(c', t'.n, t'.red, t'.r), t'.l;
        Peek(c', t');
      }
    }

    // getSuccessor: the next node in order, or the root sentinel after the last.
    method GetSuccessor(x: Node, ghost c: Ctx, ghost t: Tree) returns (y: Node)
      requires Shaped() && tree == Plug(c, t) && t.Bin? && x == t.n
      ensures var rest := Inorder(t.r) + Post(c); y == if rest == [] then root else rest[0]
      ensures t.r.Bin? ==> y == MinTree(t.r).n && tree == Plug(MinCtx(t.r, Rgt(t.l, t.n, t.red, c)), MinTree(t.r))
    {
      Peek(c, t);
      if nil != x.right {
        Peek(Rgt(t.l, t.n, t.red, c), t.r);
        MinOrder(t.r);
        y := GetMinimum(x.right, Rgt(t.l, t.n, t.red, c), t.r);
      } else {
        var x := x;
        ghost var c', t' := c, t;
        y := x.parent;
        while y != nil && x == y.right
          invariant tree == Plug(c', t') && t'.Bin? && x == t'.n && y == Par(c', root) && Post(c') == Post(c)
          decreases Depth(c')
        {
          Peek(c', t');
          ghost var z := Climb(c', t');
          Peek(z.c, z.t);
          assert root.right == nil;
          x := y;
          y := y.parent;
          c', t' := z.c, z.t;
        }
        Peek(c', t');
      }
    }

    // The links deleteNode sets to put x in the place of its parent y.
    method SpliceLinks(y: Node, x: Node)
      requires x != y && x != y.parent && y != y.parent && y.parent.left != y.parent.right
      modifies x`parent, y.parent`left, y.parent`right
      ensures x.parent == old(y.parent)
      ensures var p := old(y.parent);
        if p == root || y == old(p.left) then p.left == x && p.right == old(p.right)
          else p.left == old(p.left) && p.right == x
    {
      x.parent := y.parent;
      if root == x.parent {
        root.left := x;
      } else if y == y.parent.left {
        y.parent.left := x;
      } else {
        y.parent.right := x;
      }
    }

    // The node at the top of z.t, with at most one child, has given way to that child.
    twostate lemma Spliced(z: Zip)
      requires old(Shaped()) && old(tree) == Plug(z.c, z.t) && z.t.Bin? && (z.t.l.Empty? || z.t.r.Empty?)
      requires repr == old(repr) - {z.t.n} && tree == Plug(z.c, OnlyChild(z.t))
      requires Par(z.c, root) in repr && Head(OnlyChild(z.t), nil) in repr
        && Head(OnlyChild(z.t), nil).parent == Par(z.c, root)
      requires forall m :: m in repr ==> unchanged(m`red, m`maxHigh)
      requires forall m :: m in repr && m != Par(z.c, root) ==> unchanged(m`left, m`right)
      requires forall m :: m in repr && m != Head(OnlyChild(z.t), nil) ==> unchanged(m`parent)
      requires var p, s := Par(z.c, root), Head(OnlyChild(z.t), nil);
        if z.c.Rgt? then unchanged(p`left) && p.right == s else unchanged(p`right) && p.left == s
      ensures Shaped()
    {
      var h, k, p, s := old(Cells(repr)), Cells(repr), Par(z.c, root), Head(OnlyChild(z.t), nil);
      SpliceReady(h, z.c, z.t, root, nil);
      forall n | n in h && n !in {z.t.n, s, nil, p} ensures n in k && k[n] == h[n] {
        assert n in repr;
      }
      assert p in repr && s in repr && nil in repr;
      SplicedShape(h, k, z.c, z.t, OnlyChild(z.t), root, nil);
    }

    // deleteNode's first steps: y, the top of t, is spliced out and x takes its place.
    method SpliceOut(y: Node, x: Node, ghost c: Ctx, ghost t: Tree)
      requires Shaped() && tree == Plug(c, t) && t.Bin? && y == t.n && (t.l.Empty? || t.r.Empty?)
      requires x == Head(OnlyChild(t), nil)
      modifies this`tree, this`repr, repr`left, repr`right, repr`parent
      ensures Shaped() && tree == Plug(c, OnlyChild(t)) && repr == old(repr) - {y} && x in repr
        && x.parent == Par(c, root)
      ensures unchanged(y)
    {
      hide Shape, Inorder, Plug, OnlyChild;
      Peek(c, t);
      SpliceReady(Cells(repr), c, t, root, nil);
      tree, repr := Plug(c, OnlyChild(t)), repr - {y};
      SpliceLinks(y, x);
      Spliced(Zip(c, t));
    }

    // The links deleteNode sets to put y in the place of z.
    method ReplaceLinks(y: Node, z: Node)
      requires var p, a, b := z.parent, z.left, z.right;
        p !in {z, a, b, y} && z !in {a, b, y} && a !in {b, y} && b != y
      modifies y`maxHigh, y`left, y`right, y`parent, z.left`parent, z.right`parent, z.parent`left, z.parent`right
      ensures y.maxHigh == -MAX_TIME && y.left == old(z.left) && y.right == old(z.right) && y.parent == old(z.parent)
      ensures y.left.parent == y && y.right.parent == y
      ensures var p := y.parent;
        if z == old(p.left) then p.left == y && p.right == old(p.right) else p.left == old(p.left) && p.right == y
    {
      y.maxHigh := -MAX_TIME;
      y.left := z.left;
      y.right := z.right;
      y.parent := z.parent;
      z.right.parent := y;
      z.left.parent := y;
      if z == z.parent.left {
        z.parent.left := y;
      } else {
        z.parent.right := y;
      }
    }

    // y has taken the place of the top of e.z.t.
    twostate lemma Replaced(e: Heir)
      requires old(Shaped()) && old(tree) == Plug(e.z.c, e.z.t) && e.z.t.Bin? && e.z.t.l.Bin? && e.y !in old(repr)
        && e.y.red == e.red
      requires repr == old(repr) - {e.z.t.n} + {e.y} && tree == Plug(e.z.c, Bin(e.z.t.l, e.y, e.red, e.z.t.r))
      requires e.y.left == e.z.t.l.n && e.y.right == Head(e.z.t.r, nil) && e.y.parent == Par(e.z.c, root)
      requires e.z.t.l.n.parent == e.y && Head(e.z.t.r, nil).parent == e.y
      requires forall m :: m in repr && m != e.y ==> unchanged(m`red, m`maxHigh)
      requires forall m :: m in repr && m != e.y && m != Par(e.z.c, root) ==> unchanged(m`left, m`right)
      requires forall m :: m in repr && m != e.y && m != e.z.t.l.n && m != Head(e.z.t.r, nil) ==> unchanged(m`parent)
      requires var p := Par(e.z.c, root);
        if e.z.c.Rgt? then unchanged(p`left) && p.right == e.y else unchanged(p`right) && p.left == e.y
      ensures Shaped()
    {
      hide Plug, Linked, Distinct, Nodes;
      var h, k, c, t := old(Cells(repr)), Cells(repr), e.z.c, e.z.t;
      ReplaceReady(h, c, t, e.y, root, nil);
      assert t.l.n in repr && Head(t.r, nil) in repr && Par(c, root) in repr && nil in repr;
      forall n | n in h && n !in {t.n, t.l.n, Head(t.r, nil), nil, Par(c, root)} ensures n in k && k[n] == h[n] {
        assert n in repr;
      }
      assert IntervalHeap.Replaced(h, k, c, t, e.y, e.red, root, nil);
      ReplacedShape(h, k, c, t, e.y, e.red, root, nil);
    }

    // y, not in the tree any more, takes the place of z, the top of t.
    method TakePlace(y: Node, z: Node, ghost c: Ctx, ghost t: Tree)
      requires Shaped() && tree == Plug(c, t) && t.Bin? && t.l.Bin? && z == t.n && y !in repr
      modifies this`tree, this`repr, repr`left, repr`right, repr`parent, y`maxHigh, y`left, y`right, y`parent
      ensures Shaped() && tree == Plug(c, Bin(t.l, y, y.red, t.r)) && repr == old(repr) - {z} + {y}
      ensures if t.r.Empty? then nil.parent == y else nil.parent == old(nil.parent)
    {
      hide Shape, Inorder, Plug;
      ReplaceReady(Cells(repr), c, t, y, root, nil);
      Peek(c, t);
      tree, repr := Plug(c, Bin(t.l, y, y.red, t.r)), repr - {z} + {y};
      ReplaceLinks(y, z);
      Replaced(Heir(Zip(c, t), y, y.red));
    }

    lemma SplicedExact(g: Highs, c: Ctx, t: Tree)
      requires t.Bin? && Distinct(Plug(c, t)) && HighOK(g, Plug(c, t)) && SameOff(g, MaxHighs(repr), {t.n})
      ensures HighOK(MaxHighs(repr), OnlyChild(t)) && HighSides(MaxHighs(repr), c)
    {
      SplicedHigh(g, MaxHighs(repr), c, t);
    }

    // Splicing out y, then repairing every max_high above.
    method SpliceAndRepair(y: Node, x: Node, ghost c: Ctx, ghost t: Tree)
      requires Shaped() && Exact() && tree == Plug(c, t) && t.Bin? && y == t.n && (t.l.Empty? || t.r.Empty?)
      requires x == Head(OnlyChild(t), nil)
      modifies this`tree, this`repr, repr
      ensures At(x, c, OnlyChild(t)) && repr == old(repr) - {y} && y.red == old(y.red)
    {
      hide Shaped, HighOK, HighSides, Distinct, Plug;
      ghost var g := MaxHighs(repr);
      NodesDistinct();
      SpliceOut(y, x, c, t);
      SplicedExact(g, c, t);
      FixupMaxHigh(x.parent, c, OnlyChild(t));
      AtParent(x, c, OnlyChild(t));
    }

    // deleteNode when z has at most one child: z itself is spliced out.
    method RemoveSpliced(z: Node, ghost c: Ctx, ghost t: Tree)
      requires Shaped() && Exact() && Balanced(tree) && tree == Plug(c, t) && t.Bin? && z == t.n
        && (t.l.Empty? || t.r.Empty?)
      modifies this`tree, this`repr, repr
      ensures Shaped() && Exact() && Balanced(tree) && repr == old(repr) - {z}
      ensures Inorder(tree) == Inorder(Plug(c, OnlyChild(t)))
    {
      Peek(c, t);
      PlugBalanced(c, t);
      SpliceColours(c, t, OnlyChild(t));
      hide Shaped, Exact, Balanced, Short, RB, Fits, Inorder;
      var x := if z.left == nil then z.right else z.left;
      SpliceAndRepair(z, x, c, t);
      if !z.red {
        DeleteFixup(x, c, OnlyChild(t));
      }
    }

    // The context of y's old place, once y has replaced the top of t.
    function SuccessorCtx(c: Ctx, t: Tree, red: bool): Ctx
      requires t.Bin? && t.r.Bin?
    {
      MinCtx(t.r, Rgt(t.l, MinTree(t.r).n, red, c))
    }

    // After SwapIn, what hangs off the path to y's old place has exact max_high.
    twostate lemma SwappedHigh(z: Zip)
      requires old(Exact()) && old(tree) == Plug(z.c, z.t) && Distinct(old(tree)) && z.t.Bin? && z.t.r.Bin?
        && repr == old(repr) - {z.t.n}
      requires forall m :: m in repr && m != MinTree(z.t.r).n ==> unchanged(m`maxHigh)
      ensures HighOK(MaxHighs(repr), MinTree(z.t.r).r)
      ensures HighSides(MaxHighs(repr), SuccessorCtx(z.c, z.t, MinTree(z.t.r).red))
    {
      SucceededHigh(old(MaxHighs(repr)), MaxHighs(repr), z.c, z.t, MinTree(z.t.r).red);
    }

    lemma SuccessorSteps(c: Ctx, t: Tree, red: bool)
      requires t.Bin? && t.r.Bin?
      ensures var m, cy, d := MinTree(t.r), MinCtx(t.r, Rgt(t.l, t.n, t.red, c)), SuccessorCtx(c, t, red);
        var r := PutMin(t.r, m.r);
        && Plug(cy, m) == Plug(c, t) && OnlyChild(m) == m.r
        && Plug(cy, m.r) == Plug(c, Bin(t.l, t.n, t.red, r))
        && Plug(d, m.r) == Plug(c, Bin(t.l, m.n, red, r))
        && !cy.Top? && !d.Top? && (if t.r.l.Empty? then d.n == m.n && r == m.r else d.n == cy.n && r.Bin?)
    {
      var m, c0, c1 := MinTree(t.r), Rgt(t.l, t.n, t.red, c), Rgt(t.l, MinTree(t.r).n, red, c);
      PlugMin(t.r, c0, m);
      assert Plug(c0, t.r) == Plug(c, t);
      PlugMin(t.r, c0, m.r);
      PlugMin(t.r, c1, m.r);
      MinCtxTop(t.r, c0, c1);
    }

    lemma {:induction false} MinCtxTop(t: Tree, c: Ctx, d: Ctx)
      requires t.Bin? && !c.Top? && !d.Top?
      ensures !MinCtx(t, c).Top? && !MinCtx(t, d).Top?
      ensures if t.l.Empty? then MinCtx(t, d) == d else MinCtx(t, c).n == MinCtx(t, d).n
    {
      if t.l.Bin? {
        MinCtxTop(t.l, Lft(c, t.n, t.red, t.r), Lft(d, t.n, t.red, t.r));
      }
    }

    lemma SuccessorIsOther(c: Ctx, t: Tree)
      requires Shaped() && tree == Plug(c, t) && t.Bin? && t.l.Bin? && t.r.Bin?
      ensures MinTree(t.r).n in repr && MinTree(t.r).n != t.n && t.n in repr
    {
      SuccessorSteps(c, t, false);
      Peek(c, t);
      Peek(MinCtx(t.r, Rgt(t.l, t.n, t.red, c)), MinTree(t.r));
      PlugDistinct(c, t);
      MinNodes(t.r, Top);
    }

    // y, the successor of z, is spliced out and takes z's place.
    method SwapIn(z: Node, y: Node, x: Node, ghost c: Ctx, ghost t: Tree)
      requires Shaped() && tree == Plug(c, t) && t.Bin? && t.l.Bin? && t.r.Bin? && z == t.n
      requires y == MinTree(t.r).n && x == Head(MinTree(t.r).r, nil) && y.red == MinTree(t.r).red
      modifies this`tree, this`repr, repr`left, repr`right, repr`parent, y`maxHigh
      ensures Shaped() && tree == Plug(SuccessorCtx(c, t, y.red), MinTree(t.r).r) && repr == old(repr) - {z}
      ensures x in repr && x.parent == Par(SuccessorCtx(c, t, y.red), root)
    {
      hide Shaped, Distinct, Nodes, Plug, MinCtx, SuccessorCtx, PutMin, Inorder;
      ghost var m, cy := MinTree(t.r), MinCtx(t.r, Rgt(t.l, t.n, t.red, c));
      SuccessorSteps(c, t, y.red);
      SuccessorIsOther(c, t);
      assert repr - {y} - {z} + {y} == repr - {z};
      SpliceOut(y, x, cy, m);
      TakePlace(y, z, c, Bin(t.l, t.n, t.red, PutMin(t.r, m.r)));
      Peek(SuccessorCtx(c, t, y.red), m.r);
    }

    lemma NodesDistinct()
      requires Shaped()
      ensures Distinct(tree)
    {}

    // ... with every max_high off the path still exact.
    method SwapInExact(z: Node, y: Node, x: Node, ghost c: Ctx, ghost t: Tree)
      requires Shaped() && Exact() && tree == Plug(c, t) && t.Bin? && t.l.Bin? && t.r.Bin? && z == t.n
      requires y == MinTree(t.r).n && x == Head(MinTree(t.r).r, nil) && y.red == MinTree(t.r).red
      modifies this`tree, this`repr, repr`left, repr`right, repr`parent, y`maxHigh
      ensures Shaped() && tree == Plug(SuccessorCtx(c, t, y.red), MinTree(t.r).r) && repr == old(repr) - {z}
      ensures x in repr && x.parent == Par(SuccessorCtx(c, t, y.red), root)
      ensures HighOK(MaxHighs(repr), MinTree(t.r).r) && HighSides(MaxHighs(repr), SuccessorCtx(c, t, y.red))
    {
      hide Shaped, Exact, HighOK, HighSides, Distinct, Nodes, Plug, SuccessorCtx, MinTree, Inorder, MaxHigh;
      NodesDistinct();
      SwapIn(z, y, x, c, t);
      SwappedHigh(Zip(c, t));
    }

    // ... and then repairing every max_high above y's old place.
    method Succeed(z: Node, y: Node, x: Node, ghost c: Ctx, ghost t: Tree)
      requires Shaped() && Exact() && tree == Plug(c, t) && t.Bin? && t.l.Bin? && t.r.Bin? && z == t.n
      requires y == MinTree(t.r).n && x == Head(MinTree(t.r).r, nil) && y.red == MinTree(t.r).red && y in repr
      modifies this`tree, this`repr, repr
      ensures At(x, SuccessorCtx(c, t, y.red), MinTree(t.r).r) && repr == old(repr) - {z}
      ensures y.red == old(y.red) && z.red == old(z.red)
    {
      hide Shaped, Exact, HighOK, HighSides, Nodes, Plug, SuccessorCtx, MinTree, Inorder, MaxHigh;
      SwapInExact(z, y, x, c, t);
      FixupMaxHigh(x.parent, SuccessorCtx(c, t, y.red), MinTree(t.r).r);
    }

    // deleteNode when z has two children.
    method RemoveBySuccessor(z: Node, ghost c: Ctx, ghost t: Tree)
      requires Shaped() && Exact() && Balanced(tree) && tree == Plug(c, t) && t.Bin? && t.l.Bin? && t.r.Bin? && z == t.n
      modifies this`tree, this`repr, repr
      ensures Shaped() && Exact() && Balanced(tree) && repr == old(repr) - {z}
      ensures Inorder(tree) == Inorder(Plug(c, Bin(t.l, MinTree(t.r).n, t.red, PutMin(t.r, MinTree(t.r).r))))
    {
      hide Shaped, Exact, Balanced, Short, RB, Fits, Inorder, Plug, Post;
      SuccessorColours(c, t);
      Peek(c, t);
      var y := GetSuccessor(z, c, t);
      var x := if y.left == nil then y.right else y.left;
      Peek(MinCtx(t.r, Rgt(t.l, t.n, t.red, c)), MinTree(t.r));
      Succeed(z, y, x, c, t);
      InheritColour(z, y, x, c, t);
    }

    // The colouring end of deleteNode: y takes z's colour, and the missing
    // black node, if y was black, is made up for.
    method InheritColour(z: Node, y: Node, x: Node, ghost c: Ctx, ghost t: Tree)
      requires t.Bin? && t.r.Bin? && y == MinTree(t.r).n && y.red == MinTree(t.r).red && z.red == t.red
      requires At(x, SuccessorCtx(c, t, y.red), MinTree(t.r).r)
      requires var m, d := MinTree(t.r), SuccessorCtx(c, t, t.red);
        if m.red then Balanced(Plug(d, m.r)) else Short(d, m.r)
      modifies this`tree, repr
      ensures Shaped() && Exact() && Balanced(tree)
      ensures Inorder(tree) == Inorder(Plug(c, Bin(t.l, MinTree(t.r).n, t.red, PutMin(t.r, MinTree(t.r).r))))
    {
      ghost var m := MinTree(t.r);
      ghost var s := Bin(t.l, y, y.red, PutMin(t.r, m.r));
      SuccessorSteps(c, t, y.red);
      SuccessorSteps(c, t, t.red);
      Peek(c, s);
      hide Shaped, Exact, Balanced, Short, Inorder, Plug, SuccessorCtx, MinTree, PutMin;
      if !y.red {
        Paint(y, z.red, c, s);
        AtParent(x, SuccessorCtx(c, t, t.red), m.r);
        DeleteFixup(x, SuccessorCtx(c, t, t.red), m.r);
      } else {
        Paint(y, z.red, c, s);
      }
    }

    // deleteNode: exactly z leaves the tree.
    method DeleteNode(z: Node) returns (deleted: Interval?)
      requires Valid() && z in Nodes(tree)
      modifies this`tree, this`repr, repr
      ensures Valid() && repr == old(repr) - {z} && deleted == z.interval
      ensures Removed(old(Inorder(tree)), Inorder(tree), z)
    {
      deleted := z.interval;
      ghost var c, t := Locate(tree, Top, z);
      Peek(c, t);
      hide Shaped, Exact, Balanced, Ordered, Inorder, Plug, Nodes, Carries;
      if z.left == nil || z.right == nil {
        SpliceOrder(c, t);
        RemoveSpliced(z, c, t);
      } else {
        SuccessorOrder(c, t, t.red);
        RemoveBySuccessor(z, c, t);
      }
      hide Removed;
      StillCarried(old(Inorder(tree)), z);
    }

    lemma StillCarried(s: seq<Node>, z: Node)
      requires Removed(s, Inorder(tree), z) && forall n :: n in s ==> Carries(n)
      ensures forall n :: n in Inorder(tree) ==> Carries(n)
    {}

    // recursiveSearch: a node below x holding this interval, or nil.
    method RecursiveSearch(x: Node, iv: Interval, ghost c: Ctx, ghost t: Tree) returns (found: Node)
      requires Shaped() && tree == Plug(c, t) && x == Head(t, nil)
      ensures if found == nil then forall n :: n in Nodes(t) ==> n.interval != iv
        else found in Nodes(t) && found.interval == iv
      decreases t
    {
      Peek(c, t);
      if x != nil {
        if x.interval == iv {
          return x;
        }
        var left := RecursiveSearch(x.left, iv, Lft(c, t.n, t.red, t.r), t.l);
        if left != nil {
          return left;
        }
        var right := RecursiveSearch(x.right, iv, Rgt(t.l, t.n, t.red, c), t.r);
        if right != nil {
          return right;
        }
      }
      return nil;
    }

    // deleteNode by interval: one node holding it leaves the tree, if there is one.
    method DeleteInterval(iv: Interval)
      requires Valid()
      modifies this`tree, this`repr, repr
      ensures Valid()
      ensures if forall n :: n in old(Nodes(tree)) ==> n.interval != iv then Inorder(tree) == old(Inorder(tree))
        else exists z :: z in old(Nodes(tree)) && z.interval == iv && Removed(old(Inorder(tree)), Inorder(tree), z)
    {
      Peek(Top, tree);
      var node := RecursiveSearch(root.left, iv, Top, tree);
      if node != nil {
        var _ := DeleteNode(node);
      }
    }

    lemma HeightIsLogarithmic()
      requires Valid()
      ensures Pow2((Height(tree) + 1) / 2) <= |Inorder(tree)| + 1
    {
      LogarithmicHeight(tree);
      SizeIsLength(tree);
    }

    // No query is running; insert and delete do not touch the stack.
    ghost predicate Idle()
      reads this`stack, this`stackTop
    {
      |stack| > 0 && stackTop == 1
    }

    ghost predicate Asking(low: SimTime, high: SimTime, found: seq<Node>, z: Zip, fs: seq<Zip>)
      reads this`tree, this`stack, this`stackTop
    {
      Querying(tree, stack, stackTop, low, high, found, z, fs)
    }

    lemma LeftMaxHigh(c: Ctx, t: Tree)
      requires Shaped() && Exact() && tree == Plug(c, t) && t.Bin?
      ensures Head(t.l, nil).maxHigh == MaxHigh(t.l)
    {
      Peek(c, t);
      PlugHigh(MaxHighs(repr), c, t);
      assert HighOK(MaxHighs(repr), t.l);
    }

    // Pushing x on query's stack, which doubles when it is full.
    method Push(x: Node)
      requires 0 < stackTop <= |stack|
      modifies this`stack, this`stackTop, this`currentParent
      ensures stackTop == old(stackTop) + 1 <= |stack| && currentParent == old(stackTop)
      ensures stack[currentParent] == Frame(x, old(currentParent), false)
        && stack[..currentParent] == old(stack[..stackTop])
    {
      if stackTop == |stack| {
        stack := stack + seq(|stack|, _ => Frame(null, 0, false));
      }
      stack := stack[stackTop := Frame(x, currentParent, false)];
      currentParent := stackTop;
      stackTop := stackTop + 1;
    }

    // The report of query: a hit is added to the result, and its frame is flagged.
    method Report(x: Node, low: SimTime, high: SimTime, result: seq<Interval?>) returns (result': seq<Interval?>)
      requires currentParent < |stack|
      modifies this`stack
      ensures stack == Flagged(old(stack), currentParent, Hits(x, low, high))
      ensures result' == result + Held(if Hits(x, low, high) then [x] else [])
    {
      result' := result;
      if Overlap(low, high, x.key, x.high) {
        result' := result' + [x.interval];
        stack := stack[currentParent := stack[currentParent].(tryRight := true)];
      }
    }

    // What query reads at the top of z.t.
    lemma PeekVisit(low: SimTime, high: SimTime, found: seq<Node>, z: Zip, fs: seq<Zip>)
      requires Shaped() && Exact() && Asking(low, high, found, z, fs) && z.t.Bin?
      ensures stackTop == |fs| + 1 <= |stack|
      ensures z.t.n.left == Head(z.t.l, nil) && z.t.n.right == Head(z.t.r, nil) && z.t.n.left.maxHigh == MaxHigh(z.t.l)
      ensures tree == Plug(Left(z).c, Left(z).t) == Plug(Right(z).c, Right(z).t) && Size(Right(z).t) < Size(z.t)
    {
      LeftMaxHigh(z.c, z.t);
      Peek(z.c, z.t);
    }

    // One visit of query: report x if it is a hit, then go left or right.
    method Visit(x: Node, low: SimTime, high: SimTime, ghost found: seq<Node>, ghost z: Zip, ghost fs: seq<Zip>,
        result: seq<Interval?>)
      returns (result': seq<Interval?>, x': Node, ghost found': seq<Node>, ghost z': Zip, ghost fs': seq<Zip>)
      requires Shaped() && Exact() && Asking(low, high, found, z, fs) && z.t.Bin? && x == z.t.n && currentParent == |fs|
      requires result == Held(found)
      modifies this`stack, this`stackTop, this`currentParent
      ensures Asking(low, high, found', z', fs') && tree == Plug(z'.c, z'.t) && x' == Head(z'.t, nil)
      ensures currentParent == |fs'| && result' == Held(found')
      ensures Size(z'.t) + Work(Trees(fs')) < Size(z.t) + Work(Trees(fs))
    {
      hide Shaped, Exact, MaxHigh, Work, Trees, Held, Hits, Plug, Size, Head, Found, ToFind;
      PeekVisit(low, high, found, z, fs);
      ghost var st, hit: seq<Node> := stack, if Hits(x, low, high) then [x] else [];
      HeldConcat(found, hit);
      found' := found + hit;
      result' := Report(x, low, high, result);
      if x.left.maxHigh >= low {
        Push(x);
        x' := x.left;
        z', fs' := Left(z), fs + [z];
        LeftStep(tree, st, stack, stackTop - 1, low, high, found, z, fs);
      } else {
        x' := x.right;
        z', fs' := Right(z), fs;
        RightStep(tree, st, stackTop, low, high, found, z, fs);
      }
    }

    // query's inner loop: pop frames until a flagged one leads to a nonempty right subtree.
    method Backtrack(low: SimTime, high: SimTime, ghost found: seq<Node>, ghost z: Zip, ghost fs: seq<Zip>)
      returns (run: bool, x: Node, ghost z': Zip, ghost fs': seq<Zip>)
      requires Shaped() && Asking(low, high, found, z, fs) && z.t.Empty?
      modifies this`stack, this`stackTop, this`currentParent
      ensures Asking(low, high, found, z', fs') && tree == Plug(z'.c, z'.t) && x == Head(z'.t, nil) && run == z'.t.Bin?
      ensures if run then currentParent == |fs'| else fs' == []
      ensures Size(z'.t) + Work(Trees(fs')) <= Work(Trees(fs))
    {
      hide Shaped, Found, Pending, ToFind, Work, Trees;
      run, x := false, nil;
      z', fs' := z, fs;
      while !run && stackTop > 1
        invariant Asking(low, high, found, z', fs') && x == Head(z'.t, nil) && run == z'.t.Bin?
        invariant run ==> currentParent == |fs'|
        invariant Size(z'.t) + Work(Trees(fs')) <= Work(Trees(fs))
        decreases |fs'|
      {
        PopStep(tree, stack, stackTop, low, high, found, z', fs');
        ghost var f := fs'[|fs'| - 1];
        Peek(f.c, f.t);
        Peek(Right(f).c, Right(f).t);
        fs' := fs'[..|fs'| - 1];
        stackTop := stackTop - 1;
        if stack[stackTop].tryRight {
          x := stack[stackTop].start.right;
          currentParent := stack[stackTop].parentIndex;
          stack := stack[currentParent := stack[currentParent].(tryRight := true)];
          run := x != nil;
          z' := Right(f);
        }
      }
    }

    // One round of query's outer loop.
    method Round(x: Node, low: SimTime, high: SimTime, ghost found: seq<Node>, ghost z: Zip, ghost fs: seq<Zip>,
        result: seq<Interval?>)
      returns (run: bool, result': seq<Interval?>, x': Node, ghost found': seq<Node>, ghost z': Zip,
        ghost fs': seq<Zip>)
      requires Shaped() && Exact() && Asking(low, high, found, z, fs) && z.t.Bin? && x == z.t.n && currentParent == |fs|
      requires result == Held(found)
      modifies this`stack, this`stackTop, this`currentParent
      ensures Asking(low, high, found', z', fs') && tree == Plug(z'.c, z'.t) && result' == Held(found')
      ensures x' == Head(z'.t, nil) && run == z'.t.Bin?
      ensures if run then currentParent == |fs'| else fs' == []
      ensures Size(z'.t) + Work(Trees(fs')) < Size(z.t) + Work(Trees(fs))
    {
      hide Shaped, Exact, Work, Trees, Held, Asking, Plug, Size;
      result', x', found', z', fs' := Visit(x, low, high, found, z, fs, result);
      Peek(z'.c, z'.t);
      run := x' != nil;
      if !run {
        NoSize(z'.t);
        run, x', z', fs' := Backtrack(low, high, found', z', fs');
      }
    }

    lemma NoSize(t: Tree)
      ensures t.Empty? ==> Size(t) == 0
    {}

    // query: every hit that Found describes, in that order.
    method Query(low: SimTime, high: SimTime) returns (result: seq<Interval?>)
      requires Valid() && Idle()
      modifies this`stack, this`stackTop, this`currentParent
      ensures Idle() && result == Held(Found(tree, low, high))
      ensures Proper(tree) && (-MAX_TIME < low || NoGap(tree, low, high)) ==>
        multiset(result) == multiset(Held(Filter(Inorder(tree), low, high)))
      ensures Proper(tree) && low <= high && (-MAX_TIME < low || NoGap(tree, low, high)) ==>
        forall iv: Interval? :: multiset(result)[iv] == |Holders(Nodes(tree), iv, low, high)|
    {
      hide Shaped, Exact, Balanced, Ordered, Found, Work, Trees, Held, Plug, Size, Proper, NoGap, Filter, Idle, Inorder;
      result := [];
      var x := root.left;
      ghost var z, fs: seq<Zip>, found: seq<Node> := Zip(Top, tree), [], [];
      QueryStarts(low, high);
      var run := x != nil;
      currentParent := 0;
      while run
        invariant Asking(low, high, found, z, fs) && tree == Plug(z.c, z.t) && result == Held(found)
        invariant x == Head(z.t, nil) && run == z.t.Bin?
        invariant if run then currentParent == |fs| else fs == []
        decreases Size(z.t) + Work(Trees(fs)), run
      {
        run, result, x, found, z, fs := Round(x, low, high, found, z, fs, result);
      }
      QueryDone(low, high, found, z);
      if Proper(tree) && (-MAX_TIME < low || NoGap(tree, low, high)) {
        AllHits(low, high);
        if low <= high {
          AllHolders(low, high);
        }
      }
    }

    lemma AllHolders(low: SimTime, high: SimTime)
      requires Valid() && Proper(tree) && low <= high
      ensures forall iv: Interval? ::
        multiset(Held(Filter(Inorder(tree), low, high)))[iv] == |Holders(Nodes(tree), iv, low, high)|
    {
      NodesDistinct();
      InorderNoRepeats(tree);
      InorderNodes(tree);
      forall iv: Interval?
        ensures multiset(Held(Filter(Inorder(tree), low, high)))[iv] == |Holders(Nodes(tree), iv, low, high)|
      {
        HeldByHolders(Inorder(tree), Nodes(tree), iv, low, high);
      }
    }

    lemma QueryStarts(low: SimTime, high: SimTime)
      requires Valid() && Idle()
      ensures Shaped() && Exact() && Asking(low, high, [], Zip(Top, tree), []) && tree == Plug(Top, tree)
        && Held([]) == []
      ensures root.left == Head(tree, nil) && (root.left != nil) == tree.Bin?
    {
      Peek(Top, tree);
      hide Shaped, Exact, Balanced, Inorder;
    }

    lemma AllHits(low: SimTime, high: SimTime)
      requires Valid() && Proper(tree) && (-MAX_TIME < low || NoGap(tree, low, high))
      ensures multiset(Held(Found(tree, low, high))) == multiset(Held(Filter(Inorder(tree), low, high)))
    {
      FoundComplete(tree, low, high);
      HeldMultiset(Found(tree, low, high), Filter(Inorder(tree), low, high));
    }

    lemma QueryDone(low: SimTime, high: SimTime, found: seq<Node>, z: Zip)
      requires Asking(low, high, found, z, []) && z.t.Empty?
      ensures found == Found(tree, low, high) && Idle()
    {}
  }
}
