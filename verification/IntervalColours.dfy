// Red-black colouring: the invariant, what fits into the hole of a context,
// and the logarithmic height it buys.

module IntervalColours {
  import opened IntervalNodes
  import opened Powers
  import opened Sequences

  predicate IsRed(t: Tree) { t.Bin? && t.red }

  function Size(t: Tree): nat { if t.Empty? then 0 else Size(t.l) + 1 + Size(t.r) }

  function Height(t: Tree): nat {
    if t.Empty? then 0 else 1 + (if Height(t.l) < Height(t.r) then Height(t.r) else Height(t.l))
  }

  function Black(red: bool): nat { if red then 0 else 1 }

  // Black nodes on the leftmost path; equal on all paths when RB holds.
  function BlackHeight(t: Tree): nat {
    if t.Empty? then 0 else BlackHeight(t.l) + Black(t.red)
  }

  predicate RB(t: Tree) {
    t.Bin? ==>
      && RB(t.l) && RB(t.r) && BlackHeight(t.l) == BlackHeight(t.r)
      && (t.red ==> !IsRed(t.l) && !IsRed(t.r))
  }

  // A subtree of black height h, with a red top if `red`, fits the hole of c.
  predicate Fits(c: Ctx, h: nat, red: bool) {
    match c
    case Top => !red
    case Lft(up, _, cr, r) =>
      RB(r) && BlackHeight(r) == h && (cr ==> !red && !IsRed(r)) && Fits(up, h + Black(cr), cr)
    case Rgt(l, _, cr, up) =>
      RB(l) && BlackHeight(l) == h && (cr ==> !red && !IsRed(l)) && Fits(up, h + Black(cr), cr)
  }

  // A whole tree: coloured correctly, with a black root.
  predicate Balanced(t: Tree) { RB(t) && !IsRed(t) }

  lemma {:induction false} PlugBalanced(c: Ctx, t: Tree)
    ensures Balanced(Plug(c, t)) <==> RB(t) && Fits(c, BlackHeight(t), IsRed(t))
  {
    match c
    case Top =>
    case Lft(up, n, red, r) => PlugBalanced(up, Bin(t, n, red, r));
    case Rgt(l, n, red, up) => PlugBalanced(up, Bin(l, n, red, t));
  }

  // ---- insertion: the only fault left is a red node below a red one

  predicate RedAtHole(c: Ctx, t: Tree) {
    t.Bin? && t.red && RB(t) && Fits(c, BlackHeight(t), false)
  }

  lemma RedAtHoleDone(c: Ctx, t: Tree)
    requires RedAtHole(c, t) && (c.Top? || !c.red)
    ensures Balanced(Recolour(Plug(c, t), false))
    ensures !c.Top? ==> Recolour(Plug(c, t), false) == Plug(c, t)
  {
    if c.Top? {
    } else {
      PlugBalanced(c, t);
    }
  }

  // A red uncle: paint parent and uncle black and the grandparent red, and the
  // fault moves up to the grandparent.
  function PaintedUncle(c: Ctx, t: Tree): Tree
    requires !c.Top? && !c.up.Top?
  {
    var p, u := Recolour(Climb(c, t).t, false), Recolour(Sibling(c.up), false);
    if c.up.Lft? then Bin(p, c.up.n, true, u) else Bin(u, c.up.n, true, p)
  }

  lemma RedUncle(c: Ctx, t: Tree)
    requires RedAtHole(c, t) && !c.Top? && c.red && !c.up.Top? && IsRed(Sibling(c.up))
    ensures RedAtHole(c.up.up, PaintedUncle(c, t))
  {
    assert Fits(c.up, BlackHeight(t), true);
    assert !c.up.red;
  }

  // A black uncle and an inner grandchild: rotate it outwards.
  function Outwards(c: Ctx, t: Tree): Zip
    requires t.Bin? && !c.Top?
  {
    if c.Rgt? then Zip(Lft(c.up, t.n, t.red, t.r), Bin(c.l, c.n, c.red, t.l))
    else Zip(Rgt(t.l, t.n, t.red, c.up), Bin(t.r, c.n, c.red, c.r))
  }

  lemma InnerGrandchild(c: Ctx, t: Tree)
    requires RedAtHole(c, t) && !c.Top? && c.red && !c.up.Top?
    ensures RedAtHole(Outwards(c, t).c, Outwards(c, t).t)
  {
    assert Fits(c.up, BlackHeight(t), true);
  }

  // A black uncle and an outer grandchild: rotate at the grandparent.
  function Lifted(c: Ctx): Ctx
    requires !c.Top? && !c.up.Top?
  {
    if c.Lft? then Lft(c.up.up, c.n, false, Bin(c.r, c.up.n, true, Sibling(c.up)))
    else Rgt(Bin(Sibling(c.up), c.up.n, true, c.l), c.n, false, c.up.up)
  }

  // ... once parent and grandparent have exchanged colours.
  function StraightPainted(c: Ctx, t: Tree): Tree
    requires !c.Top? && !c.up.Top?
  {
    Recolour(Climb(c.up, Recolour(Climb(c, t).t, false)).t, true)
  }

  lemma OuterGrandchild(c: Ctx, t: Tree)
    requires RedAtHole(c, t) && !c.Top? && c.red && !c.up.Top? && !IsRed(Sibling(c.up))
    ensures RedAtHole(Lifted(c), t)
  {
    assert Fits(c.up, BlackHeight(t), true);
    assert !c.up.red;
  }

  // The parent of a faulty node is red, hence not the real root.
  lemma HasGrandparent(c: Ctx, t: Tree)
    requires RedAtHole(c, t) && !c.Top? && c.red
    ensures !c.up.Top? && !c.up.red
  {
    assert Fits(c.up, BlackHeight(t), true);
  }

  // ---- deletion: the only fault left is that the hole's paths are one black
  // node short, unless t's top is red and will be painted black

  predicate Short(c: Ctx, t: Tree) {
    RB(Recolour(t, false)) && Fits(c, BlackHeight(t) + 1, false)
  }

  lemma ShortDone(c: Ctx, t: Tree)
    requires Short(c, t) && (c.Top? || IsRed(t))
    ensures Balanced(Plug(c, Recolour(t, false)))
  {
    if c.Top? {
    } else {
      PlugBalanced(c, Recolour(t, false));
    }
  }

  lemma ShortSibling(c: Ctx, t: Tree)
    requires Short(c, t) && !c.Top?
    ensures Sibling(c).Bin?
  {}

  // A red sibling is rotated above the parent, which turns red.
  function RedSibling(c: Ctx): Ctx
    requires !c.Top? && Sibling(c).Bin?
  {
    var s := Sibling(c);
    if c.Lft? then Lft(Lft(c.up, s.n, false, s.r), c.n, true, s.l)
    else Rgt(s.r, c.n, true, Rgt(s.l, s.n, false, c.up))
  }

  lemma RedSiblingIs(c: Ctx)
    requires !c.Top? && Sibling(c).Bin?
    ensures var d := RedSibling(c);
      && d.Lft? == c.Lft? && !d.Top? && d.n == c.n && d.red && !d.up.Top?
      && Sibling(d) == (if c.Lft? then Sibling(c).l else Sibling(c).r)
      && Outermost(d.up) == (if c.up.Top? then Sibling(c).n else Outermost(c.up))
  {}

  lemma RedSiblingShort(c: Ctx, t: Tree)
    requires Short(c, t) && !c.Top? && IsRed(Sibling(c))
    ensures Short(RedSibling(c), t) && !IsRed(Sibling(RedSibling(c)))
  {
    var s, h := Sibling(c), BlackHeight(t) + 1;
    assert RB(s.l) && RB(s.r) && BlackHeight(s.l) == h == BlackHeight(s.r) && !IsRed(s.l) && !IsRed(s.r);
    assert Fits(c.up, h + 1, false);
    assert Fits(RedSibling(c).up, h, true);
  }

  // ... once sibling and parent have exchanged colours.
  function SiblingPainted(c: Ctx, t: Tree): Tree
    requires !c.Top?
  {
    if c.Lft? then Bin(t, c.n, true, Recolour(c.r, false)) else Bin(Recolour(c.l, false), c.n, true, t)
  }

  // A black sibling with black children turns red: the fault moves up.
  function PaleSibling(c: Ctx, t: Tree): Tree
    requires !c.Top?
  {
    if c.Lft? then Bin(t, c.n, c.red, Recolour(c.r, true)) else Bin(Recolour(c.l, true), c.n, c.red, t)
  }

  lemma PaleSiblingShort(c: Ctx, t: Tree)
    requires Short(c, t) && !IsRed(t) && !c.Top? && Sibling(c).Bin? && !IsRed(Sibling(c))
    requires !IsRed(Sibling(c).l) && !IsRed(Sibling(c).r)
    ensures Short(c.up, PaleSibling(c, t))
  {
    var s := Recolour(Sibling(c), true);
    assert Recolour(t, false) == t && RB(s) && BlackHeight(s) == BlackHeight(t);
    assert Fits(c.up, BlackHeight(t) + 1 + Black(c.red), c.red);
    FitsBlack(c.up, BlackHeight(t) + 1 + Black(c.red), c.red);
  }

  // Where a red top fits, so does a black one.
  lemma FitsBlack(c: Ctx, h: nat, red: bool)
    requires Fits(c, h, red)
    ensures Fits(c, h, false)
  {}

  // A black sibling whose nearer child alone is red is rotated away from the hole.
  function NearRed(c: Ctx): Ctx
    requires !c.Top? && Sibling(c).Bin? && (if c.Lft? then Sibling(c).l else Sibling(c).r).Bin?
  {
    var s := Sibling(c);
    if c.Lft? then c.(r := Bin(s.l.l, s.l.n, false, Bin(s.l.r, s.n, true, s.r)))
    else c.(l := Bin(Bin(s.l, s.n, true, s.r.l), s.r.n, false, s.r.r))
  }

  lemma NearRedIs(c: Ctx)
    requires !c.Top? && Sibling(c).Bin? && (if c.Lft? then Sibling(c).l else Sibling(c).r).Bin?
    ensures var d := NearRed(c);
      && d.Lft? == c.Lft? && !d.Top? && d.n == c.n && d.red == c.red && d.up == c.up
      && Sibling(d).Bin? && !IsRed(Sibling(d)) && IsRed(if c.Lft? then Sibling(d).r else Sibling(d).l)
  {}

  lemma NearRedShort(c: Ctx, t: Tree)
    requires Short(c, t) && !c.Top? && Sibling(c).Bin? && !IsRed(Sibling(c))
    requires if c.Lft? then IsRed(Sibling(c).l) && !IsRed(Sibling(c).r) else IsRed(Sibling(c).r) && !IsRed(Sibling(c).l)
    ensures Short(NearRed(c), t)
  {
    var s := Sibling(c);
    var v, s' := if c.Lft? then s.l else s.r, Sibling(NearRed(c));
    assert RB(s) && RB(v) && RB(v.l) && RB(v.r) && !IsRed(v.l) && !IsRed(v.r);
    assert BlackHeight(v) == BlackHeight(v.l) == BlackHeight(v.r) == BlackHeight(s.l) == BlackHeight(s.r);
    assert RB(if c.Lft? then s'.r else s'.l);
    assert RB(s') && BlackHeight(s') == BlackHeight(s);
  }

  // The sibling's child away from the hole.
  function FarChild(c: Ctx): Tree
    requires !c.Top? && Sibling(c).Bin?
  {
    if c.Lft? then c.r.r else c.l.l
  }

  // The hole for that child once the sibling has taken the parent's colour
  // and the parent is black, and the subtree when the child is black too.
  function FarCtx(c: Ctx, t: Tree): Ctx
    requires !c.Top? && Sibling(c).Bin?
  {
    if c.Lft? then Rgt(c.r.l, c.r.n, c.red, Rgt(t, c.n, false, c.up))
      else Lft(Lft(c.up, c.n, false, t), c.l.n, c.red, c.l.r)
  }

  function FarPainted(c: Ctx, t: Tree): Tree
    requires !c.Top? && Sibling(c).Bin?
  {
    if c.Lft? then Bin(t, c.n, false, Bin(c.r.l, c.r.n, c.red, Recolour(c.r.r, false)))
    else Bin(Bin(Recolour(c.l.l, false), c.l.n, c.red, c.l.r), c.n, false, t)
  }

  // A black sibling whose farther child is red: one more rotation repairs all.
  function FarRed(c: Ctx, t: Tree): Tree
    requires !c.Top? && Sibling(c).Bin?
  {
    var s := Sibling(c);
    if c.Lft? then Bin(Bin(t, c.n, false, s.l), s.n, c.red, Recolour(s.r, false))
    else Bin(Recolour(s.l, false), s.n, c.red, Bin(s.r, c.n, false, t))
  }

  lemma FarRedDone(c: Ctx, t: Tree)
    requires Short(c, t) && !IsRed(t) && !c.Top? && Sibling(c).Bin? && !IsRed(Sibling(c))
    requires if c.Lft? then IsRed(Sibling(c).r) else IsRed(Sibling(c).l)
    ensures Balanced(Plug(c.up, FarRed(c, t)))
  {
    var s, f := Sibling(c), FarRed(c, t);
    assert Recolour(t, false) == t && RB(s.l) && RB(s.r) && BlackHeight(s.l) == BlackHeight(s.r) == BlackHeight(t);
    assert RB(f.l) && RB(f.r) && BlackHeight(f.l) == BlackHeight(f.r) == BlackHeight(t) + 1;
    PlugBalanced(c.up, f);
  }

  // ---- the leftmost node of a subtree, and what surrounds it

  function MinCtx(t: Tree, c: Ctx): Ctx
    requires t.Bin?
  {
    if t.l.Empty? then c else MinCtx(t.l, Lft(c, t.n, t.red, t.r))
  }

  function MinTree(t: Tree): (m: Tree)
    requires t.Bin?
    ensures m.Bin? && m.l.Empty?
  {
    if t.l.Empty? then t else MinTree(t.l)
  }

  // t with its leftmost node's subtree replaced by s.
  function PutMin(t: Tree, s: Tree): Tree
    requires t.Bin?
  {
    if t.l.Empty? then s else Bin(PutMin(t.l, s), t.n, t.red, t.r)
  }

  lemma {:induction false} PlugMin(t: Tree, c: Ctx, s: Tree)
    requires t.Bin?
    ensures Plug(MinCtx(t, c), s) == Plug(c, PutMin(t, s)) && PutMin(t, MinTree(t)) == t
  {
    if t.l.Bin? {
      PlugMin(t.l, Lft(c, t.n, t.red, t.r), s);
    }
  }

  lemma {:induction false} MinOrder(t: Tree)
    requires t.Bin?
    ensures Inorder(t) == [MinTree(t).n] + Inorder(PutMin(t, MinTree(t).r))
  {
    if t.l.Bin? {
      MinOrder(t.l);
    }
  }

  lemma InorderBin(t: Tree)
    requires t.Bin?
    ensures Inorder(t) == Inorder(t.l) + [t.n] + Inorder(t.r)
  {}

  // Replacing a node by its successor removes just that node from the order.
  lemma {:induction false} SuccessorOrder(c: Ctx, t: Tree, red: bool)
    requires t.Bin? && t.r.Bin? && Ordered(Inorder(Plug(c, t)))
    ensures var m := MinTree(t.r);
      var t' := Bin(t.l, m.n, red, PutMin(t.r, m.r));
      Removed(Inorder(Plug(c, t)), Inorder(Plug(c, t')), t.n) && Ordered(Inorder(Plug(c, t')))
  {
    hide Inorder, Plug, Pre, Post, MinTree, PutMin, Removed, Ordered;
    var m := MinTree(t.r);
    var t' := Bin(t.l, m.n, red, PutMin(t.r, m.r));
    var r, l, a, b := Inorder(PutMin(t.r, m.r)), Inorder(t.l), Pre(c), Post(c);
    MinOrder(t.r);
    PlugInorder(c, t);
    PlugInorder(c, t');
    InorderBin(t);
    InorderBin(t');
    Around(a, l + [t.n], [m.n] + r, b);
    Assoc(a, l, [t.n]);
    Assoc(l, [m.n], r);
    Around(a, l, [m.n] + r, b);
    RemovedSplit(a + l, t.n, [m.n] + r + b);
  }

  lemma {:induction false} SpliceOrder(c: Ctx, t: Tree)
    requires t.Bin? && (t.l.Empty? || t.r.Empty?) && Ordered(Inorder(Plug(c, t)))
    ensures Removed(Inorder(Plug(c, t)), Inorder(Plug(c, OnlyChild(t))), t.n) && Ordered(Inorder(Plug(c, OnlyChild(t))))
  {
    assert Inorder(OnlyChild(t)) == Inorder(t.l) + Inorder(t.r);
    hide Inorder, Plug, Pre, Post, OnlyChild, Removed, Ordered;
    PlugInorder(c, t);
    PlugInorder(c, OnlyChild(t));
    InorderBin(t);
    var l, r, a, b := Inorder(t.l), Inorder(t.r), Pre(c), Post(c);
    Around(a, l + [t.n], r, b);
    Assoc(a, l, [t.n]);
    Around(a, l, r, b);
    RemovedSplit(a + l, t.n, r + b);
  }

  // Which node sits where does not matter to the colours.
  lemma {:induction false} FitsMin(t: Tree, c: Ctx, d: Ctx, h: nat, red: bool)
    requires t.Bin? && Fits(MinCtx(t, c), h, red)
    requires forall k: nat, b: bool :: Fits(c, k, b) ==> Fits(d, k, b)
    ensures Fits(MinCtx(t, d), h, red)
  {
    if t.l.Bin? {
      var c', d' := Lft(c, t.n, t.red, t.r), Lft(d, t.n, t.red, t.r);
      assert forall k: nat, b: bool :: Fits(c', k, b) ==> Fits(d', k, b);
      FitsMin(t.l, c', d', h, red);
    }
  }

  // Splicing out a node with at most one child: nothing is lost with a red
  // node, and one black node with a black one.
  lemma SpliceColours(c: Ctx, t: Tree, s: Tree)
    requires t.Bin? && RB(t) && Fits(c, BlackHeight(t), t.red)
    requires (t.l.Empty? && s == t.r) || (t.r.Empty? && s == t.l)
    ensures if t.red then Balanced(Plug(c, s)) else Short(c, s)
  {
    assert BlackHeight(t.l) == BlackHeight(t.r) == 0;
    if t.red {
      assert s.Empty?;
      FitsBlack(c, 0, true);
      PlugBalanced(c, s);
    }
  }

  // The same when t's top gives way to its successor, which takes t's colour.
  lemma {:induction false} SuccessorColours(c: Ctx, t: Tree)
    requires Balanced(Plug(c, t)) && t.Bin? && t.r.Bin?
    ensures var m := MinTree(t.r);
      var d := MinCtx(t.r, Rgt(t.l, m.n, t.red, c));
      if m.red then Balanced(Plug(d, m.r)) else Short(d, m.r)
  {
    var m, c0, c1 := MinTree(t.r), Rgt(t.l, t.n, t.red, c), Rgt(t.l, MinTree(t.r).n, t.red, c);
    PlugMin(t.r, c0, m);
    assert Plug(c0, t.r) == Plug(c, t);
    PlugBalanced(MinCtx(t.r, c0), m);
    FitsMin(t.r, c0, c1, BlackHeight(m), m.red);
    SpliceColours(MinCtx(t.r, c1), m, m.r);
  }

  function Depth(c: Ctx): nat {
    match c
    case Top => 0
    case Lft(up, _, _, _) => 1 + Depth(up)
    case Rgt(_, _, _, up) => 1 + Depth(up)
  }

  // ---- height

  lemma {:induction false} HeightBounds(t: Tree)
    requires RB(t)
    ensures Pow2(BlackHeight(t)) <= Size(t) + 1
    ensures Height(t) <= 2 * BlackHeight(t) + (if IsRed(t) then 1 else 0)
  {
    if t.Bin? {
      HeightBounds(t.l);
      HeightBounds(t.r);
    }
  }

  // 2^(height/2) <= n + 1: the height is at most 2 * log2(n + 1).
  lemma {:induction false} LogarithmicHeight(t: Tree)
    requires Balanced(t)
    ensures Pow2((Height(t) + 1) / 2) <= Size(t) + 1
  {
    HeightBounds(t);
    Pow2Monotonic((Height(t) + 1) / 2, BlackHeight(t));
  }

  lemma {:induction false} SizeIsLength(t: Tree)
    ensures |Inorder(t)| == Size(t)
  {
    if t.Bin? {
      SizeIsLength(t.l);
      SizeIsLength(t.r);
    }
  }
}
