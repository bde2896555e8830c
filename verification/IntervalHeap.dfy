// How the linked nodes of the heap represent a mathematical tree, and what
// each pointer surgery of IntervalTree.cc does to the tree represented.

module IntervalHeap {
  import opened IntervalNodes
  import opened IntervalColours

  // The links and the colour of a node; max_high is kept apart because the
  // code repairs it separately.
  datatype Cell = Cell(left: Node, right: Node, parent: Node, red: bool)
  type Heap = map<Node, Cell>
  type Highs = map<Node, SimTime>

  ghost function Cells(s: set<Node>): (h: Heap)
    reads s`left, s`right, s`parent, s`red
    ensures h.Keys == s
  {
    map n | n in s :: Cell(n.left, n.right, n.parent, n.red)
  }

  ghost function MaxHighs(s: set<Node>): (h: Highs)
    reads s`maxHigh
    ensures h.Keys == s
  {
    map n | n in s :: n.maxHigh
  }

  // ---- links

  ghost predicate Linked(h: Heap, t: Tree, p: Node, nil: Node) {
    t.Bin? ==>
      && t.n in h && h[t.n] == Cell(Head(t.l, nil), Head(t.r, nil), p, t.red)
      && Linked(h, t.l, t.n, nil) && Linked(h, t.r, t.n, nil)
  }

  ghost predicate LinkedC(h: Heap, c: Ctx, hole: Node, root: Node, nil: Node) {
    match c
    case Top => root in h && h[root].left == hole
    case Lft(up, n, red, r) =>
      n in h && h[n] == Cell(hole, Head(r, nil), Par(up, root), red) && Linked(h, r, n, nil)
        && LinkedC(h, up, n, root, nil)
    case Rgt(l, n, red, up) =>
      n in h && h[n] == Cell(Head(l, nil), hole, Par(up, root), red) && Linked(h, l, n, nil)
        && LinkedC(h, up, n, root, nil)
  }

  // The nodes of h are exactly the two sentinels and the nodes of t, linked as t says.
  ghost predicate Shape(h: Heap, t: Tree, root: Node, nil: Node) {
    && h.Keys == Nodes(t) + {root, nil} && nil != root && nil !in Nodes(t) && root !in Nodes(t) && Distinct(t)
    && h[root].left == Head(t, nil) && h[root].right == nil && h[root].parent == nil && !h[root].red
    && !h[nil].red
    && Linked(h, t, root, nil)
  }

  lemma {:induction false} PlugLinked(h: Heap, c: Ctx, t: Tree, root: Node, nil: Node)
    requires root in h
    ensures Linked(h, Plug(c, t), root, nil) && h[root].left == Head(Plug(c, t), nil)
      <==> Linked(h, t, Par(c, root), nil) && LinkedC(h, c, Head(t, nil), root, nil)
  {
    match c
    case Top =>
    case Lft(up, n, red, r) => PlugLinked(h, up, Bin(t, n, red, r), root, nil);
    case Rgt(l, n, red, up) => PlugLinked(h, up, Bin(l, n, red, t), root, nil);
  }

  // What Shape(h, Plug(c, t)) says about the two parts.
  ghost predicate Parts(h: Heap, c: Ctx, t: Tree, root: Node, nil: Node) {
    && Linked(h, t, Par(c, root), nil) && LinkedC(h, c, Head(t, nil), root, nil)
    && DistinctC(c) && Distinct(t) && NodesC(c) !! Nodes(t)
    && h.Keys == NodesC(c) + Nodes(t) + {root, nil} && nil != root
    && root !in NodesC(c) && nil !in NodesC(c) && root !in Nodes(t) && nil !in Nodes(t)
    && h[root].right == nil && h[root].parent == nil && !h[root].red && !h[nil].red
  }

  lemma {:induction false} ShapeParts(h: Heap, c: Ctx, t: Tree, root: Node, nil: Node)
    ensures Shape(h, Plug(c, t), root, nil) <==> Parts(h, c, t, root, nil)
  {
    PlugDistinct(c, t);
    PlugNodes(c, t);
    if root in h {
      PlugLinked(h, c, t, root, nil);
    }
  }

  // The links one reads at the hole of c, in one place.
  lemma {:induction false} Look(h: Heap, c: Ctx, t: Tree, root: Node, nil: Node)
    requires Shape(h, Plug(c, t), root, nil)
    ensures Par(c, root) in h && Head(t, nil) in h && Par(c, root) != nil && Head(t, nil) != Par(c, root) && root in h
      && nil in h
    ensures t.Bin? ==> h[t.n] == Cell(Head(t.l, nil), Head(t.r, nil), Par(c, root), t.red) && t.n != nil && t.n != root
    ensures t.Bin? ==> Head(t.l, nil) in h && Head(t.r, nil) in h && Head(t.l, nil) != t.n && Head(t.r, nil) != t.n
    ensures t.Bin? ==> (t.l.Bin? ==> t.l.n != nil && t.l.n != Head(t.r, nil)) && (t.r.Bin? ==> t.r.n != nil)
    ensures c.Top? ==> h[root].left == Head(t, nil) && !h[root].red
    ensures c.Lft? ==> h[c.n] == Cell(Head(t, nil), Head(c.r, nil), Par(c.up, root), c.red)
    ensures c.Rgt? ==> h[c.n] == Cell(Head(c.l, nil), Head(t, nil), Par(c.up, root), c.red)
    ensures !c.Top? ==> c.n != root && (t.Bin? || Sibling(c).Bin? ==> Head(t, nil) != Head(Sibling(c), nil))
  {
    ShapeParts(h, c, t, root, nil);
    assert t.Bin? ==> Linked(h, t.l, t.n, nil) && Linked(h, t.r, t.n, nil);
    assert t.Bin? && t.l.Bin? ==> t.l.n in Nodes(t.l);
    assert t.Bin? && t.r.Bin? ==> t.r.n in Nodes(t.r);
    match c
    case Top =>
    case Lft(up, n, red, r) =>
      assert r.Bin? ==> r.n in Nodes(r);
    case Rgt(l, n, red, up) =>
      assert l.Bin? ==> l.n in Nodes(l);
  }

  // ---- framing

  ghost predicate SameOff<T>(h: map<Node, T>, k: map<Node, T>, w: set<Node>) {
    forall n :: n in h && n !in w ==> n in k && k[n] == h[n]
  }

  lemma {:induction false} FrameLinked(h: Heap, k: Heap, w: set<Node>, t: Tree, p: Node, nil: Node)
    requires Linked(h, t, p, nil) && SameOff(h, k, w) && w !! Nodes(t)
    ensures Linked(k, t, p, nil)
  {
    if t.Bin? {
      FrameLinked(h, k, w, t.l, t.n, nil);
      FrameLinked(h, k, w, t.r, t.n, nil);
    }
  }

  lemma {:induction false} FrameLinkedC(h: Heap, k: Heap, w: set<Node>, c: Ctx, hole: Node, root: Node, nil: Node)
    requires LinkedC(h, c, hole, root, nil) && SameOff(h, k, w) && w !! NodesC(c) && root !in w
    ensures LinkedC(k, c, hole, root, nil)
  {
    match c
    case Top =>
    case Lft(up, n, red, r) =>
      FrameLinked(h, k, w, r, n, nil);
      FrameLinkedC(h, k, w, up, n, root, nil);
    case Rgt(l, n, red, up) =>
      FrameLinked(h, k, w, l, n, nil);
      FrameLinkedC(h, k, w, up, n, root, nil);
  }

  // Only the top of t has changed, and only its parent link and colour.
  lemma {:induction false} Reparent(h: Heap, k: Heap, w: set<Node>, t: Tree, p: Node, q: Node, red: bool, nil: Node)
    requires Linked(h, t, p, nil) && Distinct(t) && SameOff(h, k, w) && w * Nodes(t) <= {Head(t, nil)}
    requires t.Bin? ==> t.n in k && k[t.n] == Cell(Head(t.l, nil), Head(t.r, nil), q, red)
    ensures Linked(k, Recolour(t, red), q, nil)
  {
    if t.Bin? {
      FrameLinked(h, k, w, t.l, t.n, nil);
      FrameLinked(h, k, w, t.r, t.n, nil);
    }
  }

  // n's parent is now p.
  ghost predicate Adopted(h: Heap, k: Heap, n: Node, p: Node) {
    n in h && n in k && k[n] == h[n].(parent := p)
  }

  // The link of c's innermost node (or of root) to the hole is now `other`.
  ghost predicate Relinked(h: Heap, k: Heap, c: Ctx, other: Node, root: Node) {
    var p := Par(c, root);
    p in h && p in k && k[p] == if c.Rgt? then h[p].(right := other) else h[p].(left := other)
  }

  // Only the innermost node of c has changed, and only its link to the hole.
  lemma {:induction false} Rehang(h: Heap, k: Heap, w: set<Node>, c: Ctx, hole: Node, other: Node, root: Node,
      nil: Node)
    requires LinkedC(h, c, hole, root, nil) && DistinctC(c) && root !in NodesC(c)
    requires SameOff(h, k, w) && w * (NodesC(c) + {root}) <= {Par(c, root)}
    requires Relinked(h, k, c, other, root)
    ensures LinkedC(k, c, other, root, nil)
  {
    match c
    case Top =>
    case Lft(up, n, red, r) =>
      FrameLinked(h, k, w, r, n, nil);
      FrameLinkedC(h, k, w, up, n, root, nil);
    case Rgt(l, n, red, up) =>
      FrameLinked(h, k, w, l, n, nil);
      FrameLinkedC(h, k, w, up, n, root, nil);
  }

  // ---- leftRotate (IntervalTree.cc:110-132) and rightRotate (:134-155)

  // The links after leftRotate(x), field by field.
  ghost predicate LeftRotated(h: Heap, k: Heap, x: Node, nil: Node) {
    && x in h && h[x].right in h && h[x].parent in h && h[h[x].right].left in h && k.Keys == h.Keys
    && var y, p := h[x].right, h[x].parent;
    && var b := h[y].left;
    && k[x] == h[x].(right := b, parent := y)
    && k[y] == h[y].(left := x, parent := p)
    && k[p] == (if h[p].left == x then h[p].(left := y) else h[p].(right := y))
    && (b != nil ==> k[b] == h[b].(parent := x))
    && SameOff(h, k, {x, y, p} + ({b} - {nil}))
  }

  ghost predicate RightRotated(h: Heap, k: Heap, y: Node, nil: Node) {
    && y in h && h[y].left in h && h[y].parent in h && h[h[y].left].right in h && k.Keys == h.Keys
    && var x, p := h[y].left, h[y].parent;
    && var b := h[x].right;
    && k[y] == h[y].(left := b, parent := x)
    && k[x] == h[x].(right := y, parent := p)
    && k[p] == (if h[p].left == y then h[p].(left := x) else h[p].(right := x))
    && (b != nil ==> k[b] == h[b].(parent := y))
    && SameOff(h, k, {x, y, p} + ({b} - {nil}))
  }

  // The two nodes rotated, their parent and the middle subtree's top are distinct.
  lemma {:induction false} LeftRotateReady(h: Heap, c: Ctx, t: Tree, root: Node, nil: Node)
    requires Shape(h, Plug(c, t), root, nil) && t.Bin? && t.r.Bin?
    ensures var x, y, p, a, b, g := t.n, t.r.n, Par(c, root), Head(t.l, nil), Head(t.r.l, nil), Head(t.r.r, nil);
      && x in h && y in h && p in h && a in h && b in h && g in h
      && h[x].left == a && h[x].right == y && h[x].parent == p && h[y].left == b && h[y].right == g
      && x != y && x != p && x != b && y != p && y != b && b != p && x != nil && y != nil && p != nil
      && a != x && a != y && g != x && g != y
  {
    ShapeParts(h, c, t, root, nil);
    assert Linked(h, t.r, t.n, nil) && Linked(h, t.l, t.n, nil) && Distinct(t.r);
    assert Linked(h, t.r.l, t.r.n, nil) && Linked(h, t.r.r, t.r.n, nil);
    assert t.l.Bin? ==> t.l.n in Nodes(t.l);
    assert t.r.l.Bin? ==> t.r.l.n in Nodes(t.r);
    assert t.r.r.Bin? ==> t.r.r.n in Nodes(t.r);
  }

  lemma {:induction false} LeftRotatedParts(h: Heap, k: Heap, c: Ctx, t: Tree, root: Node, nil: Node)
    requires Shape(h, Plug(c, t), root, nil) && t.Bin? && t.r.Bin? && LeftRotated(h, k, t.n, nil)
    ensures Linked(k, RotL(t), Par(c, root), nil) && LinkedC(k, c, t.r.n, root, nil)
  {
    hide Shape, Plug;
    ShapeParts(h, c, t, root, nil);
    LeftRotateReady(h, c, t, root, nil);
    var x, y, p, b := t.n, t.r.n, Par(c, root), Head(t.r.l, nil);
    var w := {x, y, p} + ({b} - {nil});
    assert Distinct(t.r) && Linked(h, t.l, x, nil) && Linked(h, t.r, x, nil);
    assert Linked(h, t.r.l, y, nil) && Linked(h, t.r.r, y, nil);
    assert p !in Nodes(t) && (b != nil ==> b in Nodes(t.r.l));
    FrameLinked(h, k, w, t.l, x, nil);
    FrameLinked(h, k, w, t.r.r, y, nil);
    Reparent(h, k, w, t.r.l, y, x, t.r.l.Bin? && t.r.l.red, nil);
    Rehang(h, k, w, c, x, y, root, nil);
    assert Linked(k, RotL(t).l, y, nil);
  }

  lemma {:induction false} LeftRotatedShape(h: Heap, k: Heap, c: Ctx, t: Tree, root: Node, nil: Node)
    requires Shape(h, Plug(c, t), root, nil) && t.Bin? && t.r.Bin? && LeftRotated(h, k, t.n, nil)
    ensures Shape(k, Plug(c, RotL(t)), root, nil)
  {
    hide Shape, Plug;
    ShapeParts(h, c, t, root, nil);
    LeftRotatedParts(h, k, c, t, root, nil);
    LeftRotateReady(h, c, t, root, nil);
    RotLKeeps(t);
    ShapeParts(k, c, RotL(t), root, nil);
  }

  lemma {:induction false} RightRotateReady(h: Heap, c: Ctx, t: Tree, root: Node, nil: Node)
    requires Shape(h, Plug(c, t), root, nil) && t.Bin? && t.l.Bin?
    ensures var y, x, p, a, b, g := t.n, t.l.n, Par(c, root), Head(t.l.l, nil), Head(t.l.r, nil), Head(t.r, nil);
      && x in h && y in h && p in h && a in h && b in h && g in h
      && h[y].left == x && h[y].right == g && h[y].parent == p && h[x].left == a && h[x].right == b
      && x != y && x != p && x != b && y != p && y != b && b != p && x != nil && y != nil && p != nil
      && a != x && a != y && g != x && g != y
  {
    ShapeParts(h, c, t, root, nil);
    assert Linked(h, t.r, t.n, nil) && Linked(h, t.l, t.n, nil) && Distinct(t.l);
    assert Linked(h, t.l.l, t.l.n, nil) && Linked(h, t.l.r, t.l.n, nil);
    assert t.r.Bin? ==> t.r.n in Nodes(t.r);
    assert t.l.l.Bin? ==> t.l.l.n in Nodes(t.l);
    assert t.l.r.Bin? ==> t.l.r.n in Nodes(t.l);
  }

  lemma {:induction false} RightRotatedParts(h: Heap, k: Heap, c: Ctx, t: Tree, root: Node, nil: Node)
    requires Shape(h, Plug(c, t), root, nil) && t.Bin? && t.l.Bin? && RightRotated(h, k, t.n, nil)
    ensures Linked(k, RotR(t), Par(c, root), nil) && LinkedC(k, c, t.l.n, root, nil)
  {
    hide Shape, Plug;
    ShapeParts(h, c, t, root, nil);
    RightRotateReady(h, c, t, root, nil);
    var y, x, p, b := t.n, t.l.n, Par(c, root), Head(t.l.r, nil);
    var w := {x, y, p} + ({b} - {nil});
    assert Distinct(t.l) && Linked(h, t.l, y, nil) && Linked(h, t.r, y, nil);
    assert Linked(h, t.l.l, x, nil) && Linked(h, t.l.r, x, nil);
    assert p !in Nodes(t) && (b != nil ==> b in Nodes(t.l.r));
    FrameLinked(h, k, w, t.r, y, nil);
    FrameLinked(h, k, w, t.l.l, x, nil);
    Reparent(h, k, w, t.l.r, x, y, t.l.r.Bin? && t.l.r.red, nil);
    Rehang(h, k, w, c, y, x, root, nil);
    assert Linked(k, RotR(t).r, x, nil);
  }

  lemma {:induction false} RightRotatedShape(h: Heap, k: Heap, c: Ctx, t: Tree, root: Node, nil: Node)
    requires Shape(h, Plug(c, t), root, nil) && t.Bin? && t.l.Bin? && RightRotated(h, k, t.n, nil)
    ensures Shape(k, Plug(c, RotR(t)), root, nil)
  {
    hide Shape, Plug;
    ShapeParts(h, c, t, root, nil);
    RightRotatedParts(h, k, c, t, root, nil);
    RightRotateReady(h, c, t, root, nil);
    RotRKeeps(t);
    ShapeParts(k, c, RotR(t), root, nil);
  }

  // ---- changing a colour

  lemma {:induction false} RecolouredShape(h: Heap, k: Heap, c: Ctx, t: Tree, red: bool, root: Node, nil: Node)
    requires Shape(h, Plug(c, t), root, nil) && t.Bin?
    requires t.n in h && k.Keys == h.Keys && k[t.n] == h[t.n].(red := red) && SameOff(h, k, {t.n})
    ensures Shape(k, Plug(c, Recolour(t, red)), root, nil)
  {
    hide Shape, Plug;
    ShapeParts(h, c, t, root, nil);
    Reparent(h, k, {t.n}, t, Par(c, root), Par(c, root), red, nil);
    FrameLinkedC(h, k, {t.n}, c, t.n, root, nil);
    ShapeParts(k, c, Recolour(t, red), root, nil);
  }

  // ---- recursiveInsert (IntervalTree.cc:157-178): a new leaf x in the hole of c

  lemma {:induction false} LeafShape(h: Heap, k: Heap, c: Ctx, x: Node, root: Node, nil: Node)
    requires Shape(h, Plug(c, Empty), root, nil) && x !in h
    requires k.Keys == h.Keys + {x} && k[x] == Cell(nil, nil, Par(c, root), false)
    requires Relinked(h, k, c, x, root)
    requires SameOff(h, k, {Par(c, root)})
    ensures Shape(k, Plug(c, Bin(Empty, x, false, Empty)), root, nil)
  {
    hide Shape, Plug;
    ShapeParts(h, c, Empty, root, nil);
    Rehang(h, k, {Par(c, root)}, c, nil, x, root, nil);
    assert nil != Par(c, root) && x !in {root, nil};
    assert Linked(k, Bin(Empty, x, false, Empty), Par(c, root), nil);
    ShapeParts(k, c, Bin(Empty, x, false, Empty), root, nil);
  }

  // ---- deleteNode (IntervalTree.cc:410-460)

  // Splicing out y, which has at most one child: that child takes y's place.
  lemma {:induction false} SpliceReady(h: Heap, c: Ctx, t: Tree, root: Node, nil: Node)
    requires Shape(h, Plug(c, t), root, nil) && t.Bin?
    ensures var p, s := Par(c, root), Head(OnlyChild(t), nil);
      && {t.n, p, s, nil} <= h.Keys && p != t.n && s != t.n && s != p && p != nil && t.n != nil
      && h[t.n] == Cell(Head(t.l, nil), Head(t.r, nil), p, t.red)
      && h[p].left != h[p].right && (c.Top? <==> p == root) && (c.Rgt? <==> !(p == root || t.n == h[p].left))
  {
    ShapeParts(h, c, t, root, nil);
    Look(h, c, t, root, nil);
    assert OnlyChild(t).Bin? ==> OnlyChild(t).n in Nodes(t);
  }

  lemma {:induction false} SplicedShape(h: Heap, k: Heap, c: Ctx, t: Tree, s: Tree, root: Node, nil: Node)
    requires Shape(h, Plug(c, t), root, nil) && t.Bin?
    requires (t.l.Empty? && s == t.r) || (t.r.Empty? && s == t.l)
    requires k.Keys == h.Keys - {t.n}
    requires s.Bin? ==> Adopted(h, k, s.n, Par(c, root))
    requires Relinked(h, k, c, Head(s, nil), root)
    requires nil in k && !k[nil].red
    requires SameOff(h, k, {t.n, Head(s, nil), nil, Par(c, root)})
    ensures Shape(k, Plug(c, s), root, nil)
  {
    hide Shape, Plug;
    ShapeParts(h, c, t, root, nil);
    var w := {t.n, Head(s, nil), nil, Par(c, root)};
    assert Linked(h, s, t.n, nil);
    Reparent(h, k, w, s, t.n, Par(c, root), s.Bin? && s.red, nil);
    Rehang(h, k, w, c, t.n, Head(s, nil), root, nil);
    ShapeParts(k, c, s, root, nil);
  }

  // y takes the place of z == t.n, with z's links but its own colour.
  ghost predicate Replaced(h: Heap, k: Heap, c: Ctx, t: Tree, y: Node, red: bool, root: Node, nil: Node)
    requires t.Bin?
  {
    && y !in h && t.n in h && nil in k && !k[nil].red
    && k.Keys == h.Keys - {t.n} + {y} && k[y] == h[t.n].(red := red)
    && (t.l.Bin? ==> Adopted(h, k, t.l.n, y)) && (t.r.Bin? ==> Adopted(h, k, t.r.n, y))
    && Relinked(h, k, c, y, root)
    && SameOff(h, k, {t.n, Head(t.l, nil), Head(t.r, nil), nil, Par(c, root)})
  }

  lemma {:induction false} ReplaceReady(h: Heap, c: Ctx, t: Tree, y: Node, root: Node, nil: Node)
    requires Shape(h, Plug(c, t), root, nil) && t.Bin? && t.l.Bin? && y !in h
    ensures var p, a, b := Par(c, root), t.l.n, Head(t.r, nil);
      && {t.n, p, a, b, nil} <= h.Keys && p !in {t.n, a, b, nil, y} && t.n !in {a, b, nil, y} && a !in {b, nil, y}
      && b != y && y != nil
      && h[t.n] == Cell(a, b, p, t.red) && (t.r.Bin? ==> b != nil)
      && (c.Rgt? <==> t.n != h[p].left)
  {
    ShapeParts(h, c, t, root, nil);
    Look(h, c, t, root, nil);
    assert t.l.n in Nodes(t);
    assert t.r.Bin? ==> t.r.n in Nodes(t);
  }

  lemma {:induction false} ReplacedParts(h: Heap, k: Heap, c: Ctx, t: Tree, y: Node, red: bool, root: Node, nil: Node)
    requires Shape(h, Plug(c, t), root, nil) && t.Bin? && Replaced(h, k, c, t, y, red, root, nil)
    ensures Linked(k, Bin(t.l, y, red, t.r), Par(c, root), nil) && LinkedC(k, c, y, root, nil)
  {
    hide Shape, Plug;
    ShapeParts(h, c, t, root, nil);
    var w := {t.n, Head(t.l, nil), Head(t.r, nil), nil, Par(c, root)};
    assert Linked(h, t.l, t.n, nil) && Linked(h, t.r, t.n, nil);
    assert t.l.Bin? ==> t.l.n in Nodes(t.l);
    assert t.r.Bin? ==> t.r.n in Nodes(t.r);
    Reparent(h, k, w, t.l, t.n, y, t.l.Bin? && t.l.red, nil);
    Reparent(h, k, w, t.r, t.n, y, t.r.Bin? && t.r.red, nil);
    Rehang(h, k, w, c, t.n, y, root, nil);
  }

  lemma {:induction false} ReplacedShape(h: Heap, k: Heap, c: Ctx, t: Tree, y: Node, red: bool, root: Node, nil: Node)
    requires Shape(h, Plug(c, t), root, nil) && t.Bin? && Replaced(h, k, c, t, y, red, root, nil)
    ensures Shape(k, Plug(c, Bin(t.l, y, red, t.r)), root, nil)
  {
    hide Shape, Plug;
    ShapeParts(h, c, t, root, nil);
    ReplacedParts(h, k, c, t, y, red, root, nil);
    assert y !in {root, nil} && y !in NodesC(c) && y !in Nodes(t);
    ShapeParts(k, c, Bin(t.l, y, red, t.r), root, nil);
  }

  // ---- max_high

  // The max_high field of every node of t is the maximum of its subtree.
  ghost predicate HighOK(g: Highs, t: Tree) {
    t.Bin? ==> t.n in g && g[t.n] == MaxHigh(t) && HighOK(g, t.l) && HighOK(g, t.r)
  }

  // ... of every node hanging off the path of c.
  ghost predicate HighSides(g: Highs, c: Ctx) {
    match c
    case Top => true
    case Lft(up, _, _, r) => HighOK(g, r) && HighSides(g, up)
    case Rgt(l, _, _, up) => HighOK(g, l) && HighSides(g, up)
  }

  // ... of every node on the path of c, if the hole has maximum m.
  ghost predicate HighPath(g: Highs, c: Ctx, m: SimTime) {
    !c.Top? ==> c.n in g && g[c.n] == MaxHighC(c, m) && HighPath(g, c.up, MaxHighC(c, m))
  }

  lemma {:induction false} PlugHigh(g: Highs, c: Ctx, t: Tree)
    ensures HighOK(g, Plug(c, t)) <==> HighOK(g, t) && HighSides(g, c) && HighPath(g, c, MaxHigh(t))
  {
    match c
    case Top =>
    case Lft(up, n, red, r) => PlugHigh(g, up, Bin(t, n, red, r));
    case Rgt(l, n, red, up) => PlugHigh(g, up, Bin(l, n, red, t));
  }

  lemma {:induction false} FrameHigh(g: Highs, k: Highs, w: set<Node>, t: Tree)
    requires HighOK(g, t) && SameOff(g, k, w) && w !! Nodes(t)
    ensures HighOK(k, t)
  {
    if t.Bin? {
      FrameHigh(g, k, w, t.l);
      FrameHigh(g, k, w, t.r);
    }
  }

  // The nodes hanging off the path of c.
  ghost function SideNodes(c: Ctx): set<Node> {
    if c.Top? then {} else SideNodes(c.up) + Nodes(Sibling(c))
  }

  lemma {:induction false} SideNodesOfCtx(c: Ctx)
    ensures SideNodes(c) <= NodesC(c)
  {
    if !c.Top? {
      SideNodesOfCtx(c.up);
    }
  }

  lemma {:induction false} FrameHighSides(g: Highs, k: Highs, w: set<Node>, c: Ctx)
    requires HighSides(g, c) && SameOff(g, k, w) && w !! SideNodes(c)
    ensures HighSides(k, c)
  {
    if !c.Top? {
      FrameHigh(g, k, w, Sibling(c));
      FrameHighSides(g, k, w, c.up);
    }
  }

  lemma {:induction false} FrameHighPath(g: Highs, k: Highs, w: set<Node>, c: Ctx, m: SimTime)
    requires HighPath(g, c, m) && SameOff(g, k, w) && w !! NodesC(c)
    ensures HighPath(k, c, m)
  {
    if !c.Top? {
      FrameHighPath(g, k, w, c.up, MaxHighC(c, m));
    }
  }

  // Which nodes are on the path does not matter to what hangs off it.
  lemma {:induction false} HighSidesMin(g: Highs, t: Tree, c: Ctx, d: Ctx)
    requires t.Bin? && HighSides(g, MinCtx(t, c)) && (HighSides(g, c) ==> HighSides(g, d))
    ensures HighSides(g, MinCtx(t, d))
  {
    if t.l.Bin? {
      HighSidesMin(g, t.l, Lft(c, t.n, t.red, t.r), Lft(d, t.n, t.red, t.r));
    }
  }

  lemma {:induction false} SideNodesMin(t: Tree, c: Ctx, d: Ctx)
    requires t.Bin? && SideNodes(c) == SideNodes(d)
    ensures SideNodes(MinCtx(t, c)) == SideNodes(MinCtx(t, d))
  {
    if t.l.Bin? {
      SideNodesMin(t.l, Lft(c, t.n, t.red, t.r), Lft(d, t.n, t.red, t.r));
    }
  }

  // The top of t gives way to its successor y: what hangs off the path to
  // y's old place is untouched.
  lemma {:induction false} SucceededHigh(g: Highs, k: Highs, c: Ctx, t: Tree, red: bool)
    requires t.Bin? && t.r.Bin? && Distinct(Plug(c, t)) && HighOK(g, Plug(c, t))
    requires SameOff(g, k, {t.n, MinTree(t.r).n})
    ensures HighOK(k, MinTree(t.r).r) && HighSides(k, MinCtx(t.r, Rgt(t.l, MinTree(t.r).n, red, c)))
  {
    var m := MinTree(t.r);
    var c0, c1 := Rgt(t.l, t.n, t.red, c), Rgt(t.l, m.n, red, c);
    var w, cy := {t.n, m.n}, MinCtx(t.r, c0);
    PlugMin(t.r, c0, m);
    PlugHigh(g, cy, m);
    PlugDistinct(cy, m);
    PlugDistinct(c, t);
    SideNodesOfCtx(cy);
    HighSidesMin(g, t.r, c0, c1);
    SideNodesMin(t.r, c0, c1);
    TopNotBeside(t, c);
    FrameHigh(g, k, w, m.r);
    FrameHighSides(g, k, w, MinCtx(t.r, c1));
  }

  // The node above does not hang off the path below it.
  lemma {:induction false} TopNotBeside(t: Tree, c: Ctx)
    requires t.Bin? && t.r.Bin? && Distinct(Plug(c, t))
    ensures t.n !in SideNodes(MinCtx(t.r, Rgt(t.l, t.n, t.red, c))) && t.n !in Nodes(MinTree(t.r))
  {
    PlugDistinct(c, t);
    SideNodesOfCtx(c);
    MinNodes(t.r, Rgt(t.l, t.n, t.red, c));
  }

  lemma {:induction false} MinNodes(t: Tree, c: Ctx)
    requires t.Bin?
    ensures SideNodes(MinCtx(t, c)) <= SideNodes(c) + Nodes(t) && Nodes(MinTree(t)) <= Nodes(t)
  {
    if t.l.Bin? {
      MinNodes(t.l, Lft(c, t.n, t.red, t.r));
    }
  }

  lemma {:induction false} SplicedHigh(g: Highs, k: Highs, c: Ctx, t: Tree)
    requires t.Bin? && Distinct(Plug(c, t)) && HighOK(g, Plug(c, t)) && SameOff(g, k, {t.n})
    ensures HighOK(k, OnlyChild(t)) && HighSides(k, c)
  {
    PlugHigh(g, c, t);
    PlugDistinct(c, t);
    FrameHigh(g, k, {t.n}, OnlyChild(t));
    SideNodesOfCtx(c);
    FrameHighSides(g, k, {t.n}, c);
  }

  // Recomputing max_high at the two rotated nodes is enough.
  lemma {:induction false} LeftRotatedHigh(g: Highs, k: Highs, c: Ctx, t: Tree)
    requires t.Bin? && t.r.Bin? && Distinct(Plug(c, t)) && HighOK(g, Plug(c, t))
    requires t.n in k && k[t.n] == Max(MaxHigh(t.l), Max(MaxHigh(t.r.l), t.n.high))
    requires t.r.n in k && k[t.r.n] == Max(k[t.n], Max(MaxHigh(t.r.r), t.r.n.high))
    requires SameOff(g, k, {t.n, t.r.n})
    ensures HighOK(k, Plug(c, RotL(t)))
  {
    var w := {t.n, t.r.n};
    PlugHigh(g, c, t);
    PlugDistinct(c, t);
    assert Distinct(t.r) && HighOK(g, t.r);
    FrameHigh(g, k, w, t.l);
    FrameHigh(g, k, w, t.r.l);
    FrameHigh(g, k, w, t.r.r);
    SideNodesOfCtx(c);
    FrameHighSides(g, k, w, c);
    FrameHighPath(g, k, w, c, MaxHigh(t));
    assert HighOK(k, RotL(t).l);
    PlugHigh(k, c, RotL(t));
  }

  lemma {:induction false} RightRotatedHigh(g: Highs, k: Highs, c: Ctx, t: Tree)
    requires t.Bin? && t.l.Bin? && Distinct(Plug(c, t)) && HighOK(g, Plug(c, t))
    requires t.n in k && k[t.n] == Max(MaxHigh(t.l.r), Max(MaxHigh(t.r), t.n.high))
    requires t.l.n in k && k[t.l.n] == Max(MaxHigh(t.l.l), Max(k[t.n], t.l.n.high))
    requires SameOff(g, k, {t.n, t.l.n})
    ensures HighOK(k, Plug(c, RotR(t)))
  {
    var w := {t.n, t.l.n};
    PlugHigh(g, c, t);
    PlugDistinct(c, t);
    assert Distinct(t.l) && HighOK(g, t.l);
    FrameHigh(g, k, w, t.r);
    FrameHigh(g, k, w, t.l.l);
    FrameHigh(g, k, w, t.l.r);
    SideNodesOfCtx(c);
    FrameHighSides(g, k, w, c);
    FrameHighPath(g, k, w, c, MaxHigh(t));
    assert HighOK(k, RotR(t).r);
    PlugHigh(k, c, RotR(t));
  }

  lemma {:induction false} HighRecolour(g: Highs, c: Ctx, t: Tree, red: bool)
    ensures HighOK(g, Plug(c, t)) <==> HighOK(g, Plug(c, Recolour(t, red)))
  {
    PlugHigh(g, c, t);
    PlugHigh(g, c, Recolour(t, red));
  }
}
