// The nodes of the interval tree (IntervalTree.h) and the mathematical trees
// they stand for: subtrees, and contexts with one hole ("zippers").

module IntervalNodes {
  import opened Sequences

  // The greatest simulation time, in 64-bit ticks.
  const MAX_TIME: int := 0x7FFF_FFFF_FFFF_FFFF

  type SimTime = t: int | -MAX_TIME <= t <= MAX_TIME

  function Max(a: SimTime, b: SimTime): SimTime { if a < b then b else a }

  class Interval {
    const low: SimTime
    const high: SimTime

    constructor (low: SimTime, high: SimTime)
      ensures this.low == low && this.high == high
    {
      this.low := low;
      this.high := high;
    }
  }

  class Node {
    const interval: Interval?
    const key: SimTime
    const high: SimTime
    var maxHigh: SimTime
    var red: bool
    var left: Node
    var right: Node
    var parent: Node

    // The sentinel `nil`.
    constructor Nil()
      ensures interval == null && key == high == maxHigh == -MAX_TIME && !red
      ensures left == right == parent == this
    {
      interval := null;
      key, high, maxHigh := -MAX_TIME, -MAX_TIME, -MAX_TIME;
      red := false;
      left, right, parent := this, this, this;
    }

    // The sentinel `root`, whose left child is the real root.
    constructor Root(nil: Node)
      ensures interval == null && key == high == maxHigh == MAX_TIME && !red
      ensures left == right == parent == nil
    {
      interval := null;
      key, high, maxHigh := MAX_TIME, MAX_TIME, MAX_TIME;
      red := false;
      left, right, parent := nil, nil, nil;
    }

    constructor (iv: Interval, nil: Node)
      ensures interval == iv && key == iv.low && high == maxHigh == iv.high && !red
      ensures left == right == parent == nil
    {
      interval := iv;
      key, high, maxHigh := iv.low, iv.high, iv.high;
      red := false;
      left, right, parent := nil, nil, nil;
    }
  }

  // The shape and the colours of a subtree.
  datatype Tree = Empty | Bin(l: Tree, n: Node, red: bool, r: Tree)

  // What surrounds a subtree: the path from its parent up to the real root,
  // and the subtrees hanging off that path.
  datatype Ctx = Top | Lft(up: Ctx, n: Node, red: bool, r: Tree) | Rgt(l: Tree, n: Node, red: bool, up: Ctx)

  function Plug(c: Ctx, t: Tree): Tree {
    match c
    case Top => t
    case Lft(up, n, red, r) => Plug(up, Bin(t, n, red, r))
    case Rgt(l, n, red, up) => Plug(up, Bin(l, n, red, t))
  }

  // A subtree in the hole of a context.
  datatype Zip = Zip(c: Ctx, t: Tree)

  // A subtree and a node that is to replace its top.
  datatype Heir = Heir(z: Zip, y: Node, red: bool)

  // The same tree with the hole one node higher.
  function Climb(c: Ctx, t: Tree): Zip
    requires !c.Top?
  {
    if c.Lft? then Zip(c.up, Bin(t, c.n, c.red, c.r)) else Zip(c.up, Bin(c.l, c.n, c.red, t))
  }

  function Head(t: Tree, nil: Node): Node { if t.Empty? then nil else t.n }

  function Par(c: Ctx, root: Node): Node { if c.Top? then root else c.n }

  // The node describes its interval.
  ghost predicate Carries(n: Node) {
    n.interval != null && n.key == n.interval.low && n.high == n.interval.high
  }

  // The node at the outer end of a context's path.
  function Outermost(c: Ctx): Node
    requires !c.Top?
  {
    if c.up.Top? then c.n else Outermost(c.up)
  }

  lemma {:induction false} HeadPlug(c: Ctx, t: Tree, nil: Node)
    requires !c.Top?
    ensures Head(Plug(c, t), nil) == Outermost(c) && Outermost(c) in NodesC(c)
  {
    if !c.up.Top? {
      HeadPlug(c.up, Climb(c, t).t, nil);
    }
  }

  // ---- contents, in order

  function Inorder(t: Tree): seq<Node> {
    if t.Empty? then [] else Inorder(t.l) + [t.n] + Inorder(t.r)
  }

  // The nodes before and after the hole of a context.
  function Pre(c: Ctx): seq<Node> {
    match c
    case Top => []
    case Lft(up, _, _, _) => Pre(up)
    case Rgt(l, n, _, up) => Pre(up) + Inorder(l) + [n]
  }

  function Post(c: Ctx): seq<Node> {
    match c
    case Top => []
    case Lft(up, n, _, r) => [n] + Inorder(r) + Post(up)
    case Rgt(_, _, _, up) => Post(up)
  }

  lemma {:induction false} PlugInorder(c: Ctx, t: Tree)
    ensures Inorder(Plug(c, t)) == Pre(c) + Inorder(t) + Post(c)
  {
    match c
    case Top =>
    case Lft(up, n, red, r) =>
      var a, b, d, e := Pre(up), Inorder(t), Inorder(r), Post(up);
      PlugInorder(up, Bin(t, n, red, r));
      Assoc(b, [n], d);
      Around(a, b, [n] + d, e);
    case Rgt(l, n, red, up) =>
      var a, b, d, e := Pre(up), Inorder(l), Inorder(t), Post(up);
      PlugInorder(up, Bin(l, n, red, t));
      Around(a, b + [n], d, e);
      Assoc(a, b, [n]);
      Assoc(a + b + [n], d, e);
  }

  // Stored by ascending low end.
  ghost predicate Ordered(s: seq<Node>) {
    forall i, j :: 0 <= i < j < |s| ==> s[i].key <= s[j].key
  }

  lemma {:induction false} OrderedParts(s: seq<Node>, n: Node, d: seq<Node>)
    requires Ordered(s + [n] + d)
    ensures Ordered(s) && Ordered(d) && Ordered(s + d)
    ensures forall m :: m in s ==> m.key <= n.key
    ensures forall m :: m in d ==> n.key <= m.key
  {
    var all := s + [n] + d;
    assert all[|s|] == n;
    forall m | m in s ensures m.key <= n.key {
      var i :| 0 <= i < |s| && s[i] == m;
      assert all[i] == m;
    }
    forall m | m in d ensures n.key <= m.key {
      var i :| 0 <= i < |d| && d[i] == m;
      assert all[|s| + 1 + i] == m;
    }
    forall i, j | 0 <= i < j < |s + d| ensures (s + d)[i].key <= (s + d)[j].key {
      var i', j' := if i < |s| then i else i + 1, if j < |s| then j else j + 1;
      assert all[i'] == (s + d)[i] && all[j'] == (s + d)[j];
    }
    assert s == (s + d)[..|s|] && d == (s + d)[|s|..];
  }

  lemma {:induction false} OrderedAround(c: Ctx, t: Tree)
    requires t.Bin? && Ordered(Inorder(Plug(c, t)))
    ensures forall m :: m in Inorder(t.l) ==> m.key <= t.n.key
    ensures forall m :: m in Inorder(t.r) ==> t.n.key <= m.key
  {
    PlugInorder(c, t);
    var a, l, r, d := Pre(c), Inorder(t.l), Inorder(t.r), Post(c);
    Assoc(a, l + [t.n], r);
    Assoc(a, l, [t.n]);
    Assoc(a + l + [t.n], r, d);
    OrderedParts(a + l, t.n, r + d);
  }

  // How many keys of an ordered sequence are at most k.
  function UpperBound(s: seq<Node>, k: SimTime): (i: nat)
    ensures i <= |s| && (forall j :: 0 <= j < i ==> s[j].key <= k) && (i < |s| ==> k < s[i].key)
  {
    if s == [] || k < s[0].key then 0 else 1 + UpperBound(s[1..], k)
  }

  lemma {:induction false} UpperBoundSplit(a: seq<Node>, b: seq<Node>, k: SimTime)
    requires forall n :: n in a ==> n.key <= k
    requires forall n :: n in b ==> k < n.key
    ensures UpperBound(a + b, k) == |a|
  {
    if a == [] {
      assert a + b == b;
    } else {
      assert (a + b)[1..] == a[1..] + b;
      UpperBoundSplit(a[1..], b, k);
    }
  }

  lemma {:induction false} OrderedInsert(a: seq<Node>, n: Node, b: seq<Node>)
    requires Ordered(a + b)
    requires forall m :: m in a ==> m.key <= n.key
    requires forall m :: m in b ==> n.key <= m.key
    ensures Ordered(a + [n] + b)
  {
    var s := a + [n] + b;
    forall i, j | 0 <= i < j < |s| ensures s[i].key <= s[j].key {
      if i != |a| && j != |a| {
        var i', j' := if i < |a| then i else i - 1, if j < |a| then j else j - 1;
        assert (a + b)[i'] == s[i] && (a + b)[j'] == s[j];
      }
    }
  }

  // s' is s without the one occurrence of z.
  ghost predicate Removed(s: seq<Node>, s': seq<Node>, z: Node) {
    exists i :: 0 <= i < |s| && s[i] == z && s' == s[..i] + s[i + 1..]
  }

  lemma {:induction false} RemovedSplit(a: seq<Node>, z: Node, b: seq<Node>)
    requires Ordered(a + [z] + b)
    ensures Removed(a + [z] + b, a + b, z) && Ordered(a + b)
  {
    OrderedParts(a, z, b);
    var s := a + [z] + b;
    assert s[|a|] == z && s[..|a|] == a && s[|a| + 1..] == b;
  }

  // ---- node sets

  ghost function Nodes(t: Tree): set<Node> {
    if t.Empty? then {} else Nodes(t.l) + {t.n} + Nodes(t.r)
  }

  ghost function NodesC(c: Ctx): set<Node> {
    match c
    case Top => {}
    case Lft(up, n, _, r) => NodesC(up) + {n} + Nodes(r)
    case Rgt(l, n, _, up) => NodesC(up) + {n} + Nodes(l)
  }

  // No node occurs twice.
  ghost predicate Distinct(t: Tree) {
    t.Bin? ==>
      && t.n !in Nodes(t.l) && t.n !in Nodes(t.r) && Nodes(t.l) !! Nodes(t.r)
      && Distinct(t.l) && Distinct(t.r)
  }

  ghost predicate DistinctC(c: Ctx) {
    match c
    case Top => true
    case Lft(up, n, _, r) =>
      DistinctC(up) && Distinct(r) && n !in Nodes(r) && n !in NodesC(up) && Nodes(r) !! NodesC(up)
    case Rgt(l, n, _, up) =>
      DistinctC(up) && Distinct(l) && n !in Nodes(l) && n !in NodesC(up) && Nodes(l) !! NodesC(up)
  }

  lemma {:induction false} PlugNodes(c: Ctx, t: Tree)
    ensures Nodes(Plug(c, t)) == NodesC(c) + Nodes(t)
  {
    match c
    case Top =>
    case Lft(up, n, red, r) => PlugNodes(up, Bin(t, n, red, r));
    case Rgt(l, n, red, up) => PlugNodes(up, Bin(l, n, red, t));
  }

  lemma {:induction false} PlugDistinct(c: Ctx, t: Tree)
    ensures Distinct(Plug(c, t)) <==> DistinctC(c) && Distinct(t) && NodesC(c) !! Nodes(t)
  {
    match c
    case Top =>
    case Lft(up, n, red, r) => PlugDistinct(up, Bin(t, n, red, r));
    case Rgt(l, n, red, up) => PlugDistinct(up, Bin(l, n, red, t));
  }

  lemma AroundNode(a: seq<Node>, l: set<Node>, x: Node, b: seq<Node>, r: set<Node>)
    requires NoRepeats(a) && NoRepeats(b) && (forall n :: n in a <==> n in l) && forall n :: n in b <==> n in r
    requires x !in l && x !in r && l !! r
    ensures NoRepeats(a + [x] + b)
  {
    forall i, j | 0 <= i < |a| && 0 <= j < |b| ensures a[i] != b[j] {
      assert a[i] in a && b[j] in b;
    }
    NoRepeatsAround(a, x, b);
  }

  lemma {:induction false} InorderNoRepeats(t: Tree)
    requires Distinct(t)
    ensures NoRepeats(Inorder(t))
  {
    if t.Bin? {
      InorderNoRepeats(t.l);
      InorderNoRepeats(t.r);
      InorderNodes(t.l);
      InorderNodes(t.r);
      AroundNode(Inorder(t.l), Nodes(t.l), t.n, Inorder(t.r), Nodes(t.r));
    }
  }

  lemma {:induction false} InorderNodes(t: Tree)
    ensures forall n :: n in Inorder(t) <==> n in Nodes(t)
  {
    if t.Bin? {
      InorderNodes(t.l);
      InorderNodes(t.r);
    }
  }

  // Every node of a tree is the top of a subtree.
  lemma {:induction false} Locate(t: Tree, up: Ctx, n: Node) returns (c: Ctx, s: Tree)
    requires n in Nodes(t)
    ensures Plug(c, s) == Plug(up, t) && s.Bin? && s.n == n
  {
    if n == t.n {
      return up, t;
    } else if n in Nodes(t.l) {
      c, s := Locate(t.l, Lft(up, t.n, t.red, t.r), n);
    } else {
      c, s := Locate(t.r, Rgt(t.l, t.n, t.red, up), n);
    }
  }

  // ---- the augmentation

  // The value max_high must have at the top of t; nil stands for -MAX_TIME.
  function MaxHigh(t: Tree): SimTime {
    if t.Empty? then -MAX_TIME else Max(t.n.high, Max(MaxHigh(t.l), MaxHigh(t.r)))
  }

  // The child of a node that has at most one.
  function OnlyChild(t: Tree): Tree
    requires t.Bin?
  {
    if t.l.Empty? then t.r else t.l
  }

  function Sibling(c: Ctx): Tree
    requires !c.Top?
  {
    if c.Lft? then c.r else c.l
  }

  // Where the sibling sits once t is plugged into the hole of c.
  function SiblingCtx(c: Ctx, t: Tree): Ctx
    requires !c.Top?
  {
    if c.Lft? then Rgt(t, c.n, c.red, c.up) else Lft(c.up, c.n, c.red, t)
  }

  // max_high at c's innermost node when the hole's subtree has maximum m.
  function MaxHighC(c: Ctx, m: SimTime): SimTime
    requires !c.Top?
  {
    Max(c.n.high, Max(m, MaxHigh(Sibling(c))))
  }

  // ---- rotations

  function RotL(t: Tree): Tree
    requires t.Bin? && t.r.Bin?
  {
    Bin(Bin(t.l, t.n, t.red, t.r.l), t.r.n, t.r.red, t.r.r)
  }

  function RotR(t: Tree): Tree
    requires t.Bin? && t.l.Bin?
  {
    Bin(t.l.l, t.l.n, t.l.red, Bin(t.l.r, t.n, t.red, t.r))
  }

  function Recolour(t: Tree, red: bool): Tree {
    if t.Empty? then t else t.(red := red)
  }

  lemma {:induction false} RotLKeeps(t: Tree)
    requires t.Bin? && t.r.Bin?
    ensures RotR(RotL(t)) == t
    ensures Inorder(RotL(t)) == Inorder(t) && MaxHigh(RotL(t)) == MaxHigh(t)
    ensures Nodes(RotL(t)) == Nodes(t) && (Distinct(t) ==> Distinct(RotL(t)))
  {
    var u := RotL(t);
    assert u.l.r == t.r.l && u.r == t.r.r;
    assert Nodes(t.r) == Nodes(t.r.l) + {t.r.n} + Nodes(t.r.r);
    assert Nodes(u.l) == Nodes(t.l) + {t.n} + Nodes(t.r.l);
    assert Distinct(t) ==> Distinct(t.r) && Distinct(u.l);
    RotLOrder(t);
  }

  lemma RotLOrder(t: Tree)
    requires t.Bin? && t.r.Bin?
    ensures Inorder(RotL(t)) == Inorder(t)
  {
    var a, b, d := Inorder(t.l) + [t.n], Inorder(t.r.l), Inorder(t.r.r);
    assert RotL(t).l == Bin(t.l, t.n, t.red, t.r.l) && RotL(t).r == t.r.r;
    Assoc(a, b, [t.r.n]);
    Assoc(a, b + [t.r.n], d);
  }

  lemma {:induction false} RotRKeeps(t: Tree)
    requires t.Bin? && t.l.Bin?
    ensures RotL(RotR(t)) == t
    ensures Inorder(RotR(t)) == Inorder(t) && MaxHigh(RotR(t)) == MaxHigh(t)
    ensures Nodes(RotR(t)) == Nodes(t) && (Distinct(t) ==> Distinct(RotR(t)))
  {
    var u := RotR(t);
    RotLKeeps(u);
    assert Nodes(t.l) == Nodes(t.l.l) + {t.l.n} + Nodes(t.l.r);
    assert Nodes(u.r) == Nodes(t.l.r) + {t.n} + Nodes(t.r);
    assert Distinct(t) ==> Distinct(t.l) && Distinct(u.r);
  }
}
