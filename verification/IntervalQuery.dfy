// What IntervalTree::query visits, and when that is every overlapping interval.

module IntervalQuery {
  import opened IntervalNodes
  import opened IntervalColours
  import opened Sequences

  // overlap(a1, a2, b1, b2) of IntervalTree.cc.
  predicate Overlap(a1: SimTime, a2: SimTime, b1: SimTime, b2: SimTime) {
    if a1 <= b1 then b1 <= a2 else a1 <= b2
  }

  predicate Hits(n: Node, low: SimTime, high: SimTime) { Overlap(low, high, n.key, n.high) }

  predicate Within(p: SimTime, a: SimTime, b: SimTime) { a <= p <= b }

  // On proper intervals, overlap means a common point.
  lemma OverlapIsIntersection(a1: SimTime, a2: SimTime, b1: SimTime, b2: SimTime)
    requires a1 <= a2 && b1 <= b2
    ensures Overlap(a1, a2, b1, b2) <==> exists p: SimTime :: Within(p, a1, a2) && Within(p, b1, b2)
  {
    if Overlap(a1, a2, b1, b2) {
      var p := if a1 <= b1 then b1 else a1;
      assert Within(p, a1, a2) && Within(p, b1, b2);
    }
  }

  function Filter(s: seq<Node>, low: SimTime, high: SimTime): seq<Node> {
    if s == [] then [] else (if Hits(s[0], low, high) then [s[0]] else []) + Filter(s[1..], low, high)
  }

  // The hits query finds in the subtree t, in the order it finds them: a right
  // subtree is entered if the left one cannot reach low, or had a hit.
  function Found(t: Tree, low: SimTime, high: SimTime): seq<Node> {
    if t.Empty? then [] else
      var rest :=
        if MaxHigh(t.l) < low then Found(t.r, low, high)
        else Found(t.l, low, high) + (if Found(t.l, low, high) == [] then [] else Found(t.r, low, high));
      (if Hits(t.n, low, high) then [t.n] else []) + rest
  }

  lemma {:induction false} FilterConcat(a: seq<Node>, b: seq<Node>, low: SimTime, high: SimTime)
    ensures Filter(a + b, low, high) == Filter(a, low, high) + Filter(b, low, high)
  {
    if a == [] {
      assert a + b == b;
    } else {
      assert (a + b)[1..] == a[1..] + b && (a + b)[0] == a[0];
      FilterConcat(a[1..], b, low, high);
      Assoc(if Hits(a[0], low, high) then [a[0]] else [], Filter(a[1..], low, high), Filter(b, low, high));
    }
  }

  lemma {:induction false} FilterTree(t: Tree, low: SimTime, high: SimTime)
    requires t.Bin?
    ensures var f := (s: Tree) => Filter(Inorder(s), low, high);
      f(t) == f(t.l) + (if Hits(t.n, low, high) then [t.n] else []) + f(t.r)
  {
    FilterConcat(Inorder(t.l) + [t.n], Inorder(t.r), low, high);
    FilterConcat(Inorder(t.l), [t.n], low, high);
    assert Filter([t.n], low, high) == if Hits(t.n, low, high) then [t.n] else [];
  }

  lemma {:induction false} FilterNone(s: seq<Node>, low: SimTime, high: SimTime)
    ensures Filter(s, low, high) == [] <==> forall n :: n in s ==> !Hits(n, low, high)
  {
    if s != [] {
      assert forall n :: n in s <==> n == s[0] || n in s[1..];
      FilterNone(s[1..], low, high);
    }
  }

  // Every stored interval has its ends in order.
  ghost predicate Proper(t: Tree) {
    forall n :: n in Inorder(t) ==> n.key <= n.high
  }

  lemma {:induction false} MaxHighBounds(t: Tree)
    ensures forall n :: n in Inorder(t) ==> n.high <= MaxHigh(t)
    ensures t.Bin? ==> exists n :: n in Inorder(t) && n.high == MaxHigh(t)
  {
    if t.Bin? {
      MaxHighBounds(t.l);
      MaxHighBounds(t.r);
      assert t.n in Inorder(t);
      if t.l.Bin? && MaxHigh(t) == MaxHigh(t.l) {
        var n :| n in Inorder(t.l) && n.high == MaxHigh(t.l);
        assert n in Inorder(t);
      } else if t.r.Bin? && MaxHigh(t) == MaxHigh(t.r) {
        var n :| n in Inorder(t.r) && n.high == MaxHigh(t.r);
        assert n in Inorder(t);
      } else {
        assert t.n.high == MaxHigh(t);
      }
    }
  }

  // A left subtree that cannot reach low holds no hit.
  lemma PruneLeft(t: Tree, low: SimTime, high: SimTime)
    requires Proper(t) && MaxHigh(t) < low
    ensures Filter(Inorder(t), low, high) == []
  {
    MaxHighBounds(t);
    FilterNone(Inorder(t), low, high);
  }

  // A nonempty left subtree that reaches low without a hit lies right of the
  // query, and so does everything after it.
  lemma PruneRight(t: Tree, low: SimTime, high: SimTime)
    requires t.Bin? && t.l.Bin? && Ordered(Inorder(t)) && low <= MaxHigh(t.l)
    requires Filter(Inorder(t.l), low, high) == []
    ensures Filter(Inorder(t.r), low, high) == []
  {
    MaxHighBounds(t.l);
    FilterNone(Inorder(t.l), low, high);
    FilterNone(Inorder(t.r), low, high);
    OrderedAround(Top, t);
    var m :| m in Inorder(t.l) && m.high == MaxHigh(t.l);
  }

  // No node without a left child has a hit in its right subtree.
  ghost predicate NoGap(t: Tree, low: SimTime, high: SimTime) {
    t.Bin? ==>
      && (t.l.Empty? ==> Filter(Inorder(t.r), low, high) == [])
      && NoGap(t.l, low, high) && NoGap(t.r, low, high)
  }

  lemma {:induction false} OrderedSubtrees(t: Tree)
    requires t.Bin? && Ordered(Inorder(t))
    ensures Ordered(Inorder(t.l)) && Ordered(Inorder(t.r))
  {
    OrderedParts(Inorder(t.l), t.n, Inorder(t.r));
  }

  // query reports nothing but hits, each at most once per node.
  lemma {:induction false} FoundSound(t: Tree, low: SimTime, high: SimTime)
    ensures multiset(Found(t, low, high)) <= multiset(Filter(Inorder(t), low, high))
  {
    if t.Bin? {
      FoundSound(t.l, low, high);
      FoundSound(t.r, low, high);
      FilterTree(t, low, high);
    }
  }

  lemma PartsAreWhole(a: multiset<Node>, b: multiset<Node>, g: multiset<Node>, h: multiset<Node>, m: multiset<Node>)
    requires a <= g && b <= h
    ensures m + a + b == m + g + h <==> a == g && b == h
  {
    if m + a + b == m + g + h {
      assert |m + a + b| == |m| + |a| + |b| && |m + g + h| == |m| + |g| + |h|;
      assert g == a + (g - a) && h == b + (h - b);
    }
  }

  // The part of Found that comes from the right subtree.
  function FoundRight(t: Tree, low: SimTime, high: SimTime): seq<Node>
    requires t.Bin?
  {
    if MaxHigh(t.l) < low || Found(t.l, low, high) != [] then Found(t.r, low, high) else []
  }

  lemma FoundBin(t: Tree, low: SimTime, high: SimTime)
    requires t.Bin?
    ensures Found(t, low, high) == (if Hits(t.n, low, high) then [t.n] else []) +
      (if MaxHigh(t.l) < low then Found(t.r, low, high)
       else Found(t.l, low, high) + (if Found(t.l, low, high) == [] then [] else Found(t.r, low, high)))
  {
    hide MaxHigh, Hits;
  }

  lemma NoneOnLeft(t: Tree, low: SimTime, high: SimTime)
    requires t.Bin? && Proper(t) && MaxHigh(t.l) < low
    ensures Found(t.l, low, high) == []
  {
    PruneLeft(t.l, low, high);
    hide Found, Filter, MaxHigh, Inorder, Hits;
    FoundSound(t.l, low, high);
    assert |multiset(Found(t.l, low, high))| == 0;
  }

  lemma FoundSplit(t: Tree, low: SimTime, high: SimTime)
    requires t.Bin? && Proper(t)
    ensures Found(t, low, high) ==
      (if Hits(t.n, low, high) then [t.n] else []) + Found(t.l, low, high) + FoundRight(t, low, high)
  {
    hide Found, MaxHigh, Proper, Hits;
    FoundBin(t, low, high);
    Assoc(if Hits(t.n, low, high) then [t.n] else [], Found(t.l, low, high), FoundRight(t, low, high));
    if MaxHigh(t.l) < low {
      NoneOnLeft(t, low, high);
    }
  }

  lemma Multiset3<T>(a: seq<T>, b: seq<T>, c: seq<T>)
    ensures multiset(a + b + c) == multiset(a) + multiset(b) + multiset(c)
  {}

  lemma FoundParts(t: Tree, low: SimTime, high: SimTime)
    requires t.Bin? && Proper(t)
    ensures var m := multiset(if Hits(t.n, low, high) then [t.n] else []);
      && multiset(Found(t, low, high)) == m + multiset(Found(t.l, low, high)) + multiset(FoundRight(t, low, high))
      && multiset(Filter(Inorder(t), low, high)) ==
        m + multiset(Filter(Inorder(t.l), low, high)) + multiset(Filter(Inorder(t.r), low, high))
  {
    hide Found, FoundRight, Filter, Inorder, Proper;
    var m := if Hits(t.n, low, high) then [t.n] else [];
    FoundSplit(t, low, high);
    FilterTree(t, low, high);
    Multiset3(m, Found(t.l, low, high), FoundRight(t, low, high));
    Multiset3(Filter(Inorder(t.l), low, high), m, Filter(Inorder(t.r), low, high));
  }

  ghost predicate Complete(t: Tree, low: SimTime, high: SimTime) {
    multiset(Found(t, low, high)) == multiset(Filter(Inorder(t), low, high))
  }

  lemma CompleteParts(t: Tree, low: SimTime, high: SimTime)
    requires t.Bin? && Proper(t)
    ensures Complete(t, low, high) <==>
      Complete(t.l, low, high) && multiset(FoundRight(t, low, high)) == multiset(Filter(Inorder(t.r), low, high))
  {
    FoundSound(t.l, low, high);
    FoundSound(t.r, low, high);
    FoundParts(t, low, high);
    PartsAreWhole(multiset(Found(t.l, low, high)), multiset(FoundRight(t, low, high)),
      multiset(Filter(Inorder(t.l), low, high)), multiset(Filter(Inorder(t.r), low, high)),
      multiset(if Hits(t.n, low, high) then [t.n] else []));
  }

  // Skipping the right subtree costs nothing, except over a gap.
  lemma RightComplete(t: Tree, low: SimTime, high: SimTime)
    requires t.Bin? && Ordered(Inorder(t)) && Proper(t)
    requires Complete(t.l, low, high) && (t.l.Bin? || -MAX_TIME < low || Filter(Inorder(t.r), low, high) == [])
    ensures multiset(FoundRight(t, low, high)) == multiset(Filter(Inorder(t.r), low, high)) <==>
      Complete(t.r, low, high)
  {
    FoundSound(t.r, low, high);
    if !(MaxHigh(t.l) < low) && Found(t.l, low, high) == [] {
      assert |multiset(Filter(Inorder(t.l), low, high))| == 0;
      if t.l.Bin? {
        PruneRight(t, low, high);
      }
    }
  }

  // The pruning loses nothing unless low is the nil sentinel's own key and some
  // node without a left child has a hit on its right.
  lemma {:induction false} FoundComplete(t: Tree, low: SimTime, high: SimTime)
    requires Ordered(Inorder(t)) && Proper(t)
    ensures Complete(t, low, high) <==> -MAX_TIME < low || NoGap(t, low, high)
  {
    if t.Bin? {
      OrderedSubtrees(t);
      FoundComplete(t.l, low, high);
      FoundComplete(t.r, low, high);
      CompleteParts(t, low, high);
      if Complete(t.l, low, high) {
        if t.l.Empty? && low == -MAX_TIME && Filter(Inorder(t.r), low, high) != [] {
          assert |multiset(FoundRight(t, low, high))| == 0;
        } else {
          RightComplete(t, low, high);
        }
      }
    }
  }

  // The failing case in the smallest tree: with low at the sentinel's key, a
  // root without a left child hides its right child.
  lemma SentinelQueryMisses(a: Node, b: Node, high: SimTime)
    requires a.key <= b.key <= high && a.key <= a.high && b.key <= b.high
    ensures var t := Bin(Empty, a, false, Bin(Empty, b, true, Empty));
      && Balanced(t) && Ordered(Inorder(t)) && Proper(t)
      && Filter(Inorder(t), -MAX_TIME, high) == [a, b] && Found(t, -MAX_TIME, high) == [a]
  {
    var r := Bin(Empty, b, true, Empty);
    var t := Bin(Empty, a, false, r);
    assert Inorder(r) == [b];
    assert Inorder(t) == [a, b];
    assert Filter([b], -MAX_TIME, high) == [b];
    assert [a, b][1..] == [b];
    assert Found(r, -MAX_TIME, high) == [b];
  }

  // ---- the explicit stack of query

  // it_recursion_node
  datatype Frame = Frame(start: Node?, parentIndex: nat, tryRight: bool)

  // What is still to be found once the current subtree is done: for each open
  // frame, its right subtree if the frame is flagged or a hit came from below.
  function Pending(fs: seq<Tree>, st: seq<Frame>, hit: bool, low: SimTime, high: SimTime): seq<Node>
    requires |fs| < |st| && forall t :: t in fs ==> t.Bin?
  {
    if fs == [] then []
    else
      var t, rest := fs[|fs| - 1], fs[..|fs| - 1];
      if st[|fs|].tryRight || hit then Found(t.r, low, high) + Pending(rest, st, true, low, high)
      else Pending(rest, st, false, low, high)
  }

  // Pending reads only the flags of the open frames.
  lemma {:induction false} PendingFrame(fs: seq<Tree>, st: seq<Frame>, st': seq<Frame>, hit: bool, low: SimTime,
      high: SimTime)
    requires |fs| < |st| && |fs| < |st'| && forall t :: t in fs ==> t.Bin?
    requires forall i :: 1 <= i <= |fs| ==> st[i].tryRight == st'[i].tryRight
    ensures Pending(fs, st, hit, low, high) == Pending(fs, st', hit, low, high)
  {
    if fs != [] {
      PendingFrame(fs[..|fs| - 1], st, st', st[|fs|].tryRight || hit, low, high);
    }
  }

  // Flagging the innermost frame is the same as a hit from below.
  lemma PendingFlag(fs: seq<Tree>, st: seq<Frame>, st': seq<Frame>, hit: bool, low: SimTime, high: SimTime)
    requires |fs| < |st| == |st'| && forall t :: t in fs ==> t.Bin?
    requires forall i :: 1 <= i < |fs| ==> st[i].tryRight == st'[i].tryRight
    requires st'[|fs|].tryRight
    ensures Pending(fs, st', hit, low, high) == Pending(fs, st, true, low, high)
  {
    if fs != [] {
      PendingFrame(fs[..|fs| - 1], st, st', true, low, high);
    }
  }

  // What is still to be found from the subtree t and the open frames.
  function ToFind(t: Tree, fs: seq<Tree>, st: seq<Frame>, low: SimTime, high: SimTime): seq<Node>
    requires |fs| < |st| && forall t :: t in fs ==> t.Bin?
  {
    Found(t, low, high) + Pending(fs, st, Found(t, low, high) != [], low, high)
  }

  // The stack after visiting n: the innermost frame is flagged by a hit.
  function Flagged(st: seq<Frame>, i: nat, hit: bool): seq<Frame>
    requires i < |st|
  {
    if hit then st[i := st[i].(tryRight := true)] else st
  }

  lemma VisitLeft(t: Tree, fs: seq<Tree>, st: seq<Frame>, st': seq<Frame>, low: SimTime, high: SimTime)
    requires t.Bin? && |fs| < |st| && |fs| + 1 < |st'| && (forall t :: t in fs ==> t.Bin?) && low <= MaxHigh(t.l)
    requires !st'[|fs| + 1].tryRight
    requires forall i :: 1 <= i <= |fs| ==> st'[i].tryRight == Flagged(st, |fs|, Hits(t.n, low, high))[i].tryRight
    ensures ToFind(t, fs, st, low, high) ==
      (if Hits(t.n, low, high) then [t.n] else []) + ToFind(t.l, fs + [t], st', low, high)
  {
    var st1, rest := Flagged(st, |fs|, Hits(t.n, low, high)), Found(t.l, low, high) != [];
    assert (fs + [t])[..|fs|] == fs;
    PendingFrame(fs, st1, st', rest, low, high);
    if Hits(t.n, low, high) {
      PendingFlag(fs, st, st1, rest, low, high);
    }
  }

  lemma VisitRight(t: Tree, fs: seq<Tree>, st: seq<Frame>, low: SimTime, high: SimTime)
    requires t.Bin? && |fs| < |st| && (forall t :: t in fs ==> t.Bin?) && MaxHigh(t.l) < low
    ensures ToFind(t, fs, st, low, high) ==
      (if Hits(t.n, low, high) then [t.n] else []) + ToFind(t.r, fs, Flagged(st, |fs|, Hits(t.n, low, high)), low, high)
  {
    if Hits(t.n, low, high) {
      PendingFlag(fs, st, Flagged(st, |fs|, true), Found(t.r, low, high) != [], low, high);
    }
  }

  // Popping the innermost frame.
  lemma Pop(fs: seq<Tree>, st: seq<Frame>, low: SimTime, high: SimTime)
    requires fs != [] && |fs| < |st| && forall t :: t in fs ==> t.Bin?
    ensures var t, rest := fs[|fs| - 1], fs[..|fs| - 1];
      ToFind(Empty, fs, st, low, high) ==
      if st[|fs|].tryRight then ToFind(t.r, rest, Flagged(st, |fs| - 1, true), low, high)
        else ToFind(Empty, rest, st, low, high)
  {
    var t, rest := fs[|fs| - 1], fs[..|fs| - 1];
    PendingFlag(rest, st, Flagged(st, |fs| - 1, true), Found(t.r, low, high) != [], low, high);
  }

  // The nodes still to be looked at, at most.
  function Work(fs: seq<Tree>): nat
    requires forall t :: t in fs ==> t.Bin?
  {
    if fs == [] then 0 else Size(fs[|fs| - 1].r) + Work(fs[..|fs| - 1])
  }

  // ---- the state of a query

  ghost function Trees(fs: seq<Zip>): (ts: seq<Tree>)
    requires forall z :: z in fs ==> z.t.Bin?
    ensures |ts| == |fs| && forall t :: t in ts ==> t.Bin?
  {
    seq(|fs|, i requires 0 <= i < |fs| => fs[i].t)
  }

  // Frame i, for 0 < i < top, went left at the top of fs[i - 1].
  ghost predicate Frames(whole: Tree, st: seq<Frame>, top: nat, fs: seq<Zip>) {
    && top == |fs| + 1 <= |st|
    && (forall z :: z in fs ==> z.t.Bin? && Plug(z.c, z.t) == whole)
    && (forall i :: 1 <= i <= |fs| ==> st[i].start == fs[i - 1].t.n && st[i].parentIndex == i - 1)
  }

  // Every hit is in `found` or still to be found, in order, from the subtree
  // t and the open frames.
  ghost predicate Querying(whole: Tree, st: seq<Frame>, top: nat, low: SimTime, high: SimTime, found: seq<Node>,
      z: Zip, fs: seq<Zip>) {
    && Frames(whole, st, top, fs) && whole == Plug(z.c, z.t)
    && Found(whole, low, high) == found + ToFind(z.t, Trees(fs), st, low, high)
  }

  ghost function Left(z: Zip): Zip
    requires z.t.Bin?
  {
    Zip(Lft(z.c, z.t.n, z.t.red, z.t.r), z.t.l)
  }

  ghost function Right(z: Zip): Zip
    requires z.t.Bin?
  {
    Zip(Rgt(z.t.l, z.t.n, z.t.red, z.c), z.t.r)
  }

  lemma LeftStep(whole: Tree, st: seq<Frame>, st': seq<Frame>, top: nat, low: SimTime, high: SimTime, found: seq<Node>,
      z: Zip, fs: seq<Zip>)
    requires Querying(whole, st, top, low, high, found, z, fs) && z.t.Bin? && low <= MaxHigh(z.t.l)
    requires top < |st'| && st'[top] == Frame(z.t.n, top - 1, false)
    requires st'[..top] == Flagged(st, top - 1, Hits(z.t.n, low, high))[..top]
    ensures Querying(whole, st', top + 1, low, high, found + (if Hits(z.t.n, low, high) then [z.t.n] else []), Left(z),
      fs + [z])
    ensures Size(Left(z).t) + Work(Trees(fs + [z])) < Size(z.t) + Work(Trees(fs))
  {
    hide Found, ToFind, MaxHigh, Hits, Size, Work, Flagged;
    var fs', hit := fs + [z], if Hits(z.t.n, low, high) then [z.t.n] else [];
    TreesPushed(fs, z);
    FlaggedFrames(st, st', top, Hits(z.t.n, low, high));
    FramesPushed(whole, st, st', top, z, fs);
    VisitLeft(z.t, Trees(fs), st, st', low, high);
    WorkPushed(Trees(fs), z.t);
    Assoc(found, hit, ToFind(z.t.l, Trees(fs'), st', low, high));
  }

  lemma TreesPushed(fs: seq<Zip>, z: Zip)
    requires z.t.Bin? && forall z :: z in fs ==> z.t.Bin?
    ensures Trees(fs + [z]) == Trees(fs) + [z.t]
  {}

  lemma FlaggedFrames(st: seq<Frame>, st': seq<Frame>, top: nat, flag: bool)
    requires 1 <= top <= |st| && top <= |st'| && st'[..top] == Flagged(st, top - 1, flag)[..top]
    ensures forall i :: 0 <= i < top ==>
      st'[i] == Flagged(st, top - 1, flag)[i] && st'[i].start == st[i].start && st'[i].parentIndex == st[i].parentIndex
  {
    assert forall i :: 0 <= i < top ==> st'[i] == st'[..top][i];
  }

  lemma FramesPushed(whole: Tree, st: seq<Frame>, st': seq<Frame>, top: nat, z: Zip, fs: seq<Zip>)
    requires Frames(whole, st, top, fs) && whole == Plug(z.c, z.t) && z.t.Bin?
    requires top < |st'| && st'[top] == Frame(z.t.n, top - 1, false)
    requires forall i :: 1 <= i < top ==> st'[i].start == st[i].start && st'[i].parentIndex == st[i].parentIndex
    ensures Frames(whole, st', top + 1, fs + [z])
  {}

  lemma WorkPushed(ts: seq<Tree>, t: Tree)
    requires t.Bin? && forall t :: t in ts ==> t.Bin?
    ensures Work(ts + [t]) == Size(t.r) + Work(ts) && Size(t) == Size(t.l) + 1 + Size(t.r)
  {
    assert (ts + [t])[..|ts|] == ts;
  }

  lemma RightStep(whole: Tree, st: seq<Frame>, top: nat, low: SimTime, high: SimTime, found: seq<Node>, z: Zip,
      fs: seq<Zip>)
    requires Querying(whole, st, top, low, high, found, z, fs) && z.t.Bin? && MaxHigh(z.t.l) < low
    ensures Querying(whole, Flagged(st, top - 1, Hits(z.t.n, low, high)), top, low, high,
      found + (if Hits(z.t.n, low, high) then [z.t.n] else []), Right(z), fs)
  {
    var st', hit := Flagged(st, top - 1, Hits(z.t.n, low, high)), if Hits(z.t.n, low, high) then [z.t.n] else [];
    VisitRight(z.t, Trees(fs), st, low, high);
    Assoc(found, hit, ToFind(z.t.r, Trees(fs), st', low, high));
  }

  lemma PopStep(whole: Tree, st: seq<Frame>, top: nat, low: SimTime, high: SimTime, found: seq<Node>, z: Zip,
      fs: seq<Zip>)
    requires Querying(whole, st, top, low, high, found, z, fs) && z.t.Empty? && top > 1
    ensures var f, rest := fs[|fs| - 1], fs[..|fs| - 1];
      && (forall z :: z in rest ==> z.t.Bin?) && f in fs && st[top - 1].start == f.t.n
      && st[top - 1].parentIndex == top - 2
      && (if st[top - 1].tryRight
        then Querying(whole, Flagged(st, top - 2, true), top - 1, low, high, found, Right(f), rest)
          else Querying(whole, st, top - 1, low, high, found, z, rest))
      && Size(f.t.r) + Work(Trees(rest)) == Work(Trees(fs))
  {
    hide Found, ToFind, Hits, MaxHigh, Pending;
    var f, rest := fs[|fs| - 1], fs[..|fs| - 1];
    assert Trees(rest) == Trees(fs)[..|rest|];
    Pop(Trees(fs), st, low, high);
  }

  function Held(s: seq<Node>): (r: seq<Interval?>)
    ensures |r| == |s|
  {
    seq(|s|, i requires 0 <= i < |s| => s[i].interval)
  }

  lemma HeldConcat(a: seq<Node>, b: seq<Node>)
    ensures Held(a + b) == Held(a) + Held(b)
  {}

  // The node's interval has a point in common with [low, high].
  ghost predicate Meets(n: Node, low: SimTime, high: SimTime) {
    exists p: SimTime :: Within(p, low, high) && Within(p, n.key, n.high)
  }

  // The nodes that hold iv and meet [low, high].
  ghost function Holders(nodes: set<Node>, iv: Interval?, low: SimTime, high: SimTime): set<Node> {
    set n | n in nodes && n.interval == iv && Meets(n, low, high)
  }

  // Each interval is held by the hits as often as nodes that meet [low, high] hold it.
  lemma {:induction false} HeldByHolders(s: seq<Node>, nodes: set<Node>, iv: Interval?, low: SimTime, high: SimTime)
    requires NoRepeats(s) && (forall n :: n in s <==> n in nodes)
    requires low <= high && forall n :: n in s ==> n.key <= n.high
    ensures multiset(Held(Filter(s, low, high)))[iv] == |Holders(nodes, iv, low, high)|
  {
    if s == [] {
      assert Holders(nodes, iv, low, high) == {};
    } else {
      hide Hits, Meets;
      var n, rest := s[0], s[1..];
      var first := if Hits(n, low, high) then [n] else [];
      assert n !in rest && forall x :: x in s <==> x == n || x in rest;
      HeldByHolders(rest, nodes - {n}, iv, low, high);
      HeldConcat(first, Filter(rest, low, high));
      HitsMeet(n, low, high);
      HeldOne(first, n, iv);
      HoldersWith(nodes, n, iv, low, high);
    }
  }

  lemma HeldOne(first: seq<Node>, n: Node, iv: Interval?)
    requires first == [] || first == [n]
    ensures multiset(Held(first))[iv] == if first == [n] && n.interval == iv then 1 else 0
  {
    assert Held([n]) == [n.interval] && Held([]) == [];
  }

  lemma HoldersWith(nodes: set<Node>, n: Node, iv: Interval?, low: SimTime, high: SimTime)
    requires n in nodes
    ensures |Holders(nodes, iv, low, high)| ==
      |Holders(nodes - {n}, iv, low, high)| + if n.interval == iv && Meets(n, low, high) then 1 else 0
  {
    hide Meets;
    var a, b := Holders(nodes, iv, low, high), Holders(nodes - {n}, iv, low, high);
    assert a == if n.interval == iv && Meets(n, low, high) then b + {n} else b;
  }

  lemma HitsMeet(n: Node, low: SimTime, high: SimTime)
    requires low <= high && n.key <= n.high
    ensures Hits(n, low, high) <==> Meets(n, low, high)
  {
    OverlapIsIntersection(low, high, n.key, n.high);
  }

  lemma WithoutOne<T>(s: seq<T>, i: nat)
    requires i < |s|
    ensures s == s[..i] + [s[i]] + s[i + 1..]
    ensures multiset(s[..i] + s[i + 1..]) == multiset(s) - multiset{s[i]}
    ensures i == 0 ==> s[..i] + s[i + 1..] == s[1..]
  {
    assert s == s[..i] + [s[i]] + s[i + 1..];
  }

  // A rearrangement of nodes holds a rearrangement of their intervals.
  lemma {:induction false} HeldMultiset(a: seq<Node>, b: seq<Node>)
    requires multiset(a) == multiset(b)
    ensures multiset(Held(a)) == multiset(Held(b))
  {
    if a == [] {
      assert |multiset(b)| == 0;
    } else {
      assert a[0] in multiset(b);
      var i :| 0 <= i < |b| && b[i] == a[0];
      WithoutOne(a, 0);
      WithoutOne(b, i);
      HeldMultiset(a[1..], b[..i] + b[i + 1..]);
      HeldWithout(a, 0);
      HeldWithout(b, i);
    }
  }

  lemma HeldWithout(s: seq<Node>, i: nat)
    requires i < |s|
    ensures multiset(Held(s)) == multiset(Held(s[..i] + s[i + 1..])) + multiset{s[i].interval}
    ensures i == 0 ==> s[..i] + s[i + 1..] == s[1..]
  {
    var h := Held(s);
    WithoutOne(h, i);
    assert Held(s[..i] + s[i + 1..]) == h[..i] + h[i + 1..];
  }
}
