// Link arrays as weighted directed graphs, and the walks along their edges.

module Graphs {
  import opened Powers
  import opened Sequences

  datatype NodeId = Undefined | Addr(id: nat)

  // An edge out of the node it is listed under, to the node `last`.
  datatype Edge = Edge(last: NodeId, cost: real, concave: real)

  type Links = map<NodeId, seq<Edge>>

  // The greatest double: 53 bits set, with the greatest exponent.
  const DBL_MAX: real := ((Pow2(53) - 1) * Pow2(971)) as real

  function Min(a: real, b: real): real { if b < a then b else a }

  ghost predicate HasEdge(links: Links, u: NodeId, e: Edge) { u in links && e in links[u] }

  // A walk, given by its last step.
  datatype Walk = Here | Go(walk: Walk, from: NodeId, e: Edge)

  function End(root: NodeId, w: Walk): NodeId { if w.Here? then root else w.e.last }

  ghost predicate IsWalk(links: Links, root: NodeId, w: Walk) {
    w.Go? ==> IsWalk(links, root, w.walk) && End(root, w.walk) == w.from && HasEdge(links, w.from, w.e)
  }

  // Additive cost and bottleneck of a walk.
  function Cost(w: Walk): real { if w.Here? then 0.0 else Cost(w.walk) + w.e.cost }
  function Width(w: Walk): real { if w.Here? then DBL_MAX else Min(w.e.concave, Width(w.walk)) }

  // The nodes visited, the root first.
  function Stops(root: NodeId, w: Walk): (s: seq<NodeId>)
    ensures |s| > 0 && s[0] == root && s[|s| - 1] == End(root, w)
  {
    if w.Here? then [root] else Stops(root, w.walk) + [w.e.last]
  }

  ghost predicate Reaches(links: Links, root: NodeId, v: NodeId) {
    exists w :: IsWalk(links, root, w) && End(root, w) == v
  }

  // All nodes a walk from root can visit are among these.
  function Universe(links: Links, root: NodeId): set<NodeId> {
    {root} + set u, e | u in links && e in links[u] :: e.last
  }

  // ---- reachability, cutting an edge, bridges

  ghost predicate Linked(links: Links, u: NodeId, v: NodeId) {
    exists e :: HasEdge(links, u, e) && e.last == v
  }

  lemma {:induction false} ReachesTransitively(links: Links, a: NodeId, b: NodeId, c: NodeId, w: Walk)
    requires Reaches(links, a, b) && IsWalk(links, b, w) && End(b, w) == c
    ensures Reaches(links, a, c)
    decreases w
  {
    if w.Go? {
      ReachesTransitively(links, a, b, w.from, w.walk);
      var u :| IsWalk(links, a, u) && End(a, u) == w.from;
      assert IsWalk(links, a, Go(u, w.from, w.e));
    }
  }

  lemma ReachesNext(links: Links, a: NodeId, b: NodeId, c: NodeId)
    requires Reaches(links, a, b) && Linked(links, b, c)
    ensures Reaches(links, a, c)
  {
    var e :| HasEdge(links, b, e) && e.last == c;
    assert IsWalk(links, b, Go(Here, b, e)) by {
      assert IsWalk(links, b, Here);
    }
    ReachesTransitively(links, a, b, c, Go(Here, b, e));
  }

  ghost predicate Symmetric(links: Links) {
    forall u, v :: Linked(links, u, v) ==> Linked(links, v, u)
  }

  lemma {:induction false} ReachesBack(links: Links, a: NodeId, w: Walk)
    requires Symmetric(links) && IsWalk(links, a, w)
    ensures Reaches(links, End(a, w), a)
  {
    var b := End(a, w);
    assert IsWalk(links, b, Here) && End(b, Here) == b;
    if w.Go? {
      ReachesBack(links, a, w.walk);
      assert Linked(links, w.from, b);
      ReachesNext(links, b, b, w.from);
      var u :| IsWalk(links, w.from, u) && End(w.from, u) == a;
      ReachesTransitively(links, b, w.from, a, u);
    }
  }

  // The graph without the edges from u to v.
  function Cut(links: Links, u: NodeId, v: NodeId): Links {
    if u in links then links[u := Others(links[u], v)] else links
  }

  function Others(es: seq<Edge>, v: NodeId): (r: seq<Edge>)
    ensures forall e :: e in r <==> e in es && e.last != v
  {
    if es == [] then [] else (if es[0].last == v then [] else [es[0]]) + Others(es[1..], v)
  }

  lemma CutEdges(links: Links, u: NodeId, v: NodeId)
    ensures forall x, e :: HasEdge(Cut(links, u, v), x, e) <==> HasEdge(links, x, e) && !(x == u && e.last == v)
  {}

  // An edge whose removal, in both directions, separates its ends.
  ghost predicate Bridge(links: Links, u: NodeId, v: NodeId) {
    Linked(links, u, v) && !Reaches(Cut(Cut(links, u, v), v, u), u, v)
  }

  // Going back over the cut edge does not help: cutting one direction is enough.
  lemma {:induction false} OneDirection(links: Links, u: NodeId, v: NodeId, w: Walk)
    requires IsWalk(Cut(links, u, v), u, w)
    ensures var both := Cut(Cut(links, u, v), v, u); Reaches(both, u, End(u, w)) || Reaches(both, u, v)
  {
    var one := Cut(links, u, v);
    var both := Cut(one, v, u);
    if w.Here? {
      assert IsWalk(both, u, w);
    } else {
      OneDirection(links, u, v, w.walk);
      CutEdges(one, v, u);
      if Reaches(both, u, w.from) && !(w.from == v && w.e.last == u) {
        assert HasEdge(both, w.from, w.e);
        assert Linked(both, w.from, w.e.last);
        ReachesNext(both, u, w.from, w.e.last);
      }
    }
  }

  // A walk in a graph is a walk in any graph with at least its edges.
  lemma {:induction false} WalkInLarger(a: Links, b: Links, root: NodeId, w: Walk)
    requires IsWalk(a, root, w) && forall x, e :: HasEdge(a, x, e) ==> HasEdge(b, x, e)
    ensures IsWalk(b, root, w)
  {
    if w.Go? {
      WalkInLarger(a, b, root, w.walk);
    }
  }

  lemma BridgeByOneCut(links: Links, u: NodeId, v: NodeId)
    ensures Reaches(Cut(links, u, v), u, v) <==> Reaches(Cut(Cut(links, u, v), v, u), u, v)
  {
    var one := Cut(links, u, v);
    var both := Cut(one, v, u);
    CutEdges(one, v, u);
    if Reaches(one, u, v) {
      var w :| IsWalk(one, u, w) && End(u, w) == v;
      OneDirection(links, u, v, w);
    }
    if Reaches(both, u, v) {
      var w :| IsWalk(both, u, w) && End(u, w) == v;
      WalkInLarger(both, one, u, w);
    }
  }

  // Being a bridge does not depend on the direction.
  lemma BridgeBothWays(links: Links, u: NodeId, v: NodeId)
    requires Symmetric(links) && Bridge(links, u, v)
    ensures Bridge(links, v, u)
  {
    var a, b := Cut(Cut(links, u, v), v, u), Cut(Cut(links, v, u), u, v);
    CutEdges(links, u, v);
    CutEdges(Cut(links, u, v), v, u);
    CutEdges(links, v, u);
    CutEdges(Cut(links, v, u), u, v);
    CutSymmetric(links, u, v);
    if Reaches(b, v, u) {
      var w :| IsWalk(b, v, w) && End(v, w) == u;
      WalkInLarger(b, a, v, w);
      ReachesBack(a, v, w);
    }
  }

  lemma CutSymmetric(links: Links, u: NodeId, v: NodeId)
    requires Symmetric(links)
    ensures Symmetric(Cut(Cut(links, u, v), v, u))
  {
    var a := Cut(Cut(links, u, v), v, u);
    CutEdges(links, u, v);
    CutEdges(Cut(links, u, v), v, u);
    forall x, y | Linked(a, x, y) ensures Linked(a, y, x) {
      assert Linked(links, x, y) && Linked(links, y, x);
      var e :| HasEdge(links, y, e) && e.last == x;
      var f :| HasEdge(a, x, f) && f.last == y;
      assert HasEdge(a, y, e);
    }
  }

  // ---- editing edge lists

  // The position of the first edge to v, or the length.
  function FirstTo(es: seq<Edge>, v: NodeId): (i: nat)
    ensures i <= |es| && (i < |es| ==> es[i].last == v)
    ensures forall j :: 0 <= j < i ==> es[j].last != v
  {
    if es == [] || es[0].last == v then 0 else 1 + FirstTo(es[1..], v)
  }

  ghost predicate NoParallel(es: seq<Edge>) {
    forall i, j :: 0 <= i < j < |es| ==> es[i].last != es[j].last
  }

  // No self-loops, no parallel edges, and every edge has its reverse.
  ghost predicate Simple(links: Links) {
    Symmetric(links) && forall u :: u in links ==> NoParallel(links[u]) && forall e :: e in links[u] ==> e.last != u
  }

  // The same edges, possibly listed in another order.
  ghost predicate SameEdges(a: Links, b: Links) {
    a.Keys == b.Keys && forall u :: u in a ==> multiset(a[u]) == multiset(b[u])
  }

  lemma SameHasEdge(a: Links, b: Links)
    requires SameEdges(a, b)
    ensures forall u, e :: HasEdge(a, u, e) <==> HasEdge(b, u, e)
  {
    forall u, e ensures HasEdge(a, u, e) <==> HasEdge(b, u, e) {
      if u in a {
        assert e in a[u] <==> e in multiset(a[u]);
        assert e in b[u] <==> e in multiset(b[u]);
      }
    }
  }

  lemma SameReaches(a: Links, b: Links, u: NodeId, v: NodeId)
    requires forall x, e :: HasEdge(a, x, e) <==> HasEdge(b, x, e)
    ensures Reaches(a, u, v) <==> Reaches(b, u, v)
  {
    if Reaches(a, u, v) {
      var w :| IsWalk(a, u, w) && End(u, w) == v;
      WalkInLarger(a, b, u, w);
    }
    if Reaches(b, u, v) {
      var w :| IsWalk(b, u, w) && End(u, w) == v;
      WalkInLarger(b, a, u, w);
    }
  }

  // Taking the one edge to v out of u's list cuts u from v.
  lemma RemovedIsCut(links: Links, aux: Links, u: NodeId, i: nat)
    requires Simple(links) && SameEdges(links, aux) && u in links && i < |aux[u]|
    ensures var es := aux[u];
      forall x, e :: HasEdge(aux[u := es[..i] + es[i + 1..]], x, e) <==> HasEdge(Cut(links, u, es[i].last), x, e)
  {
    var es, fs := aux[u], links[u];
    SameHasEdge(links, aux);
    CutEdges(links, u, es[i].last);
    NoParallelPermuted(fs, es);
    OnlyEdgeTo(es, i);
  }

  lemma OnlyEdgeTo(es: seq<Edge>, i: nat)
    requires NoParallel(es) && i < |es|
    ensures forall e :: e in es[..i] + es[i + 1..] <==> e in es && e.last != es[i].last
  {
    var rest := es[..i] + es[i + 1..];
    forall e | e in rest ensures e in es && e.last != es[i].last {
      var j :| 0 <= j < |rest| && rest[j] == e;
      assert e == es[if j < i then j else j + 1];
    }
    forall e | e in es && e.last != es[i].last ensures e in rest {
      var j :| 0 <= j < |es| && es[j] == e;
      assert e == rest[if j < i then j else j - 1];
    }
  }

  lemma NoParallelPermuted(es: seq<Edge>, fs: seq<Edge>)
    requires NoParallel(es) && multiset(es) == multiset(fs)
    ensures NoParallel(fs)
  {
    StillNoRepeats(es, fs);
    forall i, j | 0 <= i < j < |fs| ensures fs[i].last != fs[j].last {
      assert fs[i] in multiset(es) && fs[j] in multiset(es);
      var a, b :| 0 <= a < |es| && es[a] == fs[i] && 0 <= b < |es| && es[b] == fs[j];
    }
  }

  // Every node reachable in a part of a symmetric graph has an edge list.
  lemma ReachedHasList(links: Links, root: NodeId, v: NodeId)
    requires Symmetric(links) && root in links && Reaches(links, root, v)
    ensures v in links
  {
    var w :| IsWalk(links, root, w) && End(root, w) == v;
    if w.Go? {
      assert Linked(links, w.from, v);
      assert Linked(links, v, w.from);
    }
  }

  // ---- routes written backwards

  function Reversed(s: seq<NodeId>): (r: seq<NodeId>)
    ensures |r| == |s|
  {
    if s == [] then [] else Reversed(s[1..]) + [s[0]]
  }

  lemma {:induction false} ReversedSnoc(s: seq<NodeId>, x: NodeId)
    ensures Reversed(s + [x]) == [x] + Reversed(s)
  {
    if s != [] {
      assert (s + [x])[1..] == s[1..] + [x];
      ReversedSnoc(s[1..], x);
    }
  }

  lemma LastSplit(s: seq<NodeId>)
    requires s != []
    ensures s == s[..|s| - 1] + [s[|s| - 1]]
  {}

  // The copying loop of getRoute.
  method Backwards(nodes: seq<NodeId>) returns (r: seq<NodeId>)
    ensures r == Reversed(nodes)
  {
    r := [];
    var path := nodes;
    while path != []
      invariant Reversed(nodes) == r + Reversed(path)
      decreases |path|
    {
      LastSplit(path);
      ReversedSnoc(path[..|path| - 1], path[|path| - 1]);
      Assoc(r, [path[|path| - 1]], Reversed(path[..|path| - 1]));
      r := r + [path[|path| - 1]];
      path := path[..|path| - 1];
    }
  }
}
