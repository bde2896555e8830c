// Topology: shortest paths to a target node.

module Topologies {
  import opened Sequences

  // Distances and weights, with infinity.
  datatype Ext = Fin(v: real) | Inf

  function Plus(a: Ext, b: Ext): Ext { if a.Fin? && b.Fin? then Fin(a.v + b.v) else Inf }
  predicate Greater(a: Ext, b: Ext) { b.Fin? && (a.Fin? ==> a.v > b.v) }

  class Link {
    const srcNode: Node
    const destNode: Node
    var weight: Ext
    var enabled: bool

    constructor (srcNode: Node, destNode: Node, weight: Ext)
      ensures this.srcNode == srcNode && this.destNode == destNode && this.weight == weight && enabled
    {
      this.srcNode, this.destNode, this.weight, enabled := srcNode, destNode, weight, true;
    }
  }

  class Node {
    var weight: Ext
    var enabled: bool
    var inLinks: seq<Link>
    var dist: Ext
    var outPaths: seq<Link>

    constructor ()
      ensures weight == Fin(0.0) && enabled && inLinks == [] && dist == Inf && outPaths == []
    {
      weight, enabled, inLinks, dist, outPaths := Fin(0.0), true, [], Inf, [];
    }
  }

  // What the algorithms read: the links into each node, the weights, and which
  // nodes and links are enabled.
  datatype Net = Net(target: Node, ins: map<Node, seq<Link>>, weights: map<Node, Ext>, active: set<Node>,
    costs: map<Link, Ext>, open: set<Link>)

  ghost predicate WellFormed(net: Net) {
    && net.target in net.ins
    && (forall u, l :: u in net.ins && l in net.ins[u] ==> l.destNode == u && l.srcNode in net.ins && Costly(net, l))
    && (forall u :: u in net.ins ==> !Greater(Fin(0.0), At(net.weights, u)))
  }

  ghost predicate Costly(net: Net, l: Link) { Greater(At(net.costs, l), Fin(0.0)) }

  function At<K>(m: map<K, Ext>, k: K): Ext { if k in m then m[k] else Inf }

  ghost predicate Into(ins: map<Node, seq<Link>>, u: Node, l: Link) { u in ins && l in ins[u] }

  ghost predicate Usable(net: Net, l: Link) { l in net.open && l.srcNode in net.active }

  // The cost of going through link l to its end u, which is at distance d.
  function Beyond(net: Net, d: Ext, u: Node, l: Link): Ext {
    var nd := Plus(d, At(net.costs, l));
    if u != net.target then Plus(nd, At(net.weights, u)) else nd
  }

  // A way to the target, from its first link.
  datatype Way = Arrived | Leave(link: Link, rest: Way)

  function Origin(net: Net, w: Way): Node { if w.Arrived? then net.target else w.link.srcNode }

  function Cost(net: Net, w: Way): Ext {
    if w.Arrived? then Fin(0.0) else Beyond(net, Cost(net, w.rest), Origin(net, w.rest), w.link)
  }

  ghost predicate IsWay(net: Net, older w: Way) {
    w.Leave? ==> IsWay(net, w.rest) && Into(net.ins, Origin(net, w.rest), w.link) && Usable(net, w.link)
  }

  // ---- ways, told by their links

  function LinksOf(w: Way): seq<Link> { if w.Arrived? then [] else [w.link] + LinksOf(w.rest) }

  // Each link can be used and ends where the next one begins, or at the target.
  ghost predicate Chain(net: Net, ls: seq<Link>) {
    && (forall l :: l in ls ==> l in net.open && l.srcNode in net.active && Into(net.ins, l.destNode, l))
    && (forall i :: 0 <= i < |ls| - 1 ==> ls[i].destNode == ls[i + 1].srcNode)
    && (ls != [] ==> ls[|ls| - 1].destNode == net.target)
  }

  lemma {:induction false} WayIs(net: Net, w: Way)
    requires WellFormed(net)
    ensures IsWay(net, w) <==> Chain(net, LinksOf(w))
    ensures LinksOf(w) != [] ==> Origin(net, w) == LinksOf(w)[0].srcNode
  {
    if w.Leave? {
      WayIs(net, w.rest);
      var ls, rest := LinksOf(w), LinksOf(w.rest);
      assert forall l :: l in ls <==> l == w.link || l in rest;
      ChainOn(net, w.link, rest);
    }
  }

  lemma ChainOn(net: Net, l: Link, rest: seq<Link>)
    ensures Chain(net, [l] + rest) <==>
      && Chain(net, rest) && l in net.open && l.srcNode in net.active && Into(net.ins, l.destNode, l)
      && l.destNode == if rest == [] then net.target else rest[0].srcNode
  {
    var ls := [l] + rest;
    assert forall x :: x in ls <==> x == l || x in rest;
    assert forall i :: 0 <= i < |rest| ==> ls[i + 1] == rest[i];
    if Chain(net, ls) {
      assert rest != [] ==> ls[0].destNode == ls[1].srcNode;
      forall i | 0 <= i < |rest| - 1 ensures rest[i].destNode == rest[i + 1].srcNode {
        assert ls[i + 1].destNode == ls[i + 1 + 1].srcNode;
      }
    }
  }

  function Sum(xs: seq<Ext>): Ext { if xs == [] then Fin(0.0) else Plus(xs[0], Sum(xs[1..])) }

  function LinkCosts(net: Net, ls: seq<Link>): seq<Ext> {
    seq(|ls|, i requires 0 <= i < |ls| => At(net.costs, ls[i]))
  }

  // The weights of the nodes the links lead to, but for the target.
  function NodeCosts(net: Net, ls: seq<Link>): seq<Ext> {
    if ls == [] then []
    else (if ls[0].destNode == net.target then [] else [At(net.weights, ls[0].destNode)]) + NodeCosts(net, ls[1..])
  }

  lemma SumsOn(net: Net, l: Link, rest: seq<Link>)
    ensures Sum(LinkCosts(net, [l] + rest)) == Plus(At(net.costs, l), Sum(LinkCosts(net, rest)))
    ensures Sum(NodeCosts(net, [l] + rest)) ==
      if l.destNode == net.target then Sum(NodeCosts(net, rest))
      else Plus(At(net.weights, l.destNode), Sum(NodeCosts(net, rest)))
  {
    hide At, Plus;
    assert ([l] + rest)[1..] == rest && LinkCosts(net, [l] + rest)[1..] == LinkCosts(net, rest);
    if l.destNode == net.target {
      assert NodeCosts(net, [l] + rest) == [] + NodeCosts(net, rest) == NodeCosts(net, rest);
    } else {
      assert NodeCosts(net, [l] + rest)[1..] == NodeCosts(net, rest);
    }
  }

  lemma Regrouped(a: Ext, b: Ext, c: Ext, d: Ext)
    ensures Plus(Plus(a, b), c) == Plus(Plus(c, a), b)
    ensures Plus(Plus(Plus(a, b), c), d) == Plus(Plus(c, a), Plus(d, b))
  {}

  // A way costs what its links and the nodes it passes cost together.
  lemma {:induction false} CostIs(net: Net, w: Way)
    requires WellFormed(net) && IsWay(net, w)
    ensures Cost(net, w) == Plus(Sum(LinkCosts(net, LinksOf(w))), Sum(NodeCosts(net, LinksOf(w))))
  {
    if w.Leave? {
      CostIs(net, w.rest);
      InFacts(net, Origin(net, w.rest), w.link);
      hide At, Plus, Sum, LinkCosts, NodeCosts, WellFormed;
      var rest := LinksOf(w.rest);
      SumsOn(net, w.link, rest);
      Regrouped(Sum(LinkCosts(net, rest)), Sum(NodeCosts(net, rest)), At(net.costs, w.link),
        At(net.weights, w.link.destNode));
    }
  }

  // ---- the search

  type Dists = map<Node, Ext>
  type Outs = map<Node, seq<Link>>
  type Ways = map<Node, Way>

  // Distinct nodes, in order of distance.
  ghost predicate Sorted(dist: Dists, q: seq<Node>) {
    && (forall i :: 0 <= i < |q| ==> q[i] in dist)
    && (forall i, j :: 0 <= i < j < |q| ==> q[i] != q[j] && !Greater(dist[q[i]], dist[q[j]]))
  }

  // The list is in order of distance, after the nodes already expanded, and
  // holds every other node with a distance.
  ghost predicate InOrder(dist: Dists, q: seq<Node>, done: set<Node>) {
    && (forall u :: u in done ==> u in dist && dist[u].Fin?)
    && Sorted(dist, q)
    && (forall v :: v in q ==> v in dist && v !in done && dist[v].Fin?)
    && (forall u, v :: u in done && v in q ==> !Greater(dist[u], dist[v]))
    && (forall v :: v in dist && dist[v].Fin? ==> v in done || v in q)
  }

  ghost predicate Nearest(dist: Dists, done: set<Node>, u: Node) {
    u in dist && forall w :: w in done ==> w in dist && !Greater(dist[w], dist[u])
  }

  // The links in `rel` into expanded nodes are taken into account.
  ghost predicate Relaxed(net: Net, rel: map<Node, seq<Link>>, dist: Dists, outs: Outs, done: set<Node>) {
    forall u, l :: u in done && u in rel && l in rel[u] && Usable(net, l) ==> Counted(net, dist, outs, u, l)
  }

  ghost predicate Counted(net: Net, dist: Dists, outs: Outs, u: Node, l: Link) {
    !Greater(At(dist, l.srcNode), Beyond(net, At(dist, u), u, l)) && l.srcNode in outs && l in outs[l.srcNode]
  }

  // The links in outPaths lead to expanded nodes, each listed once.
  ghost predicate Outward(net: Net, outs: Outs, done: set<Node>) {
    && (forall v, l :: v in outs && l in outs[v] ==>
      Usable(net, l) && l.srcNode == v && l.destNode in done && Into(net.ins, l.destNode, l))
    && (forall v :: v in outs ==> NoRepeats(outs[v]))
  }

  // The first link of each node with a distance is the one its distance came from.
  ghost predicate Led(net: Net, dist: Dists, outs: Outs, ways: Ways, done: set<Node>) {
    && net.target in dist && net.target in ways && dist[net.target] == Fin(0.0) && ways[net.target] == Arrived
    && (forall v :: v in dist && dist[v].Fin? ==>
      v in ways && IsWay(net, ways[v]) && Origin(net, ways[v]) == v && Cost(net, ways[v]) == dist[v])
    && (forall v :: v in dist && dist[v].Fin? && v != net.target ==>
        && v in outs && outs[v] != [] && outs[v][0].destNode in done && outs[v][0].destNode in ways
        && ways[v] == Leave(outs[v][0], ways[outs[v][0].destNode]))
  }

  ghost predicate Searching(net: Net, rel: map<Node, seq<Link>>, dist: Dists, outs: Outs, ways: Ways, q: seq<Node>,
      done: set<Node>) {
    && WellFormed(net) && (done == {} || net.target in done) && dist.Keys == net.ins.Keys && outs.Keys == net.ins.Keys
    && InOrder(dist, q, done) && Relaxed(net, rel, dist, outs, done) && Outward(net, outs, done)
    && Led(net, dist, outs, ways, done)
  }

  function FirstLinks(net: Net, u: Node, n: nat): map<Node, seq<Link>> {
    if u in net.ins && n <= |net.ins[u]| then net.ins[u := net.ins[u][..n]] else net.ins
  }

  // q without src
  function Dropped(q: seq<Node>, src: Node): (r: seq<Node>) {
    if q == [] then [] else (if q[0] == src then [] else [q[0]]) + Dropped(q[1..], src)
  }

  // outPaths without l, then l first.
  function Preferred(outs: seq<Link>, l: Link): (r: seq<Link>) { [l] + Others(outs, l) }

  function Others(outs: seq<Link>, l: Link): (r: seq<Link>)
    ensures forall x :: x in r ==> x in outs && x != l
    ensures forall x :: x in outs && x != l ==> x in r
  {
    if outs == [] then [] else (if outs[0] == l then [] else [outs[0]]) + Others(outs[1..], l)
  }

  lemma DroppedStep(q: seq<Node>, i: nat, src: Node)
    requires i < |q|
    ensures Dropped(q[i..], src) == if q[i] == src then Dropped(q[i + 1..], src) else [q[i]] + Dropped(q[i + 1..], src)
  {
    assert q[i..][0] == q[i] && q[i..][1..] == q[i + 1..];
  }

  lemma OthersStep(outs: seq<Link>, i: nat, l: Link)
    requires i < |outs|
    ensures Others(outs[i..], l) == if outs[i] == l then Others(outs[i + 1..], l)
      else [outs[i]] + Others(outs[i + 1..], l)
  {
    assert outs[i..][0] == outs[i] && outs[i..][1..] == outs[i + 1..];
  }

  lemma {:induction false} OthersDistinct(outs: seq<Link>, l: Link)
    requires NoRepeats(outs)
    ensures NoRepeats(Others(outs, l)) && NoRepeats(Preferred(outs, l))
  {
    if outs != [] {
      OthersDistinct(outs[1..], l);
      DistinctWithFirst(Others(outs[1..], l), outs[0]);
    }
    DistinctWithFirst(Others(outs, l), l);
  }

  lemma DistinctWithFirst(outs: seq<Link>, l: Link)
    requires NoRepeats(outs)
    ensures l !in outs ==> NoRepeats([l] + outs)
  {}

  lemma {:induction false} DroppedSorted(dist: Dists, q: seq<Node>, src: Node)
    requires Sorted(dist, q)
    ensures Sorted(dist, Dropped(q, src)) && forall v :: v in Dropped(q, src) <==> v in q && v != src
  {
    if q != [] {
      hide Sorted;
      TailSorted(dist, q);
      DroppedSorted(dist, q[1..], src);
      FrontSorted(dist, q[0], Dropped(q[1..], src));
    }
  }

  lemma TailSorted(dist: Dists, q: seq<Node>)
    requires Sorted(dist, q) && q != []
    ensures Sorted(dist, q[1..]) && q[0] in dist
    ensures forall v :: v in q[1..] ==> v in dist && v != q[0] && !Greater(dist[q[0]], dist[v])
  {}

  lemma FrontSorted(dist: Dists, u: Node, r: seq<Node>)
    requires Sorted(dist, r) && u in dist && forall v :: v in r ==> v in dist && v != u && !Greater(dist[u], dist[v])
    ensures Sorted(dist, [u] + r)
  {
    assert forall i :: 0 <= i < |r| ==> r[i] in r;
  }

  lemma {:induction false} NotDropped(q: seq<Node>, src: Node)
    requires src !in q
    ensures Dropped(q, src) == q
  {
    if q != [] {
      NotDropped(q[1..], src);
    }
  }

  lemma NotQueued(dist: Dists, q: seq<Node>, done: set<Node>, src: Node)
    requires InOrder(dist, q, done) && At(dist, src) == Inf
    ensures Dropped(q, src) == q
  {
    NotDropped(q, src);
  }

  lemma {:induction false} DroppedMembers(q: seq<Node>, src: Node)
    ensures forall v :: v in Dropped(q, src) ==> v in q && v != src
  {
    if q != [] {
      DroppedMembers(q[1..], src);
    }
  }

  lemma InsertedSorted(dist: Dists, q: seq<Node>, src: Node, k: nat)
    requires Sorted(dist, q) && src in dist && src !in q && k <= |q|
    requires (forall i :: 0 <= i < k ==> !Greater(dist[q[i]], dist[src]))
      && (k < |q| ==> Greater(dist[q[k]], dist[src]))
    ensures Sorted(dist, q[..k] + [src] + q[k..])
    ensures forall v :: v in q[..k] + [src] + q[k..] <==> v == src || v in q
  {
    var q' := q[..k] + [src] + q[k..];
    forall i, j | 0 <= i < j < |q'| ensures q'[i] != q'[j] && !Greater(dist[q'[i]], dist[q'[j]]) {
      if j > k {
        assert q'[j] == q[j - 1];
      }
      if i > k {
        assert q'[i] == q[i - 1];
      }
    }
    assert q == q[..k] + q[k..];
  }

  lemma BeyondIsFarther(net: Net, d: Ext, u: Node, l: Link)
    requires WellFormed(net) && Into(net.ins, u, l) && Beyond(net, d, u, l).Fin?
    ensures d.Fin? && Greater(Beyond(net, d, u, l), d)
  {
    InFacts(net, u, l);
    var c, w := At(net.costs, l), At(net.weights, u);
    assert c.Fin? && c.v > 0.0 && (w.Fin? ==> w.v >= 0.0);
  }

  lemma InFacts(net: Net, u: Node, l: Link)
    requires WellFormed(net) && u in net.ins && l in net.ins[u]
    ensures Into(net.ins, u, l) && l.destNode == u && l.srcNode in net.ins
    ensures Costly(net, l) && !Greater(Fin(0.0), At(net.weights, u))
  {}

  lemma ImprovedOrder(dist: Dists, q: seq<Node>, done: set<Node>, u: Node, src: Node, nd: Ext, k: nat)
    requires InOrder(dist, q, done) && u in done && Nearest(dist, done, u)
    requires nd.Fin? && Greater(nd, dist[u]) && src in dist && Greater(dist[src], nd)
    requires var r := Dropped(q, src);
      k <= |r| && (forall i :: 0 <= i < k ==> !Greater(At(dist, r[i]), nd)) && (k < |r| ==> Greater(At(dist, r[k]), nd))
    ensures var r := Dropped(q, src);
      InOrder(dist[src := nd], r[..k] + [src] + r[k..], done) && src !in done
  {
    hide Sorted, Dropped;
    DroppedSorted(dist, q, src);
    var r, dist' := Dropped(q, src), dist[src := nd];
    assert forall i :: 0 <= i < |r| ==> r[i] in r;
    SortedKept(dist, r, src, nd);
    InsertedSorted(dist', r, src, k);
  }

  lemma SortedKept(dist: Dists, r: seq<Node>, src: Node, nd: Ext)
    requires Sorted(dist, r) && src !in r
    ensures Sorted(dist[src := nd], r)
  {
    assert forall i :: 0 <= i < |r| ==> r[i] in r;
  }

  lemma DoneFinite(dist: Dists, q: seq<Node>, done: set<Node>)
    requires InOrder(dist, q, done)
    ensures forall w :: w in done ==> w in dist && dist[w].Fin?
  {}

  // The link l into the expanded node u shortens the way from its source.
  lemma Improve(net: Net, dist: Dists, outs: Outs, ways: Ways, q: seq<Node>, done: set<Node>, u: Node, n: nat, k: nat)
    requires u in net.ins && n < |net.ins[u]| && Searching(net, FirstLinks(net, u, n), dist, outs, ways, q, done)
      && u in done
    requires Nearest(dist, done, u)
    requires var l := net.ins[u][n];
      var nd := Beyond(net, dist[u], u, l);
      var r := Dropped(q, l.srcNode);
      && Usable(net, l) && nd.Fin? && Greater(At(dist, l.srcNode), nd)
      && k <= |r| && (forall i :: 0 <= i < k ==> !Greater(At(dist, r[i]), nd))
      && (k < |r| ==> Greater(At(dist, r[k]), nd))
    ensures var l := net.ins[u][n];
      var nd := Beyond(net, dist[u], u, l);
      var r, src := Dropped(q, l.srcNode), l.srcNode;
      && src in outs && u in ways && Nearest(dist[src := nd], done, u)
      && Searching(net, FirstLinks(net, u, n + 1), dist[src := nd], outs[src := Preferred(outs[src], l)],
        ways[src := Leave(l, ways[u])], r[..k] + [src] + r[k..], done)
  {
    var l := net.ins[u][n];
    var nd := Beyond(net, dist[u], u, l);
    var src := l.srcNode;
    hide *;
    Parts(net, FirstLinks(net, u, n), dist, outs, ways, q, done);
    InFacts(net, u, l);
    DoneFinite(dist, q, done);
    BeyondIsFarther(net, dist[u], u, l);
    ImprovedOrder(dist, q, done, u, src, nd, k);
    ImprovedOutward(net, outs, done, u, l);
    ImprovedRelaxed(net, dist, outs, done, u, n);
    NearestKept(dist, done, u, src, nd);
    ImprovedLed(net, dist, outs, ways, done, u, l);
    var r := Dropped(q, src);
    Whole(net, FirstLinks(net, u, n + 1), dist[src := nd], outs[src := Preferred(outs[src], l)],
      ways[src := Leave(l, ways[u])], r[..k] + [src] + r[k..], done);
  }

  lemma ImprovedTo(net: Net, dist: Dists, outs: Outs, ways: Ways, q: seq<Node>, done: set<Node>, u: Node, n: nat,
      k: nat, l: Link, nd: Ext, dist': Dists, outs': Outs, ways': Ways, q': seq<Node>)
    requires u in net.ins && n < |net.ins[u]| && Searching(net, FirstLinks(net, u, n), dist, outs, ways, q, done)
      && u in done
    requires Nearest(dist, done, u) && l == net.ins[u][n] && Usable(net, l)
    requires u in dist && l.srcNode in dist && l.srcNode in outs && u in ways
    requires nd.Fin? && nd == Beyond(net, dist[u], u, l) && Greater(At(dist, l.srcNode), nd)
    requires dist' == dist[l.srcNode := nd] && outs' == outs[l.srcNode := Preferred(outs[l.srcNode], l)]
      && ways' == ways[l.srcNode := Leave(l, ways[u])]
    requires Placed(dist, Dropped(q, l.srcNode), l.srcNode, nd, k, q')
    ensures Searching(net, FirstLinks(net, u, n + 1), dist', outs', ways', q', done) && Nearest(dist', done, u)
  {
    hide Searching, FirstLinks, Nearest, Usable, Beyond, Preferred, Dropped, Greater, At;
    Improve(net, dist, outs, ways, q, done, u, n, k);
  }

  // src at its place in the list: behind the nodes that are not farther away.
  ghost predicate Placed(dist: Dists, r: seq<Node>, src: Node, nd: Ext, k: nat, q': seq<Node>) {
    && k <= |r| && q' == r[..k] + [src] + r[k..]
    && (forall i :: 0 <= i < k ==> !Greater(At(dist, r[i]), nd)) && (k < |r| ==> Greater(At(dist, r[k]), nd))
  }

  lemma Parts(net: Net, rel: map<Node, seq<Link>>, dist: Dists, outs: Outs, ways: Ways, q: seq<Node>, done: set<Node>)
    requires Searching(net, rel, dist, outs, ways, q, done)
    ensures WellFormed(net) && (done == {} || net.target in done) && dist.Keys == net.ins.Keys
      && outs.Keys == net.ins.Keys
    ensures InOrder(dist, q, done) && Relaxed(net, rel, dist, outs, done) && Outward(net, outs, done)
      && Led(net, dist, outs, ways, done)
  {
    hide WellFormed, InOrder, Relaxed, Outward, Led;
  }

  lemma Whole(net: Net, rel: map<Node, seq<Link>>, dist: Dists, outs: Outs, ways: Ways, q: seq<Node>, done: set<Node>)
    requires WellFormed(net) && (done == {} || net.target in done) && dist.Keys == net.ins.Keys
      && outs.Keys == net.ins.Keys
    requires InOrder(dist, q, done) && Relaxed(net, rel, dist, outs, done) && Outward(net, outs, done)
      && Led(net, dist, outs, ways, done)
    ensures Searching(net, rel, dist, outs, ways, q, done)
  {
    hide WellFormed, InOrder, Relaxed, Outward, Led;
  }

  lemma NearestKept(dist: Dists, done: set<Node>, u: Node, src: Node, nd: Ext)
    requires Nearest(dist, done, u) && u in done && src !in done
    ensures Nearest(dist[src := nd], done, u)
  {}

  lemma NextLink(net: Net, u: Node, n: nat)
    requires u in net.ins && n < |net.ins[u]|
    ensures forall v, l :: Into(FirstLinks(net, u, n + 1), v, l) ==>
      Into(FirstLinks(net, u, n), v, l) || (v == u && l == net.ins[u][n])
  {}

  lemma ImprovedRelaxed(net: Net, dist: Dists, outs: Outs, done: set<Node>, u: Node, n: nat)
    requires u in net.ins && n < |net.ins[u]| && Relaxed(net, FirstLinks(net, u, n), dist, outs, done)
      && net.ins[u][n].srcNode in outs
    requires var l := net.ins[u][n];
      l.srcNode in dist && l.srcNode !in done && u in done && u in dist
      && Greater(dist[l.srcNode], Beyond(net, dist[u], u, l))
    ensures var l := net.ins[u][n];
      Relaxed(net, FirstLinks(net, u, n + 1), dist[l.srcNode := Beyond(net, dist[u], u, l)],
        outs[l.srcNode := Preferred(outs[l.srcNode], l)], done)
  {
    var l := net.ins[u][n];
    var src := l.srcNode;
    var dist', outs' := dist[src := Beyond(net, dist[u], u, l)], outs[src := Preferred(outs[src], l)];
    NextLink(net, u, n);
    hide FirstLinks;
    forall v, m | v in done && Into(FirstLinks(net, u, n + 1), v, m) && Usable(net, m)
      ensures Counted(net, dist', outs', v, m)
    {
      if m != l {
        assert Into(FirstLinks(net, u, n), v, m);
        assert Counted(net, dist, outs, v, m);
      } else {
        assert l in Preferred(outs[src], l);
      }
    }
  }

  lemma ImprovedLed(net: Net, dist: Dists, outs: Outs, ways: Ways, done: set<Node>, u: Node, l: Link)
    requires Led(net, dist, outs, ways, done) && WellFormed(net) && u in done && Into(net.ins, u, l) && Usable(net, l)
    requires forall w :: w in done ==> w in dist && dist[w].Fin?
    requires l.srcNode in dist && l.srcNode in outs && l.srcNode !in done
      && Greater(dist[l.srcNode], Beyond(net, dist[u], u, l))
    requires l.srcNode != net.target
    ensures u in ways
    ensures Led(net, dist[l.srcNode := Beyond(net, dist[u], u, l)], outs[l.srcNode := Preferred(outs[l.srcNode], l)],
      ways[l.srcNode := Leave(l, ways[u])], done)
  {
    assert IsWay(net, Leave(l, ways[u]));
  }

  lemma ImprovedOutward(net: Net, outs: Outs, done: set<Node>, u: Node, l: Link)
    requires Outward(net, outs, done) && WellFormed(net) && u in done && Into(net.ins, u, l) && Usable(net, l)
      && l.srcNode in outs
    ensures Outward(net, outs[l.srcNode := Preferred(outs[l.srcNode], l)], done)
  {
    OthersDistinct(outs[l.srcNode], l);
  }

  // The link does not shorten the way; it is listed last if it is usable.
  lemma Pass(net: Net, dist: Dists, outs: Outs, ways: Ways, q: seq<Node>, done: set<Node>, u: Node, n: nat)
    requires u in net.ins && n < |net.ins[u]| && Searching(net, FirstLinks(net, u, n), dist, outs, ways, q, done)
      && u in done
    requires var l := net.ins[u][n]; Usable(net, l) ==> !Greater(At(dist, l.srcNode), Beyond(net, dist[u], u, l))
    ensures var l := net.ins[u][n];
      && l.srcNode in outs
      && Searching(net, FirstLinks(net, u, n + 1), dist, if !Usable(net, l) || l in outs[l.srcNode] then outs
        else outs[l.srcNode := outs[l.srcNode] + [l]], ways, q, done)
  {
    var l := net.ins[u][n];
    InFacts(net, u, l);
    var outs' := if !Usable(net, l) || l in outs[l.srcNode] then outs else outs[l.srcNode := outs[l.srcNode] + [l]];
    PassedRelaxed(net, dist, outs, outs', done, u, n);
    hide WellFormed, InOrder, Relaxed, FirstLinks, Beyond, Usable;
    AppendedOutward(net, outs, done, l);
    AppendedLed(net, dist, outs, ways, done, l);
    hide Outward, Led;
  }

  lemma AppendedOutward(net: Net, outs: Outs, done: set<Node>, l: Link)
    requires Outward(net, outs, done) && l.srcNode in outs
    ensures l !in outs[l.srcNode] && Usable(net, l) && l.destNode in done && Into(net.ins, l.destNode, l) ==>
      Outward(net, outs[l.srcNode := outs[l.srcNode] + [l]], done)
  {}

  lemma AppendedLed(net: Net, dist: Dists, outs: Outs, ways: Ways, done: set<Node>, l: Link)
    requires Led(net, dist, outs, ways, done) && l.srcNode in outs
    ensures Led(net, dist, outs[l.srcNode := outs[l.srcNode] + [l]], ways, done)
  {}

  lemma PassedRelaxed(net: Net, dist: Dists, outs: Outs, outs': Outs, done: set<Node>, u: Node, n: nat)
    requires u in net.ins && n < |net.ins[u]| && u in dist && Relaxed(net, FirstLinks(net, u, n), dist, outs, done)
    requires forall v :: v in outs ==> v in outs' && outs[v] <= outs'[v]
    requires var l := net.ins[u][n];
      Usable(net, l) ==>
        l.srcNode in outs' && l in outs'[l.srcNode] && !Greater(At(dist, l.srcNode), Beyond(net, dist[u], u, l))
    ensures Relaxed(net, FirstLinks(net, u, n + 1), dist, outs', done)
  {
    NextLink(net, u, n);
    hide FirstLinks, Beyond;
    forall v, m | v in done && Into(FirstLinks(net, u, n + 1), v, m) && Usable(net, m)
      ensures Counted(net, dist, outs', v, m)
    {
      if Into(FirstLinks(net, u, n), v, m) {
        assert Counted(net, dist, outs, v, m);
      }
    }
  }

  lemma Started(net: Net, dist: Dists, outs: Outs)
    requires WellFormed(net) && dist.Keys == net.ins.Keys && outs.Keys == net.ins.Keys
    requires forall v :: v in dist ==> dist[v] == (if v == net.target then Fin(0.0) else Inf) && outs[v] == []
    ensures Searching(net, net.ins, dist, outs, map[net.target := Arrived], [net.target], {})
  {}

  // The first node of the list is expanded next.
  lemma Popped(net: Net, dist: Dists, outs: Outs, ways: Ways, q: seq<Node>, done: set<Node>)
    requires Searching(net, net.ins, dist, outs, ways, q, done) && q != []
    ensures q[0] in dist && q[0] in net.ins && q[0] !in done && done <= net.ins.Keys
    ensures Nearest(dist, done + {q[0]}, q[0])
    ensures Searching(net, FirstLinks(net, q[0], 0), dist, outs, ways, q[1..], done + {q[0]})
  {
    hide WellFormed, InOrder, Relaxed, Outward, Led, FirstLinks;
    HeadFacts(net, dist, outs, ways, q, done);
    PoppedOrder(dist, q, done);
    PoppedRelaxed(net, dist, outs, done, q[0]);
    DoneGrows(net, dist, outs, ways, done, q[0]);
  }

  lemma HeadFacts(net: Net, dist: Dists, outs: Outs, ways: Ways, q: seq<Node>, done: set<Node>)
    requires InOrder(dist, q, done) && q != [] && dist.Keys == net.ins.Keys && (done == {} || net.target in done)
    requires Led(net, dist, outs, ways, done)
    ensures q[0] in dist && q[0] !in done && done <= net.ins.Keys
    ensures forall w :: w in done ==> w in dist && !Greater(dist[w], dist[q[0]])
    ensures net.target in done + {q[0]}
  {
    assert q[0] in q;
  }

  lemma DoneGrows(net: Net, dist: Dists, outs: Outs, ways: Ways, done: set<Node>, u: Node)
    requires Outward(net, outs, done) && Led(net, dist, outs, ways, done)
    ensures Outward(net, outs, done + {u}) && Led(net, dist, outs, ways, done + {u})
  {}

  lemma AllLinks(net: Net, u: Node)
    requires u in net.ins
    ensures FirstLinks(net, u, |net.ins[u]|) == net.ins
  {
    assert net.ins[u][..|net.ins[u]|] == net.ins[u] && net.ins[u := net.ins[u]] == net.ins;
  }

  lemma PoppedOrder(dist: Dists, q: seq<Node>, done: set<Node>)
    requires InOrder(dist, q, done) && q != []
    ensures InOrder(dist, q[1..], done + {q[0]})
  {
    var u, q' := q[0], q[1..];
    assert u in q && q == [u] + q';
    assert forall v :: v in q' ==> v in q;
    forall v | v in q' ensures v != u && !Greater(dist[u], dist[v]) {
      var i :| 0 <= i < |q'| && q'[i] == v;
      assert q[i + 1] == v;
    }
  }

  lemma PoppedRelaxed(net: Net, dist: Dists, outs: Outs, done: set<Node>, u: Node)
    requires Relaxed(net, net.ins, dist, outs, done) && u in net.ins
    ensures Relaxed(net, FirstLinks(net, u, 0), dist, outs, done + {u})
  {
    forall v, m | v in done + {u} && Into(FirstLinks(net, u, 0), v, m) && Usable(net, m)
      ensures Counted(net, dist, outs, v, m)
    {
      assert v in done && Into(net.ins, v, m);
    }
  }

  lemma LinkFacts(net: Net, dist: Dists, outs: Outs, ways: Ways, q: seq<Node>, done: set<Node>, u: Node, n: nat)
    requires u in net.ins && n < |net.ins[u]| && Searching(net, FirstLinks(net, u, n), dist, outs, ways, q, done)
      && u in done
    ensures var l := net.ins[u][n];
      && l.srcNode in dist && l.srcNode in outs && l.srcNode in net.ins && u in dist && u in ways
      && (At(dist, l.srcNode) == Inf ==> Dropped(q, l.srcNode) == q)
    ensures forall v :: v in q ==> v in dist
  {
    var l := net.ins[u][n];
    InFacts(net, u, l);
    if At(dist, l.srcNode) == Inf {
      NotQueued(dist, q, done, l.srcNode);
    }
  }

  // ---- the result

  lemma {:induction false} WaysCostNoLess(net: Net, dist: Dists, outs: Outs, ways: Ways, done: set<Node>, w: Way)
    requires Searching(net, net.ins, dist, outs, ways, [], done) && IsWay(net, w)
    ensures !Greater(At(dist, Origin(net, w)), Cost(net, w))
  {
    if w.Leave? {
      WaysCostNoLess(net, dist, outs, ways, done, w.rest);
      var u := Origin(net, w.rest);
      if Cost(net, w).Fin? {
        assert u in done && Into(net.ins, u, w.link);
        assert Counted(net, dist, outs, u, w.link);
      }
    }
  }

  // No way costs less than the distance.
  ghost predicate NoneCheaper(net: Net, dist: Dists) {
    forall w :: IsWay(net, w) ==> !Greater(At(dist, Origin(net, w)), Cost(net, w))
  }

  // Link l leads from v nearer to the target, by just the cost of going through it.
  ghost predicate Nearer(net: Net, dist: Dists, v: Node, l: Link) {
    && Usable(net, l) && l.srcNode == v && Into(net.ins, l.destNode, l) && l.destNode in dist && v in dist
    && dist[v] == Beyond(net, dist[l.destNode], l.destNode, l) && Greater(dist[v], dist[l.destNode])
  }

  // The way kept for v takes the first link, and goes on as the one kept for its end.
  ghost predicate ByFirst(outs: Outs, ways: Ways, v: Node) {
    && v in outs && outs[v] != [] && v in ways && outs[v][0].destNode in ways
    && ways[v] == Leave(outs[v][0], ways[outs[v][0].destNode])
  }

  lemma FirstLinkLeads(net: Net, dist: Dists, outs: Outs, ways: Ways, done: set<Node>, v: Node)
    requires Searching(net, net.ins, dist, outs, ways, [], done) && v in dist && dist[v].Fin? && v != net.target
    ensures v in outs && outs[v] != [] && Nearer(net, dist, v, outs[v][0]) && ByFirst(outs, ways, v)
  {
    var l := outs[v][0];
    assert l in outs[v];
    BeyondIsFarther(net, dist[l.destNode], l.destNode, l);
  }

  // What a finished calculation leaves: a way of just its cost for every node
  // with a distance, taken by the first link of outPaths, and in outPaths just
  // the enabled links to nodes with a distance, each once.
  ghost predicate Solved(net: Net, dist: Dists, outs: Outs, ways: Ways) {
    && dist.Keys == outs.Keys == net.ins.Keys
    && net.target in dist && dist[net.target] == Fin(0.0) && net.target in ways && ways[net.target] == Arrived
    && (forall v :: v in dist && dist[v].Fin? ==>
      v in ways && IsWay(net, ways[v]) && Origin(net, ways[v]) == v && Cost(net, ways[v]) == dist[v])
    && (forall v :: v in dist && dist[v].Fin? && v != net.target ==>
      outs[v] != [] && Nearer(net, dist, v, outs[v][0]) && ByFirst(outs, ways, v))
    && (forall v, l :: v in outs && l in outs[v] ==>
      l.srcNode == v && Usable(net, l) && Into(net.ins, l.destNode, l) && dist[l.destNode].Fin?)
    && (forall u, l :: u in net.ins && l in net.ins[u] && Usable(net, l) && dist[u].Fin? ==>
      l.srcNode in outs && l in outs[l.srcNode])
    && (forall v :: v in outs ==> NoRepeats(outs[v]))
  }

  lemma Concluded(net: Net, dist: Dists, outs: Outs, ways: Ways, done: set<Node>)
    requires Searching(net, net.ins, dist, outs, ways, [], done)
    ensures Solved(net, dist, outs, ways)
    ensures NoneCheaper(net, dist)
  {
    forall w | IsWay(net, w) ensures !Greater(At(dist, Origin(net, w)), Cost(net, w)) {
      WaysCostNoLess(net, dist, outs, ways, done, w);
    }
    forall v | v in dist && dist[v].Fin? && v != net.target
      ensures outs[v] != [] && Nearer(net, dist, v, outs[v][0]) && ByFirst(outs, ways, v)
    {
      FirstLinkLeads(net, dist, outs, ways, done, v);
    }
    forall u, l | u in net.ins && l in net.ins[u] && Usable(net, l) && dist[u].Fin?
      ensures l.srcNode in outs && l in outs[l.srcNode]
    {
      assert Counted(net, dist, outs, u, l);
    }
  }

  // Every link of the way is the first in outPaths of the node it leaves, up to
  // the target, where it ends.
  ghost predicate FollowsFirst(net: Net, outs: Outs, w: Way) {
    w.Leave? ==>
      var v := w.link.srcNode;
      && v != net.target && v in outs && outs[v] != [] && w.link == outs[v][0] && w.link.destNode == Origin(net, w.rest)
      && FollowsFirst(net, outs, w.rest)
  }

  // Taking the first link of outPaths again and again leads to the target, at
  // the cost of just the distance.
  lemma FirstLinksLead(net: Net, dist: Dists, outs: Outs, ways: Ways, v: Node)
    requires Solved(net, dist, outs, ways) && v in dist && dist[v].Fin?
    ensures v in ways && Origin(net, ways[v]) == v && Cost(net, ways[v]) == dist[v]
    ensures FollowsFirst(net, outs, ways[v])
  {
    KeptFollows(net, dist, outs, ways, v, ways[v]);
  }

  lemma {:induction false} KeptFollows(net: Net, dist: Dists, outs: Outs, ways: Ways, v: Node, w: Way)
    requires Solved(net, dist, outs, ways) && v in dist && dist[v].Fin? && w == ways[v]
    ensures FollowsFirst(net, outs, w)
    decreases w
  {
    hide Cost, IsWay;
    if v != net.target {
      assert Nearer(net, dist, v, outs[v][0]) && ByFirst(outs, ways, v);
      var u := outs[v][0].destNode;
      assert dist[u].Fin?;
      KeptFollows(net, dist, outs, ways, u, w.rest);
    }
  }

  // There is only one such way from a node.
  lemma {:induction false} OnlyFirst(net: Net, outs: Outs, w: Way, x: Way)
    requires FollowsFirst(net, outs, w) && FollowsFirst(net, outs, x) && Origin(net, w) == Origin(net, x)
    ensures w == x
  {
    if w.Leave? && x.Leave? {
      OnlyFirst(net, outs, w.rest, x.rest);
    }
  }

  // ---- which of the links listed are on shortest ways

  // Only the last step of the way, its first link, may cost infinitely much.
  ghost predicate Passable(net: Net, w: Way) { w.Leave? ==> Cost(net, w.rest).Fin? }

  ghost predicate AllNearer(net: Net, dist: Dists, outs: Outs) {
    forall v, l :: v in outs && l in outs[v] ==> Nearer(net, dist, v, l)
  }

  // Wherever there are several ways to the target, they cost the same.
  ghost predicate EquallyFar(net: Net) {
    forall w, x ::
      IsWay(net, w) && IsWay(net, x) && Passable(net, w) && Passable(net, x) && Origin(net, w) == Origin(net, x) ==>
        Cost(net, w) == Cost(net, x)
  }

  ghost predicate BeginsWith(net: Net, older w: Way, l: Link) {
    IsWay(net, w) && Passable(net, w) && w.Leave? && w.link == l
  }

  // The way that takes a link listed, and then the way kept for its end.
  lemma ListedWay(net: Net, dist: Dists, outs: Outs, ways: Ways, v: Node, l: Link)
    requires WellFormed(net) && Solved(net, dist, outs, ways) && NoneCheaper(net, dist) && v in outs && l in outs[v]
    ensures v in dist && l.destNode in dist && l.destNode in ways && dist[l.destNode].Fin?
    ensures BeginsWith(net, Leave(l, ways[l.destNode]), l)
    ensures l.srcNode == v && Usable(net, l) && Into(net.ins, l.destNode, l)
    ensures Cost(net, Leave(l, ways[l.destNode])) == Beyond(net, dist[l.destNode], l.destNode, l)
    ensures !Greater(dist[v], Cost(net, Leave(l, ways[l.destNode])))
    ensures Greater(Beyond(net, dist[l.destNode], l.destNode, l), dist[l.destNode])
  {
    hide Greater, Beyond, Plus, NoRepeats, Nearer, ByFirst;
    var x := Leave(l, ways[l.destNode]);
    assert IsWay(net, x);
    BeyondGreater(net, dist[l.destNode], l.destNode, l);
  }

  lemma BeyondGreater(net: Net, d: Ext, u: Node, l: Link)
    requires WellFormed(net) && Into(net.ins, u, l) && d.Fin?
    ensures Greater(Beyond(net, d, u, l), d)
  {
    if Beyond(net, d, u, l).Fin? {
      BeyondIsFarther(net, d, u, l);
    }
  }

  // A link listed leads nearer just if a shortest way begins with it.
  lemma OnShortest(net: Net, dist: Dists, outs: Outs, ways: Ways, v: Node, l: Link)
    requires WellFormed(net) && Solved(net, dist, outs, ways) && NoneCheaper(net, dist) && v in outs && l in outs[v]
    ensures Nearer(net, dist, v, l) <==> exists w :: BeginsWith(net, w, l) && Cost(net, w) == dist[v]
  {
    hide Solved, WellFormed;
    ListedWay(net, dist, outs, ways, v, l);
    if w :| BeginsWith(net, w, l) && Cost(net, w) == dist[v] {
      RestGoesOn(net, w, l);
      assert !Greater(At(dist, Origin(net, w.rest)), Cost(net, w.rest));
    }
  }

  lemma RestGoesOn(net: Net, w: Way, l: Link)
    requires WellFormed(net) && BeginsWith(net, w, l)
    ensures IsWay(net, w.rest) && Origin(net, w.rest) == l.destNode
  {}

  // All links in outPaths are on shortest ways just if no node has two ways of
  // different costs.
  lemma AllOnShortest(net: Net, dist: Dists, outs: Outs, ways: Ways)
    requires WellFormed(net) && Solved(net, dist, outs, ways) && NoneCheaper(net, dist)
    ensures AllNearer(net, dist, outs) <==> EquallyFar(net)
  {
    hide Solved, IsWay, Cost, WellFormed, Nearer;
    if AllNearer(net, dist, outs) {
      forall w, x | IsWay(net, w) && IsWay(net, x) && Passable(net, w) && Passable(net, x)
        && Origin(net, w) == Origin(net, x)
        ensures Cost(net, w) == Cost(net, x)
      {
        AsFarAsSaid(net, dist, outs, ways, w);
        AsFarAsSaid(net, dist, outs, ways, x);
      }
    }
    if EquallyFar(net) {
      forall v, l | v in outs && l in outs[v] ensures Nearer(net, dist, v, l) {
        EqualIsNearer(net, dist, outs, ways, v, l);
      }
    }
  }

  lemma {:induction false} AsFarAsSaid(net: Net, dist: Dists, outs: Outs, ways: Ways, w: Way)
    requires WellFormed(net) && Solved(net, dist, outs, ways) && AllNearer(net, dist, outs) && IsWay(net, w)
      && Passable(net, w)
    ensures Cost(net, w) == At(dist, Origin(net, w))
  {
    if w.Leave? {
      assert w.rest.Leave? ==>
        Cost(net, w.rest) == Beyond(net, Cost(net, w.rest.rest), Origin(net, w.rest.rest), w.rest.link);
      AsFarAsSaid(net, dist, outs, ways, w.rest);
      assert w.link.destNode == Origin(net, w.rest) && w.link in outs[w.link.srcNode];
    }
  }

  lemma EqualIsNearer(net: Net, dist: Dists, outs: Outs, ways: Ways, v: Node, l: Link)
    requires WellFormed(net) && Solved(net, dist, outs, ways) && NoneCheaper(net, dist) && EquallyFar(net)
    requires v in outs && l in outs[v]
    ensures Nearer(net, dist, v, l)
  {
    ListedWay(net, dist, outs, ways, v, l);
    if dist[v].Fin? {
      assert Cost(net, Leave(l, ways[l.destNode])) == Cost(net, ways[v]);
    }
  }

  // Three links: a leads to the target at a cost of 5, and by way of b at a cost
  // of 2. Both links of a are listed, and the first is on no shortest way.
  function Detour(t: Node, a: Node, b: Node, at: Link, ab: Link, bt: Link): Net {
    Net(t, map[t := [at, bt], b := [ab], a := []], map[t := Fin(0.0), b := Fin(0.0), a := Fin(0.0)], {t, a, b},
      map[at := Fin(5.0), ab := Fin(1.0), bt := Fin(1.0)], {at, ab, bt})
  }

  ghost predicate IsDetour(net: Net, t: Node, a: Node, b: Node, at: Link, ab: Link, bt: Link) {
    && t != a && t != b && a != b && net == Detour(t, a, b, at, ab, bt)
    && at.srcNode == ab.srcNode == a && bt.srcNode == b && at.destNode == bt.destNode == t && ab.destNode == b
  }

  lemma DetourListed(net: Net, t: Node, a: Node, b: Node, at: Link, ab: Link, bt: Link, dist: Dists, outs: Outs,
      ways: Ways)
    requires IsDetour(net, t, a, b, at, ab, bt) && Solved(net, dist, outs, ways) && NoneCheaper(net, dist)
    ensures WellFormed(net) && a in outs && outs[a] == [ab, at]
    ensures Nearer(net, dist, a, ab) && !Nearer(net, dist, a, at)
  {
    DetourCost(net, t, a, b, at, ab, bt, dist);
    hide Cost, IsWay, NoneCheaper, NoRepeats, Origin, At, Greater, Plus, Beyond;
    assert a in dist && dist[a].Fin?;
    forall l | l in outs[a] ensures l == ab || l == at {
      assert Into(net.ins, l.destNode, l) && l != bt;
    }
    OnlyTwo(outs[a], ab, at);
  }

  lemma DetourCost(net: Net, t: Node, a: Node, b: Node, at: Link, ab: Link, bt: Link, dist: Dists)
    requires IsDetour(net, t, a, b, at, ab, bt) && NoneCheaper(net, dist) && t in dist && dist[t] == Fin(0.0)
    ensures At(dist, a).Fin? && !Nearer(net, dist, a, at) && WellFormed(net)
  {
    hide IsWay, Cost, Origin;
    var y := Leave(bt, Arrived);
    var w := Leave(ab, y);
    Nothing(net);
    FirstStep(net, bt, Arrived);
    FirstStep(net, ab, y);
    assert !Greater(At(dist, a), Cost(net, w));
  }

  lemma Nothing(net: Net)
    ensures IsWay(net, Arrived) && Origin(net, Arrived) == net.target && Cost(net, Arrived) == Fin(0.0)
  {}

  lemma FirstStep(net: Net, l: Link, w: Way)
    requires IsWay(net, w) && Into(net.ins, Origin(net, w), l) && Usable(net, l)
    ensures IsWay(net, Leave(l, w)) && Origin(net, Leave(l, w)) == l.srcNode
    ensures Cost(net, Leave(l, w)) == Beyond(net, Cost(net, w), Origin(net, w), l)
  {}

  lemma OnlyTwo(outs: seq<Link>, k: Link, l: Link)
    requires NoRepeats(outs) && k != l && l in outs && outs[0] == k && forall x :: x in outs ==> x == k || x == l
    ensures outs == [k, l]
  {
    var i :| 0 <= i < |outs| && outs[i] == l;
    forall j | 0 < j < |outs| ensures outs[j] == l && i == j {
      assert outs[j] in outs && outs[0] != outs[j];
    }
    assert outs[1] == l && outs[|outs| - 1] == l;
  }

  // ---- counting hops

  // The same links, all of cost 1, through nodes of no cost.
  function Unit(net: Net): Net {
    net.(weights := map u | u in net.weights :: Fin(0.0), costs := map l | l in net.costs :: Fin(1.0))
  }

  ghost predicate Linked(net: Net) {
    && net.target in net.ins && net.weights.Keys == net.ins.Keys
    && forall u, l :: u in net.ins && l in net.ins[u] ==> l.destNode == u && l.srcNode in net.ins && l in net.costs
  }

  lemma UnitWellFormed(net: Net)
    requires Linked(net)
    ensures WellFormed(Unit(net))
  {
    forall u, l | u in net.ins && l in net.ins[u] ensures Costly(Unit(net), l) {}
  }

  lemma UnitBeyond(net: Net, d: Ext, u: Node, l: Link)
    requires Linked(net) && u in net.ins && l in net.ins[u]
    ensures Beyond(Unit(net), d, u, l) == Plus(d, Fin(1.0))
  {
    assert l in net.costs;
  }

  function Hops(w: Way): nat { if w.Arrived? then 0 else 1 + Hops(w.rest) }

  // The cost of a way is then its number of links.
  lemma {:induction false} UnitCost(net: Net, w: Way)
    requires Linked(net) && IsWay(Unit(net), w)
    ensures Cost(Unit(net), w) == Fin(Hops(w) as real)
  {
    if w.Leave? {
      UnitCost(net, w.rest);
      UnitBeyond(net, Cost(Unit(net), w.rest), Origin(Unit(net), w.rest), w.link);
    }
  }

  // The nodes in the queue are at most one hop farther than u, and a node
  // without a distance has no links listed.
  ghost predicate Wave(dist: Dists, outs: Outs, q: seq<Node>, u: Node) {
    && u in dist && dist[u].Fin?
    && (forall v :: v in q ==> v in dist && !Greater(dist[v], Plus(dist[u], Fin(1.0))))
    && (forall v :: v in dist && dist[v].Inf? ==> v in outs && outs[v] == [])
  }

  lemma PreferOnly(l: Link)
    ensures Preferred([], l) == [l]
  {}

  lemma UnitRead(net: Net, l: Link)
    ensures Unit(net).ins == net.ins && Unit(net).target == net.target && (Usable(Unit(net), l) <==> Usable(net, l))
  {}

  // A node met for the first time is the last in the queue.
  lemma FirstMet(net: Net, dist: Dists, outs: Outs, ways: Ways, q: seq<Node>, done: set<Node>, u: Node, n: nat)
    requires Linked(net) && u in net.ins && n < |net.ins[u]| && u in done && Nearest(dist, done, u)
      && Wave(dist, outs, q, u)
    requires Searching(Unit(net), FirstLinks(Unit(net), u, n), dist, outs, ways, q, done)
    requires var l := net.ins[u][n]; Usable(net, l) && At(dist, l.srcNode).Inf?
    ensures var l := net.ins[u][n];
      var nd := Plus(dist[u], Fin(1.0));
      var dist', outs' := dist[l.srcNode := nd], outs[l.srcNode := [l]];
      && u in ways && l.srcNode in dist && l.srcNode in outs && outs[l.srcNode] == []
      && Searching(Unit(net), FirstLinks(Unit(net), u, n + 1), dist', outs', ways[l.srcNode := Leave(l, ways[u])],
        q + [l.srcNode], done)
      && Nearest(dist', done, u) && Wave(dist', outs', q + [l.srcNode], u)
  {
    hide Searching, FirstLinks, Linked, Dropped, Beyond, Usable, Others, Preferred;
    var l := net.ins[u][n];
    var src := l.srcNode;
    UnitRead(net, l);
    UnitBeyond(net, dist[u], u, l);
    LinkFacts(Unit(net), dist, outs, ways, q, done, u, n);
    PreferOnly(l);
    assert forall i :: 0 <= i < |q| ==> q[i] in q;
    assert q[..|q|] == q && q[|q|..] == [] && q + [src] + [] == q + [src];
    Improve(Unit(net), dist, outs, ways, q, done, u, n, |q|);
  }

  lemma MetAgain(net: Net, dist: Dists, outs: Outs, ways: Ways, q: seq<Node>, done: set<Node>, u: Node, n: nat)
    requires Linked(net) && u in net.ins && n < |net.ins[u]| && u in done && Nearest(dist, done, u)
      && Wave(dist, outs, q, u)
    requires Searching(Unit(net), FirstLinks(Unit(net), u, n), dist, outs, ways, q, done)
    requires var l := net.ins[u][n]; Usable(net, l) ==> At(dist, l.srcNode).Fin?
    ensures var l := net.ins[u][n];
      && l.srcNode in outs
      && var outs' := if !Usable(net, l) || l in outs[l.srcNode] then outs
        else outs[l.srcNode := outs[l.srcNode] + [l]];
         Searching(Unit(net), FirstLinks(Unit(net), u, n + 1), dist, outs', ways, q, done) && Wave(dist, outs', q, u)
  {
    hide FirstLinks, Linked, Dropped, Beyond, Usable, Relaxed, Outward, Led, WellFormed, Sorted;
    var l := net.ins[u][n];
    UnitRead(net, l);
    LinkFacts(Unit(net), dist, outs, ways, q, done, u, n);
    UnitBeyond(net, dist[u], u, l);
    if At(dist, l.srcNode).Fin? {
      assert l.srcNode in done || l.srcNode in q;
    }
    Pass(Unit(net), dist, outs, ways, q, done, u, n);
  }

  lemma NextWave(net: Net, dist: Dists, outs: Outs, ways: Ways, q: seq<Node>, done: set<Node>, u: Node)
    requires Searching(Unit(net), net.ins, dist, outs, ways, q, done) && q != [] && Wave(dist, outs, q, u)
      && (u in done || u == q[0])
    ensures Wave(dist, outs, q[1..], q[0])
  {
    hide Relaxed, Outward, Led, WellFormed, Sorted;
    assert q[0] in q && !Greater(dist[u], dist[q[0]]) && forall v :: v in q[1..] ==> v in q;
  }

  lemma Hop(net: Net, dist: Dists, outs: Outs, ways: Ways, q: seq<Node>, done: set<Node>, u: Node, n: nat)
    requires Linked(net) && u in net.ins && n < |net.ins[u]| && u in done && Nearest(dist, done, u)
      && Wave(dist, outs, q, u)
    requires Searching(Unit(net), FirstLinks(Unit(net), u, n), dist, outs, ways, q, done) && Usable(net, net.ins[u][n])
    requires net.ins[u][n].srcNode in dist && net.ins[u][n].srcNode in outs && u in ways
    ensures var l := net.ins[u][n];
      var src := l.srcNode;
      var dist' := if dist[src] == Inf then dist[src := Plus(dist[u], Fin(1.0))] else dist;
      var outs' := if l in outs[src] then outs else outs[src := outs[src] + [l]];
      var ways' := if dist[src] == Inf then ways[src := Leave(l, ways[u])] else ways;
      var q' := if dist[src] == Inf then q + [src] else q;
      && Searching(Unit(net), FirstLinks(Unit(net), u, n + 1), dist', outs', ways', q', done)
      && Nearest(dist', done, u) && Wave(dist', outs', q', u)
  {
    hide Searching, FirstLinks, Nearest, Wave, Usable, Linked, Unit;
    var l := net.ins[u][n];
    if dist[l.srcNode] == Inf {
      FirstMet(net, dist, outs, ways, q, done, u, n);
      assert outs[l.srcNode] + [l] == [l];
    } else {
      MetAgain(net, dist, outs, ways, q, done, u, n);
    }
  }

  class Topology {
    var nodes: seq<Node>
    var target: Node?
    ghost var links: set<Link>

    ghost predicate Closed()
      reads this`nodes, this`links, nodes`inLinks
    {
      forall n, l :: n in nodes && l in n.inLinks ==> l in links
    }

    // Everything the path calculations only read, but for the target.
    ghost function Given(): (map<Node, seq<Link>>, map<Node, Ext>, set<Node>, map<Link, Ext>, set<Link>)
      reads this`nodes, this`links, nodes`inLinks, nodes`weight, nodes`enabled, links
    {
      (map n | n in nodes :: n.inLinks, map n | n in nodes :: n.weight, set n | n in nodes && n.enabled,
       map l | l in links :: l.weight, set l | l in links && l.enabled)
    }

    ghost function Network(t: Node): Net
      reads this`nodes, this`links, nodes`inLinks, nodes`weight, nodes`enabled, links
    {
      var g := Given();
      Net(t, g.0, g.1, g.2, g.3, g.4)
    }

    ghost function Dist(): Dists
      reads this`nodes, nodes`dist
    {
      map n | n in nodes :: n.dist
    }

    ghost function OutPaths(): Outs
      reads this`nodes, nodes`outPaths
    {
      map n | n in nodes :: n.outPaths
    }

    method SetDist(n: Node, d: Ext)
      requires n in nodes
      modifies n`dist
      ensures Dist() == old(Dist())[n := d] && OutPaths() == old(OutPaths()) && Closed() == old(Closed())
        && Given() == old(Given())
    {
      n.dist := d;
    }

    method SetOutPaths(n: Node, outs: seq<Link>)
      requires n in nodes
      modifies n`outPaths
      ensures OutPaths() == old(OutPaths())[n := outs] && Dist() == old(Dist()) && Closed() == old(Closed())
        && Given() == old(Given())
    {
      n.outPaths := outs;
    }

    // The common start: all infinite but the target.
    method Clean()
      requires target != null && target in nodes
      modifies nodes`dist, nodes`outPaths
      ensures Dist() == map n | n in nodes :: if n == target then Fin(0.0) else Inf
      ensures OutPaths() == map n | n in nodes :: []
      ensures Closed() == old(Closed()) && Given() == old(Given())
    {
      for i := 0 to |nodes|
        invariant forall j :: 0 <= j < i ==> nodes[j].dist == Inf && nodes[j].outPaths == []
      {
        nodes[i].dist := Inf;
        nodes[i].outPaths := [];
      }
      target.dist := Fin(0.0);
    }

    method Remove(q: seq<Node>, src: Node) returns (r: seq<Node>)
      ensures r == Dropped(q, src)
    {
      r := [];
      for i := 0 to |q|
        invariant r + Dropped(q[i..], src) == Dropped(q, src)
      {
        hide Dropped;
        DroppedStep(q, i, src);
        Assoc(r, [q[i]], Dropped(q[i + 1..], src));
        if q[i] != src {
          r := r + [q[i]];
        }
      }
      assert q[|q|..] == [];
    }

    // outPaths of src with l moved or put to the front.
    method Prefer(outs: seq<Link>, l: Link) returns (r: seq<Link>)
      ensures r == Preferred(outs, l)
    {
      r := [];
      for i := 0 to |outs|
        invariant r + Others(outs[i..], l) == Others(outs, l)
      {
        hide Others;
        OthersStep(outs, i, l);
        Assoc(r, [outs[i]], Others(outs[i + 1..], l));
        if outs[i] != l {
          r := r + [outs[i]];
        }
      }
      assert outs[|outs|..] == [];
      r := [l] + r;
    }

    // Inserts src before the first node that is farther away.
    method Enter(q: seq<Node>, src: Node, newdist: Ext) returns (q': seq<Node>, ghost k: nat)
      requires forall v :: v in q ==> v in nodes
      ensures k <= |q| && q' == q[..k] + [src] + q[k..]
      ensures (forall i :: 0 <= i < k ==> !Greater(At(Dist(), q[i]), newdist))
        && (k < |q| ==> Greater(At(Dist(), q[k]), newdist))
    {
      for i := 0 to |q|
        invariant forall j :: 0 <= j < i ==> !Greater(At(Dist(), q[j]), newdist)
      {
        assert At(Dist(), q[i]) == q[i].dist;
        if Greater(q[i].dist, newdist) {
          return q[..i] + [src] + q[i..], i;
        }
      }
      assert q[|q|..] == [];
      return q + [src], |q|;
    }

    ghost predicate Running(t: Node, rel: map<Node, seq<Link>>, ways: Ways, q: seq<Node>, done: set<Node>)
      reads this, nodes, links
    {
      target == t && Closed() && Searching(Network(t), rel, Dist(), OutPaths(), ways, q, done)
    }

    // A node with a distance is in the list, and leaves it.
    method Unlist(q: seq<Node>, src: Node) returns (r: seq<Node>)
      requires src.dist == Inf ==> Dropped(q, src) == q
      ensures r == Dropped(q, src) && forall i :: 0 <= i < |r| ==> r[i] in q && r[i] != src
    {
      r := q;
      if src.dist != Inf {
        r := Remove(q, src);
      }
      DroppedMembers(q, src);
      assert forall i :: 0 <= i < |r| ==> r[i] in r;
    }

    method Relabel(l: Link, newdist: Ext)
      requires l.srcNode in nodes
      modifies l.srcNode`dist, l.srcNode`outPaths
      ensures Dist() == old(Dist())[l.srcNode := newdist]
      ensures OutPaths() == old(OutPaths())[l.srcNode := Preferred(old(l.srcNode.outPaths), l)]
      ensures Closed() == old(Closed()) && Given() == old(Given())
    {
      hide Dist, OutPaths, Given, Closed;
      var src := l.srcNode;
      SetDist(src, newdist);
      var out := Prefer(src.outPaths, l);
      SetOutPaths(src, out);
    }

    // src gets the new distance through l, and its place in the list.
    method Shorten(q: seq<Node>, l: Link, newdist: Ext) returns (q': seq<Node>, ghost k: nat)
      requires l.srcNode in nodes && newdist.Fin? && (l.srcNode.dist == Inf ==> Dropped(q, l.srcNode) == q)
      requires forall v :: v in q ==> v in nodes
      modifies nodes`dist, nodes`outPaths
      ensures Dist() == old(Dist())[l.srcNode := newdist]
      ensures OutPaths() == old(OutPaths())[l.srcNode := Preferred(old(l.srcNode.outPaths), l)]
      ensures Closed() == old(Closed()) && Given() == old(Given())
      ensures Placed(old(Dist()), Dropped(q, l.srcNode), l.srcNode, newdist, k, q')
    {
      hide Dist, OutPaths, Given, Closed, Dropped, Preferred, Greater;
      var src := l.srcNode;
      q' := Unlist(q, src);
      Relabel(l, newdist);
      q', k := Enter(q', src, newdist);
    }

    ghost predicate AtLink(t: Node, q: seq<Node>, dest: Node, i: nat, ways: Ways, done: set<Node>)
      reads this, nodes, links
    {
      && dest in nodes && i < |dest.inLinks| && dest in done && dest in ways && dest.inLinks[i].srcNode in nodes
      && Running(t, FirstLinks(Network(t), dest, i), ways, q, done)
      && Nearest(Dist(), done, dest)
    }

    twostate lemma SameGiven(t: Node)
      requires Given() == old(Given())
      ensures Network(t) == old(Network(t))
    {}

    // The i-th link into dest can be used, and its end is at distance newdist.
    ghost predicate Through(t: Node, dest: Node, i: nat, newdist: Ext)
      reads this, nodes, links, dest
    {
      i < |dest.inLinks| && Usable(Network(t), dest.inLinks[i])
        && newdist == Beyond(Network(t), dest.dist, dest, dest.inLinks[i])
    }

    // The link shortens the way from its source.
    method TakeLink(t: Node, q: seq<Node>, dest: Node, i: nat, newdist: Ext, ghost ways: Ways, ghost done: set<Node>)
      returns (q': seq<Node>, ghost ways': Ways)
      requires AtLink(t, q, dest, i, ways, done) && Through(t, dest, i, newdist) && newdist.Fin?
        && Greater(dest.inLinks[i].srcNode.dist, newdist)
      modifies nodes`dist, nodes`outPaths
      ensures Running(t, FirstLinks(Network(t), dest, i + 1), ways', q', done)
      ensures Given() == old(Given()) && Nearest(Dist(), done, dest)
    {
      ghost var net, dist: Dists, outs: Outs := Network(t), Dist(), OutPaths();
      var l := dest.inLinks[i];
      hide Searching, FirstLinks, Usable, Nearest, Dist, OutPaths, Given, Closed, Dropped, Greater, Beyond, Placed,
        AtLink;
      AtLinkFacts(t, q, dest, i, ways, done);
      ghost var k;
      q', k := Shorten(q, l, newdist);
      SameGiven(t);
      ways' := ways[l.srcNode := Leave(l, ways[dest])];
      ImprovedTo(net, dist, outs, ways, q, done, dest, i, k, l, newdist, Dist(), OutPaths(), ways', q');
    }

    lemma AtLinkFacts(t: Node, q: seq<Node>, dest: Node, i: nat, ways: Ways, done: set<Node>)
      requires AtLink(t, q, dest, i, ways, done)
      ensures var l, net, dist, outs := dest.inLinks[i], Network(t), Dist(), OutPaths();
        && target == t && Closed() && l.srcNode in nodes && dest in done && dest in ways && dest in dist
        && l.srcNode in dist && l.srcNode in outs
        && dest in net.ins && i < |net.ins[dest]| && l == net.ins[dest][i] && l in links
        && Searching(net, FirstLinks(net, dest, i), dist, outs, ways, q, done) && Nearest(dist, done, dest)
        && outs[l.srcNode] == l.srcNode.outPaths && dist[dest] == dest.dist
        && At(dist, l.srcNode) == dist[l.srcNode] == l.srcNode.dist
        && (l.srcNode.dist == Inf ==> Dropped(q, l.srcNode) == q) && forall v :: v in q ==> v in nodes
    {
      LinkFacts(Network(t), Dist(), OutPaths(), ways, q, done, dest, i);
      hide Searching, FirstLinks, WellFormed, Nearest, Dropped;
    }

    // The link does not; it is only listed.
    method ListLink(t: Node, q: seq<Node>, dest: Node, i: nat, newdist: Ext, ghost ways: Ways, ghost done: set<Node>)
      requires AtLink(t, q, dest, i, ways, done) && Through(t, dest, i, newdist)
        && !Greater(dest.inLinks[i].srcNode.dist, newdist)
      modifies nodes`outPaths
      ensures Running(t, FirstLinks(Network(t), dest, i + 1), ways, q, done)
      ensures Given() == old(Given()) && Nearest(Dist(), done, dest)
    {
      ghost var net, dist: Dists, outs: Outs := Network(t), Dist(), OutPaths();
      var l := dest.inLinks[i];
      hide Searching, FirstLinks, Usable, Nearest, Dist, OutPaths, Given, Closed, Dropped, Greater, Beyond, Placed,
        AtLink;
      AtLinkFacts(t, q, dest, i, ways, done);
      Pass(net, dist, outs, ways, q, done, dest, i);
      if l !in l.srcNode.outPaths {
        SetOutPaths(l.srcNode, l.srcNode.outPaths + [l]);
      }
    }

    // The i-th link into the node being expanded.
    method RelaxLink(t: Node, q: seq<Node>, dest: Node, i: nat, ghost ways: Ways, ghost done: set<Node>)
      returns (q': seq<Node>, ghost ways': Ways)
      requires AtLink(t, q, dest, i, ways, done)
      modifies nodes`dist, nodes`outPaths
      ensures Running(t, FirstLinks(Network(t), dest, i + 1), ways', q', done)
      ensures Given() == old(Given()) && Nearest(Dist(), done, dest)
    {
      q', ways' := q, ways;
      var l := dest.inLinks[i];
      assert l in links && (Usable(Network(t), l) <==> l.enabled && l.srcNode.enabled);
      if !l.enabled || !l.srcNode.enabled {
        Pass(Network(t), Dist(), OutPaths(), ways, q, done, dest, i);
        return;
      }
      var src := l.srcNode;
      var newdist := Plus(dest.dist, l.weight);
      if dest != target {
        newdist := Plus(newdist, dest.weight);
      }
      assert Through(t, dest, i, newdist);
      hide Searching, FirstLinks, Beyond, Usable, WellFormed, Network;
      if newdist != Inf && Greater(src.dist, newdist) {
        q', ways' := TakeLink(t, q, dest, i, newdist, ways, done);
      } else {
        ListLink(t, q, dest, i, newdist, ways, done);
      }
    }

    lemma NodeRead(t: Node, v: Node)
      requires v in nodes
      ensures v in Network(t).ins && Network(t).ins[v] == v.inLinks
        && Network(t).ins == Given().0 == Unit(Network(t)).ins
    {}

    lemma Ready(t: Node, q: seq<Node>, dest: Node, i: nat, ways: Ways, done: set<Node>)
      requires dest in nodes && i < |dest.inLinks| && dest in done && Nearest(Dist(), done, dest)
      requires Running(t, FirstLinks(Network(t), dest, i), ways, q, done)
      ensures AtLink(t, q, dest, i, ways, done)
    {
      LinkFacts(Network(t), Dist(), OutPaths(), ways, q, done, dest, i);
      hide Searching, FirstLinks, WellFormed, Nearest, Dropped;
    }

    method ExpandNode(t: Node, q: seq<Node>, dest: Node, ghost ways: Ways, ghost done: set<Node>)
      returns (q': seq<Node>, ghost ways': Ways)
      requires dest in nodes && dest in done && Running(t, FirstLinks(Network(t), dest, 0), ways, q, done)
      requires Nearest(Dist(), done, dest)
      modifies nodes`dist, nodes`outPaths
      ensures Running(t, Given().0, ways', q', done) && Given() == old(Given())
    {
      hide *;
      NodeRead(t, dest);
      AllLinks(Network(t), dest);
      SameGiven(t);
      q', ways' := q, ways;
      for i := 0 to |dest.inLinks|
        invariant dest in Network(t).ins && Network(t).ins[dest] == dest.inLinks && Network(t) == old(Network(t))
        invariant Running(t, FirstLinks(Network(t), dest, i), ways', q', done) && Given() == old(Given())
        invariant Nearest(Dist(), done, dest)
      {
        Ready(t, q', dest, i, ways', done);
        q', ways' := RelaxLink(t, q', dest, i, ways', done);
        SameGiven(t);
      }
    }

    // The search itself, from the cleaned nodes.
    method Search(goal: Node) returns (ghost ways: Ways, ghost done: set<Node>)
      requires target == goal && goal in nodes && Closed() && WellFormed(Network(goal))
      requires Dist().Keys == OutPaths().Keys == Given().0.Keys
      requires forall v :: v in Dist() ==> Dist()[v] == (if v == goal then Fin(0.0) else Inf) && OutPaths()[v] == []
      modifies nodes`dist, nodes`outPaths
      ensures Running(goal, Given().0, ways, [], done) && Given() == old(Given())
    {
      ghost var ins := Given().0;
      assert forall v :: v in ins ==> v in nodes;
      hide Dist, OutPaths, Given, Closed, Searching, FirstLinks, WellFormed, Beyond, Cost, IsWay, Nearest;
      var q: seq<Node> := [goal];
      ways, done := map[goal := Arrived], {};
      Started(Network(goal), Dist(), OutPaths());
      while q != []
        invariant Running(goal, ins, ways, q, done) && Given() == old(Given())
        decreases ins.Keys - done
      {
        var dest := q[0];
        Popped(Network(goal), Dist(), OutPaths(), ways, q, done);
        q := q[1..];
        done := done + {dest};
        q, ways := ExpandNode(goal, q, dest, ways, done);
      }
    }

    // Every node gets the cost of its cheapest way to the target, over enabled
    // links and nodes; outPaths starts with the first link of such a way.
    method CalculateWeightedSingleShortestPathsTo(goal: Node?) returns (ok: bool, ghost ways: Ways)
      requires goal != null ==> goal in nodes && Closed() && WellFormed(Network(goal))
      modifies this`target, nodes`dist, nodes`outPaths
      ensures ok <==> goal != null
      ensures ok ==> target == goal && Given() == old(Given())
      ensures ok ==> Solved(Network(goal), Dist(), OutPaths(), ways)
      ensures ok ==> NoneCheaper(Network(goal), Dist())
    {
      ways := map[];
      if goal == null {
        return false, ways;
      }
      target := goal;
      Clean();
      ghost var ins := Given().0;
      ghost var done;
      assert Dist().Keys == OutPaths().Keys == ins.Keys && forall v :: v in nodes <==> v in ins;
      hide Dist, OutPaths, Given, Searching, WellFormed, IsWay, Cost, Origin, Solved;
      ways, done := Search(goal);
      Concluded(Network(goal), Dist(), OutPaths(), ways, done);
      ok := true;
    }

    ghost predicate Hopping(t: Node, rel: map<Node, seq<Link>>, ways: Ways, q: seq<Node>, done: set<Node>, u: Node)
      reads this, nodes, links
    {
      && target == t && Linked(Network(t)) && Searching(Unit(Network(t)), rel, Dist(), OutPaths(), ways, q, done)
      && Wave(Dist(), OutPaths(), q, u)
    }

    // The i-th link into v as the calculations see it.
    lemma LinkRead(t: Node, v: Node, i: nat)
      requires Closed() && v in nodes && i < |v.inLinks|
      ensures var l, net := v.inLinks[i], Network(t);
        && l in links && v in net.ins && i < |net.ins[v]| && l == net.ins[v][i] && net.ins == Unit(net).ins
        && Dist().Keys == OutPaths().Keys == net.ins.Keys == (set n | n in nodes) && v.dist == Dist()[v]
        && (l.srcNode in nodes ==>
            && (Usable(net, l) <==> l.enabled && l.srcNode.enabled)
            && Dist()[l.srcNode] == l.srcNode.dist && OutPaths()[l.srcNode] == l.srcNode.outPaths)
    {}

    // The source of l gets distance d if it has none, and l is listed.
    method Meet(l: Link, d: Ext) returns (first: bool)
      requires l.srcNode in nodes
      modifies l.srcNode`dist, l.srcNode`outPaths
      ensures var src, dist, outs := l.srcNode, old(Dist()), old(OutPaths());
        && first == (dist[src] == Inf)
        && Dist() == (if first then dist[src := d] else dist)
        && OutPaths() == (if l in outs[src] then outs else outs[src := outs[src] + [l]])
      ensures Closed() == old(Closed()) && Given() == old(Given())
    {
      var w := l.srcNode;
      assert Dist()[w] == w.dist && OutPaths()[w] == w.outPaths;
      hide Dist, OutPaths, Given, Closed;
      first := w.dist == Inf;
      if first {
        SetDist(w, d);
      }
      if l !in w.outPaths {
        SetOutPaths(w, w.outPaths + [l]);
      }
    }

    // The i-th link into v, at the head of the queue.
    method CountHop(t: Node, q: seq<Node>, v: Node, i: nat, ghost ways: Ways, ghost done: set<Node>)
      returns (q': seq<Node>, ghost ways': Ways)
      requires Closed() && v in nodes && i < |v.inLinks| && v in done && Nearest(Dist(), done, v)
      requires Hopping(t, FirstLinks(Unit(Network(t)), v, i), ways, q, done, v)
      modifies nodes`dist, nodes`outPaths
      ensures Hopping(t, FirstLinks(Unit(Network(t)), v, i + 1), ways', q', done, v)
      ensures Closed() && Given() == old(Given()) && Nearest(Dist(), done, v)
    {
      ghost var net, dist: Dists, outs: Outs := Network(t), Dist(), OutPaths();
      hide Searching, FirstLinks, Usable, Linked, Wave, Nearest, Unit, Dist, OutPaths, Given, Closed, Dropped, Plus,
        Greater;
      q', ways' := q, ways;
      var l := v.inLinks[i];
      LinkRead(t, v, i);
      LinkFacts(Unit(net), dist, outs, ways, q, done, v, i);
      if !l.enabled || !l.srcNode.enabled {
        MetAgain(net, dist, outs, ways, q, done, v, i);
        return;
      }
      Hop(net, dist, outs, ways, q, done, v, i);
      var first := Meet(l, Plus(v.dist, Fin(1.0)));
      if first {
        q', ways' := q + [l.srcNode], ways[l.srcNode := Leave(l, ways[v])];
      }
    }

    method ExpandHops(t: Node, q: seq<Node>, v: Node, ghost ways: Ways, ghost done: set<Node>)
      returns (q': seq<Node>, ghost ways': Ways)
      requires Closed() && v in nodes && v in done && Nearest(Dist(), done, v)
      requires Hopping(t, FirstLinks(Unit(Network(t)), v, 0), ways, q, done, v)
      modifies nodes`dist, nodes`outPaths
      ensures Hopping(t, Given().0, ways', q', done, v) && Closed() && Given() == old(Given())
    {
      hide *;
      NodeRead(t, v);
      AllLinks(Unit(Network(t)), v);
      SameGiven(t);
      q', ways' := q, ways;
      for i := 0 to |v.inLinks|
        invariant v in Unit(Network(t)).ins && Unit(Network(t)).ins[v] == v.inLinks && Network(t) == old(Network(t))
        invariant Hopping(t, FirstLinks(Unit(Network(t)), v, i), ways', q', done, v)
        invariant Closed() && Given() == old(Given()) && Nearest(Dist(), done, v)
      {
        q', ways' := CountHop(t, q', v, i, ways', done);
        SameGiven(t);
      }
    }

    // The breadth-first search, from the cleaned nodes.
    method SearchHops(goal: Node) returns (ghost ways: Ways, ghost done: set<Node>)
      requires target == goal && goal in nodes && Closed() && Linked(Network(goal))
      requires Dist().Keys == OutPaths().Keys == Given().0.Keys
      requires forall v :: v in Dist() ==> Dist()[v] == (if v == goal then Fin(0.0) else Inf) && OutPaths()[v] == []
      modifies nodes`dist, nodes`outPaths
      ensures Searching(Unit(Network(goal)), Given().0, Dist(), OutPaths(), ways, [], done) && Given() == old(Given())
      ensures target == goal
    {
      ghost var ins := Given().0;
      assert forall v :: v in ins ==> v in nodes;
      UnitWellFormed(Network(goal));
      hide Dist, OutPaths, Given, Closed, Searching, FirstLinks, WellFormed, Nearest, Linked;
      var q: seq<Node> := [goal];
      ways, done := map[goal := Arrived], {};
      ghost var u := goal;
      Started(Unit(Network(goal)), Dist(), OutPaths());
      while q != []
        invariant Hopping(goal, ins, ways, q, done, u) && (u in done || q == [u])
        invariant Closed() && Given() == old(Given())
        decreases ins.Keys - done
      {
        var v := q[0];
        Popped(Unit(Network(goal)), Dist(), OutPaths(), ways, q, done);
        NextWave(Network(goal), Dist(), OutPaths(), ways, q, done, u);
        q := q[1..];
        u, done := v, done + {v};
        q, ways := ExpandHops(goal, q, v, ways, done);
      }
    }

    // Every node gets the least number of hops to the target, over enabled
    // links and nodes; outPaths starts with the first link of such a way.
    method CalculateUnweightedSingleShortestPathsTo(goal: Node?) returns (ok: bool, ghost ways: Ways)
      requires goal != null ==> goal in nodes && Closed() && Linked(Network(goal))
      modifies this`target, nodes`dist, nodes`outPaths
      ensures ok <==> goal != null
      ensures ok ==> target == goal && Given() == old(Given())
      ensures ok ==> Solved(Unit(Network(goal)), Dist(), OutPaths(), ways)
      ensures ok ==> NoneCheaper(Unit(Network(goal)), Dist())
    {
      ways := map[];
      if goal == null {
        return false, ways;
      }
      target := goal;
      Clean();
      ghost var ins := Given().0;
      ghost var done;
      assert Dist().Keys == OutPaths().Keys == ins.Keys && forall v :: v in nodes <==> v in ins;
      hide Dist, OutPaths, Given, Searching, WellFormed, IsWay, Cost, Origin, Solved, Linked;
      ways, done := SearchHops(goal);
      Concluded(Unit(Network(goal)), Dist(), OutPaths(), ways, done);
      ok := true;
    }
  }
}