// Dijkstra::runUntil and what it labels.

module ShortestPaths {
  import opened Graphs
  import opened Options
  import opened Sequences

  datatype Method = Basic | WidestShortest | ShortestWidest | OtherCost
  datatype Label = Perm | Tent
  datatype State = State(cost: real, concave: real, idPrev: NodeId, tag: Label)
  type Routes = map<NodeId, State>

  // An element of the search queue; its concave part is 0 when it is pushed again.
  datatype SetElem = SetElem(iD: NodeId, cost: real, concave: real)

  datatype Outcome = Done | NodeNotFound | LinkNotFound

  // The order the method minimises, on (cost, concave) pairs.
  predicate NoWorse(m: Method, c: real, b: real, c': real, b': real) {
    if m.WidestShortest? then c < c' || (c == c' && b >= b') else c <= c'
  }

  // Whether runUntil replaces the pair (c', b') by (c, b).
  predicate Better(m: Method, c: real, b: real, c': real, b': real) {
    match m
    case WidestShortest => c < c' || (c == c' && b > b')
    case ShortestWidest => b > b' || (b == b' && c < c')
    case _ => c < c'
  }

  // The costs for which the method is a shortest-path search.
  ghost predicate Suited(m: Method, links: Links) {
    !m.ShortestWidest?
      && forall u, e :: HasEdge(links, u, e) ==> if m.WidestShortest? then e.cost > 0.0 else e.cost >= 0.0
  }

  // Each route is backed by a walk that extends the walk of its predecessor.
  ghost predicate Backed(links: Links, root: NodeId, routes: Routes, walks: map<NodeId, Walk>) {
    && root in routes && walks.Keys == routes.Keys && walks[root] == Here && routes[root].tag == Perm
    && (forall v :: v in routes ==>
        && IsWalk(links, root, walks[v]) && End(root, walks[v]) == v
        && routes[v].cost == Cost(walks[v]) && routes[v].concave == Width(walks[v]))
    && (forall v :: v in routes && v != root ==>
        && walks[v].Go? && walks[v].from == routes[v].idPrev
        && routes[v].idPrev in routes && routes[routes[v].idPrev].tag == Perm
        && walks[v].walk == walks[routes[v].idPrev])
  }

  // No walk to v beats its route.
  ghost predicate Optimal(m: Method, links: Links, root: NodeId, routes: Routes, v: NodeId)
    requires v in routes
  {
    forall w :: IsWalk(links, root, w) && End(root, w) == v ==>
      NoWorse(m, routes[v].cost, routes[v].concave, Cost(w), Width(w))
  }

  // The edges of the expanded nodes are relaxed.
  ghost predicate Relaxed(m: Method, links: Links, routes: Routes, u: NodeId, e: Edge)
    requires u in routes
  {
    e.last in routes
      && NoWorse(m, routes[e.last].cost, routes[e.last].concave, routes[u].cost + e.cost,
      Min(e.concave, routes[u].concave))
  }

  // The state of the search, whatever the costs: `done` are the nodes already
  // expanded, `rel` the edges followed so far.
  ghost predicate Spanning(links: Links, rel: Links, root: NodeId, routes: Routes, walks: map<NodeId, Walk>,
      done: set<NodeId>, heap: seq<SetElem>) {
    && Backed(links, root, routes, walks) && done <= routes.Keys
    && (if root in done then forall x :: x in heap ==> x.iD != root else routes.Keys == {root} && |heap| == 1)
    && (forall v :: v in routes ==> (routes[v].tag == Perm <==> v in done || v == root))
    && (forall u, e :: u in done && HasEdge(rel, u, e) ==> e.last in routes)
    && (forall x :: x in heap ==> x.iD in routes)
    && (forall v :: v in routes && v !in done ==> Waiting(heap, v))
  }

  ghost predicate Waiting(heap: seq<SetElem>, v: NodeId) {
    exists x :: x in heap && x.iD == v
  }

  // The state of a shortest-path search.
  ghost predicate Searching(m: Method, links: Links, rel: Links, root: NodeId, routes: Routes,
      walks: map<NodeId, Walk>, done: set<NodeId>, heap: seq<SetElem>) {
    Spanning(links, rel, root, routes, walks, done, heap) && Priced(m, links, rel, routes, done, heap)
  }

  ghost predicate Priced(m: Method, links: Links, rel: Links, routes: Routes, done: set<NodeId>, heap: seq<SetElem>) {
    && done <= routes.Keys
    && (forall u, e :: u in done && HasEdge(rel, u, e) ==> Relaxed(m, links, routes, u, e))
    && (forall u, v :: u in done && v in routes && v !in done ==> routes[u].cost <= routes[v].cost)
    && (forall x :: x in heap ==> x.iD in routes && routes[x.iD].cost <= x.cost)
    && (forall v :: v in routes && v !in done ==> Queued(heap, v, routes[v].cost))
  }

  ghost predicate Queued(heap: seq<SetElem>, v: NodeId, cost: real) {
    exists x :: x in heap && x.iD == v && x.cost == cost
  }

  // Walks leaving the expanded nodes cost at least d; walks to expanded nodes
  // and to nodes labelled d are no better than the labels.
  lemma {:induction false} Settled(m: Method, links: Links, root: NodeId, routes: Routes, walks: map<NodeId, Walk>,
      done: set<NodeId>, heap: seq<SetElem>, d: real, w: Walk)
    requires Searching(m, links, links, root, routes, walks, done, heap) && Suited(m, links) && IsWalk(links, root, w)
    requires forall u :: u in done ==> routes[u].cost <= d
    requires forall v :: v in routes && v !in done ==> d <= routes[v].cost
    ensures var v := End(root, w);
      && (v !in done ==> d <= Cost(w))
      && (v in routes && (v in done || routes[v].cost == d) ==>
        NoWorse(m, routes[v].cost, routes[v].concave, Cost(w), Width(w)))
  {
    if w.Go? {
      Settled(m, links, root, routes, walks, done, heap, d, w.walk);
      assert HasEdge(links, w.from, w.e);
    }
  }

  // The cheapest queued element, if its node is not yet expanded, carries that
  // node's label, and the label is final.
  lemma PoppedIsOptimal(m: Method, links: Links, root: NodeId, routes: Routes, walks: map<NodeId, Walk>,
      done: set<NodeId>, heap: seq<SetElem>, x: SetElem)
    requires Searching(m, links, links, root, routes, walks, done, heap) && Suited(m, links)
    requires x in heap && x.iD !in done && forall y :: y in heap ==> x.cost <= y.cost
    ensures routes[x.iD].cost == x.cost && Optimal(m, links, root, routes, x.iD)
    ensures forall v :: v in routes && v !in done ==> x.cost <= routes[v].cost
  {
    assert Queued(heap, x.iD, routes[x.iD].cost);
    assert forall v :: v in routes && v !in done ==> Queued(heap, v, routes[v].cost);
    forall w | IsWalk(links, root, w) && End(root, w) == x.iD
      ensures NoWorse(m, routes[x.iD].cost, routes[x.iD].concave, Cost(w), Width(w))
    {
      Settled(m, links, root, routes, walks, done, heap, x.cost, w);
    }
  }

  function Without(heap: seq<SetElem>, i: nat): seq<SetElem>
    requires i < |heap|
  {
    heap[..i] + heap[i + 1..]
  }

  lemma StillQueued(heap: seq<SetElem>, i: nat, u: NodeId, cost: real)
    requires i < |heap| && Queued(heap, u, cost) && heap[i].iD != u
    ensures Queued(Without(heap, i), u, cost)
  {
    var x :| x in heap && x.iD == u && x.cost == cost;
    var j :| 0 <= j < |heap| && heap[j] == x;
    assert x == Without(heap, i)[if j < i then j else j - 1];
  }

  lemma StillWaiting(heap: seq<SetElem>, i: nat, u: NodeId)
    requires i < |heap| && Waiting(heap, u) && heap[i].iD != u
    ensures Waiting(Without(heap, i), u)
  {
    var x :| x in heap && x.iD == u;
    var j :| 0 <= j < |heap| && heap[j] == x;
    assert x == Without(heap, i)[if j < i then j else j - 1];
  }

  lemma BackedPerm(links: Links, root: NodeId, routes: Routes, walks: map<NodeId, Walk>, v: NodeId)
    requires Backed(links, root, routes, walks) && v in routes
    ensures Backed(links, root, routes[v := routes[v].(tag := Perm)], walks)
  {}

  // Taking a node off the queue and making it permanent.
  lemma SpanExpand(links: Links, root: NodeId, routes: Routes, walks: map<NodeId, Walk>, done: set<NodeId>,
      heap: seq<SetElem>, i: nat)
    requires i < |heap| && Spanning(links, links, root, routes, walks, done, heap) && heap[i].iD !in done
    ensures var v := heap[i].iD;
      v in routes && Spanning(links, links[v := []], root, routes[v := routes[v].(tag := Perm)], walks, done + {v},
        Without(heap, i))
  {
    hide Backed, Waiting;
    var v, heap' := heap[i].iD, Without(heap, i);
    assert heap[i] in heap;
    var routes' := routes[v := routes[v].(tag := Perm)];
    BackedPerm(links, root, routes, walks, v);
    forall u | u in routes' && u !in done + {v} ensures Waiting(heap', u) {
      StillWaiting(heap, i, u);
    }
    forall u, e | u in done + {v} && HasEdge(links[v := []], u, e) ensures e.last in routes' {
      assert HasEdge(links, u, e);
    }
    assert root !in done ==> v == root && heap' == [] by {
      RootWaits(links, root, routes, walks, done, heap);
    }
  }

  // Until the root is expanded it is all there is.
  lemma RootWaits(links: Links, root: NodeId, routes: Routes, walks: map<NodeId, Walk>, done: set<NodeId>,
      heap: seq<SetElem>)
    requires Spanning(links, links, root, routes, walks, done, heap)
    ensures root !in done ==> |heap| == 1 && forall x :: x in heap ==> x.iD == root
  {}

  lemma Expand(m: Method, links: Links, root: NodeId, routes: Routes, walks: map<NodeId, Walk>, done: set<NodeId>,
      heap: seq<SetElem>, i: nat)
    requires i < |heap| && Searching(m, links, links, root, routes, walks, done, heap) && Suited(m, links)
    requires heap[i].iD !in done && forall y :: y in heap ==> heap[i].cost <= y.cost
    ensures var v := heap[i].iD;
      v in routes && Searching(m, links, links[v := []], root, routes[v := routes[v].(tag := Perm)], walks, done + {v},
        Without(heap, i))
  {
    hide Spanning, Relaxed, Queued, Optimal, Suited;
    PoppedIsOptimal(m, links, root, routes, walks, done, heap, heap[i]);
    SpanExpand(links, root, routes, walks, done, heap, i);
    var v, heap' := heap[i].iD, Without(heap, i);
    var routes' := routes[v := routes[v].(tag := Perm)];
    forall u | u in routes' && u !in done + {v} ensures Queued(heap', u, routes'[u].cost) {
      StillQueued(heap, i, u, routes[u].cost);
    }
    forall u, e | u in done + {v} && HasEdge(links[v := []], u, e) ensures Relaxed(m, links, routes', u, e) {
      assert HasEdge(links, u, e) && Relaxed(m, links, routes, u, e);
      SameRelaxed(m, links, routes, v, u, e);
    }
  }

  lemma SameRelaxed(m: Method, links: Links, routes: Routes, v: NodeId, u: NodeId, e: Edge)
    requires v in routes && u in routes && Relaxed(m, links, routes, u, e)
    ensures Relaxed(m, links, routes[v := routes[v].(tag := Perm)], u, e)
  {}

  lemma QueuedMore(heap: seq<SetElem>, x: SetElem, u: NodeId, cost: real)
    ensures Queued(heap + [x], x.iD, x.cost)
    ensures Queued(heap, u, cost) ==> Queued(heap + [x], u, cost)
  {
    assert (heap + [x])[|heap|] == x;
    if Queued(heap, u, cost) {
      var y :| y in heap && y.iD == u && y.cost == cost;
      assert y in heap + [x];
    }
  }

  // Dropping an element of a node that is already expanded.
  lemma SpanSkip(links: Links, root: NodeId, routes: Routes, walks: map<NodeId, Walk>, done: set<NodeId>,
      heap: seq<SetElem>, i: nat)
    requires i < |heap| && Spanning(links, links, root, routes, walks, done, heap) && heap[i].iD in done
    ensures Spanning(links, links, root, routes, walks, done, Without(heap, i))
  {
    hide Backed, Waiting;
    assert heap[i] in heap;
    RootWaits(links, root, routes, walks, done, heap);
    forall u | u in routes && u !in done ensures Waiting(Without(heap, i), u) {
      StillWaiting(heap, i, u);
    }
  }

  lemma Skip(m: Method, links: Links, root: NodeId, routes: Routes, walks: map<NodeId, Walk>, done: set<NodeId>,
      heap: seq<SetElem>, i: nat)
    requires i < |heap| && Searching(m, links, links, root, routes, walks, done, heap) && heap[i].iD in done
    ensures Searching(m, links, links, root, routes, walks, done, Without(heap, i))
  {
    hide Spanning, Relaxed, Queued;
    SpanSkip(links, root, routes, walks, done, heap, i);
    forall u | u in routes && u !in done ensures Queued(Without(heap, i), u, routes[u].cost) {
      StillQueued(heap, i, u, routes[u].cost);
    }
  }

  // The edges relaxed while v, the last node expanded, has its first n edges done.
  ghost function FirstEdges(links: Links, v: NodeId, n: nat): Links
    requires v in links && n <= |links[v]|
  {
    links[v := links[v][..n]]
  }

  // What following the edge e out of v offers e.last.
  function Offer(routes: Routes, v: NodeId, e: Edge): State
    requires v in routes
  {
    State(routes[v].cost + e.cost, Min(e.concave, routes[v].concave), v, Tent)
  }

  lemma BackedOffer(links: Links, root: NodeId, routes: Routes, walks: map<NodeId, Walk>, v: NodeId, e: Edge)
    requires Backed(links, root, routes, walks) && v in routes && routes[v].tag == Perm && HasEdge(links, v, e)
    requires e.last in routes ==> routes[e.last].tag == Tent
    ensures Backed(links, root, routes[e.last := Offer(routes, v, e)], walks[e.last := Go(walks[v], v, e)])
  {}

  lemma RelaxedOffer(m: Method, links: Links, routes: Routes, v: NodeId, e: Edge, u: NodeId, f: Edge)
    requires v in routes && u in routes && u != e.last
    requires Relaxed(m, links, routes, u, f) || (u == v && f == e)
    requires var s := Offer(routes, v, e);
      e.last in routes ==> Better(m, s.cost, s.concave, routes[e.last].cost, routes[e.last].concave)
    requires !m.ShortestWidest?
    ensures Relaxed(m, links, routes[e.last := Offer(routes, v, e)], u, f)
  {}

  lemma EdgeCost(m: Method, links: Links, v: NodeId, n: nat)
    requires v in links && n < |links[v]| && Suited(m, links)
    ensures HasEdge(links, v, links[v][n]) && 0.0 <= links[v][n].cost && !m.ShortestWidest?
  {
    assert HasEdge(links, v, links[v][n]);
  }

  lemma BetterCost(m: Method, routes: Routes, v: NodeId, e: Edge)
    requires v in routes && e.last in routes && !m.ShortestWidest?
    ensures var s := Offer(routes, v, e); Better(m, s.cost, s.concave, routes[e.last].cost, routes[e.last].concave) ==>
      s.cost <= routes[e.last].cost
  {}

  lemma WaitingMore(heap: seq<SetElem>, x: SetElem, u: NodeId)
    ensures Waiting(heap + [x], x.iD)
    ensures Waiting(heap, u) ==> Waiting(heap + [x], u)
  {
    assert (heap + [x])[|heap|] == x;
    if y :| y in heap && y.iD == u {
      assert y in heap + [x];
    }
  }

  lemma OneEdgeMore(links: Links, v: NodeId, n: nat)
    requires v in links && n < |links[v]|
    ensures HasEdge(links, v, links[v][n])
    ensures forall u, f :: HasEdge(FirstEdges(links, v, n + 1), u, f) ==>
      HasEdge(FirstEdges(links, v, n), u, f) || (u == v && f == links[v][n])
  {}

  // Following an edge from v to a node without a final label.
  lemma SpanOffer(links: Links, root: NodeId, routes: Routes, walks: map<NodeId, Walk>, done: set<NodeId>,
      heap: seq<SetElem>, v: NodeId, n: nat, x: SetElem)
    requires v in links && n < |links[v]| && v in done
      && Spanning(links, FirstEdges(links, v, n), root, routes, walks, done, heap)
    requires var e := links[v][n]; x.iD == e.last && (e.last in routes ==> routes[e.last].tag == Tent)
    ensures var e := links[v][n];
      Spanning(links, FirstEdges(links, v, n + 1), root, routes[e.last := Offer(routes, v, e)],
        walks[e.last := Go(walks[v], v, e)], done, heap + [x])
  {
    hide Backed, Waiting, FirstEdges;
    var e := links[v][n];
    OneEdgeMore(links, v, n);
    BackedFacts(links, root, routes, walks);
    BackedOffer(links, root, routes, walks, v, e);
    forall u | (u in routes || u == e.last) && u !in done ensures Waiting(heap + [x], u) {
      WaitingMore(heap, x, u);
    }
  }

  lemma BackedFacts(links: Links, root: NodeId, routes: Routes, walks: map<NodeId, Walk>)
    requires Backed(links, root, routes, walks)
    ensures root in routes && walks.Keys == routes.Keys && routes[root].tag == Perm
  {}

  // Following an edge that changes nothing.
  lemma SpanPass(links: Links, root: NodeId, routes: Routes, walks: map<NodeId, Walk>, done: set<NodeId>,
      heap: seq<SetElem>, v: NodeId, n: nat)
    requires v in links && n < |links[v]| && v in done
      && Spanning(links, FirstEdges(links, v, n), root, routes, walks, done, heap)
    requires links[v][n].last in routes
    ensures Spanning(links, FirstEdges(links, v, n + 1), root, routes, walks, done, heap)
  {
    hide Backed, Waiting, FirstEdges;
    OneEdgeMore(links, v, n);
  }

  // Following an edge from v to a node without a label, or with a worse tentative one.
  lemma Improve(m: Method, links: Links, root: NodeId, routes: Routes, walks: map<NodeId, Walk>, done: set<NodeId>,
      heap: seq<SetElem>, v: NodeId, n: nat, x: SetElem)
    requires v in links && n < |links[v]| && v in done
    requires Searching(m, links, FirstEdges(links, v, n), root, routes, walks, done, heap) && Suited(m, links)
    requires forall u :: u in done ==> routes[u].cost <= routes[v].cost
    requires var e, s := links[v][n], Offer(routes, v, links[v][n]);
      x.iD == e.last && x.cost == s.cost
      && (e.last in routes ==>
        routes[e.last].tag == Tent && Better(m, s.cost, s.concave, routes[e.last].cost, routes[e.last].concave))
    ensures var e := links[v][n];
      Searching(m, links, FirstEdges(links, v, n + 1), root, routes[e.last := Offer(routes, v, e)],
        walks[e.last := Go(walks[v], v, e)], done, heap + [x])
  {
    hide Spanning, Relaxed, Better, Queued, Suited, FirstEdges;
    var e := links[v][n];
    var routes', heap' := routes[e.last := Offer(routes, v, e)], heap + [x];
    EdgeCost(m, links, v, n);
    if e.last in routes {
      BetterCost(m, routes, v, e);
      DoneIsPerm(links, FirstEdges(links, v, n), root, routes, walks, done, heap, e.last);
    }
    SpanOffer(links, root, routes, walks, done, heap, v, n, x);
    forall u | u in routes' && u !in done ensures Queued(heap', u, routes'[u].cost) {
      QueuedMore(heap, x, u, if u in routes then routes[u].cost else x.cost);
    }
    OneEdgeMore(links, v, n);
    forall u, f | u in done && HasEdge(FirstEdges(links, v, n + 1), u, f) ensures Relaxed(m, links, routes', u, f) {
      RelaxedOffer(m, links, routes, v, e, u, f);
    }
  }

  lemma DoneIsPerm(links: Links, rel: Links, root: NodeId, routes: Routes, walks: map<NodeId, Walk>, done: set<NodeId>,
      heap: seq<SetElem>, v: NodeId)
    requires Spanning(links, rel, root, routes, walks, done, heap) && v in routes && routes[v].tag == Tent
    ensures v !in done
  {}

  // Following an edge that improves nothing.
  lemma Pass(m: Method, links: Links, root: NodeId, routes: Routes, walks: map<NodeId, Walk>, done: set<NodeId>,
      heap: seq<SetElem>, v: NodeId, n: nat)
    requires v in links && n < |links[v]| && v in done
    requires Searching(m, links, FirstEdges(links, v, n), root, routes, walks, done, heap) && Suited(m, links)
    requires forall u :: u in done ==> routes[u].cost <= routes[v].cost
    requires var e, s := links[v][n], Offer(routes, v, links[v][n]);
      && e.last in routes
      && (routes[e.last].tag == Perm || !Better(m, s.cost, s.concave, routes[e.last].cost, routes[e.last].concave))
    ensures Searching(m, links, FirstEdges(links, v, n + 1), root, routes, walks, done, heap)
  {
    var e := links[v][n];
    assert Relaxed(m, links, routes, v, e) by {
      OneEdgeMore(links, v, n);
      PassedRelaxed(m, links, root, routes, walks, done, heap, v, n);
    }
    hide Spanning, Relaxed, Better, Queued, FirstEdges;
    SpanPass(links, root, routes, walks, done, heap, v, n);
    OneEdgeMore(links, v, n);
  }

  lemma PassedRelaxed(m: Method, links: Links, root: NodeId, routes: Routes, walks: map<NodeId, Walk>,
      done: set<NodeId>, heap: seq<SetElem>, v: NodeId, n: nat)
    requires v in links && n < |links[v]| && v in done
    requires Searching(m, links, FirstEdges(links, v, n), root, routes, walks, done, heap) && Suited(m, links)
    requires forall u :: u in done ==> routes[u].cost <= routes[v].cost
    requires var e, s := links[v][n], Offer(routes, v, links[v][n]);
      && e.last in routes
      && (routes[e.last].tag == Perm || !Better(m, s.cost, s.concave, routes[e.last].cost, routes[e.last].concave))
    ensures Relaxed(m, links, routes, v, links[v][n])
  {
    hide Queued, FirstEdges;
    assert HasEdge(links, v, links[v][n]);
  }

  lemma {:induction false} WalksStayInUniverse(links: Links, root: NodeId, w: Walk)
    requires IsWalk(links, root, w)
    ensures End(root, w) in Universe(links, root)
  {
    if w.Go? {
      assert HasEdge(links, w.from, w.e);
    }
  }

  // An exhausted queue means every reachable node has a final label.
  lemma {:induction false} AllReached(links: Links, root: NodeId, routes: Routes, walks: map<NodeId, Walk>,
      done: set<NodeId>, w: Walk)
    requires Spanning(links, links, root, routes, walks, done, []) && IsWalk(links, root, w)
    ensures End(root, w) in routes && End(root, w) in done
  {
    assert forall v :: v in routes && v !in done ==> Waiting([], v);
    if w.Go? {
      AllReached(links, root, routes, walks, done, w.walk);
      assert HasEdge(links, w.from, w.e);
    }
  }

  ghost predicate FinalLabels(m: Method, links: Links, root: NodeId, routes: Routes) {
    forall v :: v in routes && routes[v].tag == Perm ==> Optimal(m, links, root, routes, v)
  }

  lemma SpanStarted(links: Links, root: NodeId)
    ensures var routes := map[root := State(0.0, DBL_MAX, Undefined, Perm)];
      Spanning(links, links, root, routes, map[root := Here], {}, [SetElem(root, 0.0, 0.0)])
  {
    var heap := [SetElem(root, 0.0, 0.0)];
    assert heap[0] in heap;
  }

  lemma Started(m: Method, links: Links, root: NodeId)
    requires Suited(m, links)
    ensures var routes := map[root := State(0.0, DBL_MAX, Undefined, Perm)];
      Searching(m, links, links, root, routes, map[root := Here], {}, [SetElem(root, 0.0, 0.0)])
        && FinalLabels(m, links, root, routes)
  {
    var routes, heap := map[root := State(0.0, DBL_MAX, Undefined, Perm)], [SetElem(root, 0.0, 0.0)];
    assert heap[0] in heap;
    SpanStarted(links, root);
    assert Searching(m, links, links, root, routes, map[root := Here], {}, heap);
    PoppedIsOptimal(m, links, root, routes, map[root := Here], {}, heap, heap[0]);
  }

  // The state of the search as far as the costs allow.
  ghost predicate Running(m: Method, links: Links, rel: Links, root: NodeId, routes: Routes, walks: map<NodeId, Walk>,
      done: set<NodeId>, heap: seq<SetElem>) {
    Spanning(links, rel, root, routes, walks, done, heap)
      && (Suited(m, links) ==> Searching(m, links, rel, root, routes, walks, done, heap))
  }

  // v has just become permanent, and its edges are still to be followed.
  ghost predicate Permanent(m: Method, links: Links, root: NodeId, routes: Routes, walks: map<NodeId, Walk>,
      done: set<NodeId>, heap: seq<SetElem>, v: NodeId) {
    && v !in done && Running(m, links, links[v := []], root, routes, walks, done + {v}, heap)
    && Backed(links, root, routes, walks)
    && (Suited(m, links) ==>
      FinalLabels(m, links, root, routes)
      && forall u :: u in done + {v} ==> u in routes && routes[u].cost <= routes[v].cost)
  }

  // One element leaves the queue: it is stale, or its node becomes permanent.
  lemma Popped(m: Method, links: Links, root: NodeId, routes: Routes, walks: map<NodeId, Walk>, done: set<NodeId>,
      heap: seq<SetElem>, i: nat)
    requires i < |heap| && Running(m, links, links, root, routes, walks, done, heap)
    requires Suited(m, links) ==>
      FinalLabels(m, links, root, routes) && forall y :: y in heap ==> heap[i].cost <= y.cost
    ensures var v := heap[i].iD;
      && v in routes && v in Universe(links, root) && Reaches(links, root, v)
      && var routes' := routes[v := routes[v].(tag := Perm)];
      && (if v != root && routes[v].tag == Perm
          then Running(m, links, links, root, routes, walks, done, Without(heap, i))
          else Permanent(m, links, root, routes', walks, done, Without(heap, i), v))
  {
    hide Backed, Priced, Suited, FinalLabels, Relaxed, Waiting, Searching, Universe, Reaches, Without, Queued;
    var v := heap[i].iD;
    assert heap[i] in heap && v in routes;
    LabelReached(links, root, routes, walks, v);
    if v != root && routes[v].tag == Perm {
      SpanSkip(links, root, routes, walks, done, heap, i);
      if Suited(m, links) {
        Skip(m, links, root, routes, walks, done, heap, i);
      }
    } else {
      assert v !in done;
      SpanExpand(links, root, routes, walks, done, heap, i);
      BackedPerm(links, root, routes, walks, v);
      if Suited(m, links) {
        PoppedFinal(m, links, root, routes, walks, done, heap, i);
      }
    }
  }

  // A walk to a node, not the target, without a link entry.
  ghost predicate Blocks(links: Links, root: NodeId, target: NodeId, w: Walk) {
    IsWalk(links, root, w) && End(root, w) !in links && End(root, w) != target
  }

  // Walk w costs no more than any to the target.
  ghost predicate NoFarther(links: Links, root: NodeId, target: NodeId, w: Walk) {
    forall x :: IsWalk(links, root, x) && End(root, x) == target ==> Cost(w) <= Cost(x)
  }

  // No walk to a node not in `done` costs less than d.
  ghost predicate Nearest(links: Links, root: NodeId, done: set<NodeId>, d: real) {
    forall w :: IsWalk(links, root, w) && End(root, w) !in done ==> d <= Cost(w)
  }

  // What is known when v leaves the queue.
  lemma NextIsNearest(m: Method, links: Links, root: NodeId, routes: Routes, walks: map<NodeId, Walk>,
      done: set<NodeId>, heap: seq<SetElem>, i: nat)
    requires i < |heap| && Running(m, links, links, root, routes, walks, done, heap)
    requires Suited(m, links) ==> forall y :: y in heap ==> heap[i].cost <= y.cost
    ensures var v := heap[i].iD;
      && v in routes && v in walks && IsWalk(links, root, walks[v]) && End(root, walks[v]) == v
      && routes[v].cost == Cost(walks[v])
      && ((v != root && routes[v].tag == Perm) || v !in done)
      && (v !in done && Suited(m, links) ==> Nearest(links, root, done, routes[v].cost))
    ensures forall u :: u in routes && routes[u].tag == Perm && u !in done ==> u == root == heap[i].iD
  {
    hide Relaxed, Waiting, Queued, Optimal, Suited;
    assert heap[i] in heap;
    if heap[i].iD !in done && Suited(m, links) {
      PoppedIsOptimal(m, links, root, routes, walks, done, heap, heap[i]);
      forall w | IsWalk(links, root, w) && End(root, w) !in done ensures routes[heap[i].iD].cost <= Cost(w) {
        Settled(m, links, root, routes, walks, done, heap, heap[i].cost, w);
      }
    }
  }

  lemma WalkReaches(links: Links, root: NodeId, w: Walk)
    requires IsWalk(links, root, w)
    ensures Reaches(links, root, End(root, w))
  {}

  // Final labels, spelled out.
  lemma FinalMeans(m: Method, links: Links, root: NodeId, routes: Routes)
    ensures FinalLabels(m, links, root, routes) ==>
      forall v, w :: v in routes && routes[v].tag == Perm && IsWalk(links, root, w) && End(root, w) == v ==>
        && routes[v].cost <= Cost(w)
        && (m == WidestShortest && routes[v].cost == Cost(w) ==> routes[v].concave >= Width(w))
  {
    hide IsWalk, Cost, Width, End;
  }

  lemma LabelReached(links: Links, root: NodeId, routes: Routes, walks: map<NodeId, Walk>, v: NodeId)
    requires Backed(links, root, routes, walks) && v in routes
    ensures v in Universe(links, root) && Reaches(links, root, v)
  {
    assert IsWalk(links, root, walks[v]) && End(root, walks[v]) == v;
    WalksStayInUniverse(links, root, walks[v]);
  }

  lemma PoppedFinal(m: Method, links: Links, root: NodeId, routes: Routes, walks: map<NodeId, Walk>, done: set<NodeId>,
      heap: seq<SetElem>, i: nat)
    requires i < |heap| && Searching(m, links, links, root, routes, walks, done, heap) && Suited(m, links)
    requires heap[i].iD !in done && forall y :: y in heap ==> heap[i].cost <= y.cost
    requires FinalLabels(m, links, root, routes)
    ensures var v := heap[i].iD;
      && v in routes
      && var routes' := routes[v := routes[v].(tag := Perm)];
      && Searching(m, links, links[v := []], root, routes', walks, done + {v}, Without(heap, i))
      && FinalLabels(m, links, root, routes')
      && forall u :: u in done + {v} ==> u in routes' && routes'[u].cost <= routes'[v].cost
  {
    hide Spanning, Relaxed, Queued, Optimal, FinalLabels, Suited;
    var v := heap[i].iD;
    PoppedIsOptimal(m, links, root, routes, walks, done, heap, heap[i]);
    Expand(m, links, root, routes, walks, done, heap, i);
    OnePermMore(m, links, root, routes, v);
  }

  lemma OnePermMore(m: Method, links: Links, root: NodeId, routes: Routes, v: NodeId)
    requires FinalLabels(m, links, root, routes) && v in routes && Optimal(m, links, root, routes, v)
    ensures FinalLabels(m, links, root, routes[v := routes[v].(tag := Perm)])
  {
    var routes' := routes[v := routes[v].(tag := Perm)];
    forall u | u in routes' && routes'[u].tag == Perm ensures Optimal(m, links, root, routes', u) {
      assert Optimal(m, links, root, routes, u);
    }
  }

  lemma KeptFinal(m: Method, links: Links, root: NodeId, routes: Routes, routes': Routes)
    requires FinalLabels(m, links, root, routes)
    requires forall u :: u in routes' && routes'[u].tag == Perm ==> u in routes && routes'[u] == routes[u]
    ensures FinalLabels(m, links, root, routes')
  {}

  // An empty queue: every label is final, and exactly the reachable nodes have one.
  lemma Exhausted(links: Links, root: NodeId, routes: Routes, walks: map<NodeId, Walk>, done: set<NodeId>)
    requires Spanning(links, links, root, routes, walks, done, [])
    ensures Backed(links, root, routes, walks) && done == routes.Keys
    ensures forall v :: v in routes ==> routes[v].tag == Perm
    ensures forall v :: v in routes <==> Reaches(links, root, v)
  {
    assert forall v :: v in routes && v !in done ==> Waiting([], v);
    forall v | Reaches(links, root, v) ensures v in routes {
      var w :| IsWalk(links, root, w) && End(root, w) == v;
      AllReached(links, root, routes, walks, done, w);
    }
    forall v | v in routes ensures Reaches(links, root, v) {
      assert IsWalk(links, root, walks[v]) && End(root, walks[v]) == v;
    }
  }

  lemma RunStarts(m: Method, links: Links, root: NodeId)
    ensures var routes := map[root := State(0.0, DBL_MAX, Undefined, Perm)];
      && Running(m, links, links, root, routes, map[root := Here], {}, [SetElem(root, 0.0, 0.0)])
      && (Suited(m, links) ==> FinalLabels(m, links, root, routes))
  {
    hide Spanning, Searching, Suited, FinalLabels;
    SpanStarted(links, root);
    if Suited(m, links) {
      Started(m, links, root);
    }
  }

  lemma RunEnds(m: Method, links: Links, root: NodeId, routes: Routes, walks: map<NodeId, Walk>, done: set<NodeId>)
    requires Running(m, links, links, root, routes, walks, done, [])
    ensures Backed(links, root, routes, walks) && done == routes.Keys
    ensures forall v :: v in routes ==> routes[v].tag == Perm
    ensures forall v :: v in routes <==> Reaches(links, root, v)
  {
    hide Spanning, Searching, Suited;
    Exhausted(links, root, routes, walks, done);
  }

  lemma DoneLabelled(m: Method, links: Links, rel: Links, root: NodeId, routes: Routes, walks: map<NodeId, Walk>,
      done: set<NodeId>, heap: seq<SetElem>)
    requires Running(m, links, rel, root, routes, walks, done, heap)
    ensures done <= routes.Keys
  {
    hide Searching, Suited;
  }

  lemma RunImprove(m: Method, links: Links, root: NodeId, routes: Routes, walks: map<NodeId, Walk>, done: set<NodeId>,
      heap: seq<SetElem>, v: NodeId, n: nat, x: SetElem)
    requires v in links && n < |links[v]| && v in done && v in routes
    requires Running(m, links, FirstEdges(links, v, n), root, routes, walks, done, heap)
    requires Suited(m, links) ==> forall u :: u in done ==> u in routes && routes[u].cost <= routes[v].cost
    requires var e, s := links[v][n], Offer(routes, v, links[v][n]);
      x.iD == e.last && x.cost == s.cost
      && (e.last in routes ==>
        routes[e.last].tag == Tent && Better(m, s.cost, s.concave, routes[e.last].cost, routes[e.last].concave))
    ensures var e := links[v][n];
      v in walks && Running(m, links, FirstEdges(links, v, n + 1), root, routes[e.last := Offer(routes, v, e)],
        walks[e.last := Go(walks[v], v, e)], done, heap + [x])
  {
    hide Searching, Suited, FirstEdges, Better;
    SpanOffer(links, root, routes, walks, done, heap, v, n, x);
    if Suited(m, links) {
      Improve(m, links, root, routes, walks, done, heap, v, n, x);
    }
  }

  lemma RunPass(m: Method, links: Links, root: NodeId, routes: Routes, walks: map<NodeId, Walk>, done: set<NodeId>,
      heap: seq<SetElem>, v: NodeId, n: nat)
    requires v in links && n < |links[v]| && v in done && v in routes
    requires Running(m, links, FirstEdges(links, v, n), root, routes, walks, done, heap)
    requires Suited(m, links) ==> forall u :: u in done ==> u in routes && routes[u].cost <= routes[v].cost
    requires var e, s := links[v][n], Offer(routes, v, links[v][n]);
      && e.last in routes
      && (routes[e.last].tag == Perm || !Better(m, s.cost, s.concave, routes[e.last].cost, routes[e.last].concave))
    ensures Running(m, links, FirstEdges(links, v, n + 1), root, routes, walks, done, heap)
  {
    hide Searching, Suited, FirstEdges, Better;
    SpanPass(links, root, routes, walks, done, heap, v, n);
    if Suited(m, links) {
      Pass(m, links, root, routes, walks, done, heap, v, n);
    }
  }

  // The element that none beats costs least, for the methods that minimise cost.
  lemma LeastCost(m: Method, links: Links, heap: seq<SetElem>, i: nat)
    requires i < |heap|
      && forall j :: 0 <= j < |heap| ==> !Better(m, heap[j].cost, heap[j].concave, heap[i].cost, heap[i].concave)
    ensures Suited(m, links) ==> forall y :: y in heap ==> heap[i].cost <= y.cost
  {}

  class Dijkstra {
    var kind: Method
    var linkArray: Links
    var routeMap: Routes
    var rootNode: NodeId

    // The queue's first least element, under the method's order.
    method FindMin(heap: seq<SetElem>) returns (i: nat)
      requires heap != []
      ensures i < |heap|
      ensures forall j :: 0 <= j < |heap| ==>
        !Better(kind, heap[j].cost, heap[j].concave, heap[i].cost, heap[i].concave)
      ensures forall j :: 0 <= j < |heap| ==>
        var x, y := heap[i], heap[j];
        match kind
        case WidestShortest => x.cost < y.cost || (x.cost == y.cost && x.concave >= y.concave)
        case ShortestWidest => x.concave > y.concave || (x.concave == y.concave && x.cost <= y.cost)
        case _ => x.cost <= y.cost
      ensures forall j :: 0 <= j < i ==> Better(kind, heap[i].cost, heap[i].concave, heap[j].cost, heap[j].concave)
    {
      i := 0;
      for k := 0 to |heap|
        invariant i < |heap| && (i < k || i == k == 0)
        invariant forall j :: 0 <= j < k ==> !Better(kind, heap[j].cost, heap[j].concave, heap[i].cost, heap[i].concave)
        invariant forall j :: 0 <= j < i ==> Better(kind, heap[i].cost, heap[i].concave, heap[j].cost, heap[j].concave)
      {
        if Better(kind, heap[k].cost, heap[k].concave, heap[i].cost, heap[i].concave) {
          i := k;
        }
      }
    }

    // One edge of the node being expanded.
    method RelaxEdge(links: Links, root: NodeId, routes: Routes, heap: seq<SetElem>, v: NodeId, n: nat,
        ghost walks: map<NodeId, Walk>, ghost done: set<NodeId>)
      returns (routes': Routes, heap': seq<SetElem>, ghost walks': map<NodeId, Walk>)
      requires v in links && n < |links[v]| && v in done && v in routes
      requires Running(kind, links, FirstEdges(links, v, n), root, routes, walks, done, heap)
      requires Suited(kind, links) ==> forall u :: u in done ==> u in routes && routes[u].cost <= routes[v].cost
      ensures Running(kind, links, FirstEdges(links, v, n + 1), root, routes', walks', done, heap')
      ensures forall u :: u in done ==> u in routes' && u in routes && routes'[u] == routes[u]
      ensures forall u :: u in routes' && routes'[u].tag == Perm ==> u in routes && routes'[u] == routes[u]
    {
      routes', heap', walks' := routes, heap, walks;
      var e := links[v][n];
      var cost, cost2 := e.cost + routes[v].cost, Min(e.concave, routes[v].concave);
      hide Searching, FirstEdges, Suited, Better, Waiting, Backed;
      BackedFacts(links, root, routes, walks);
      if e.last !in routes {
        RunImprove(kind, links, root, routes, walks, done, heap, v, n, SetElem(e.last, cost, cost2));
        routes' := routes[e.last := State(cost, cost2, v, Tent)];
        heap' := heap + [SetElem(e.last, cost, cost2)];
        walks' := walks[e.last := Go(walks[v], v, e)];
      } else if routes[e.last].tag != Perm && Better(kind, cost, cost2, routes[e.last].cost, routes[e.last].concave) {
        RunImprove(kind, links, root, routes, walks, done, heap, v, n, SetElem(e.last, cost, 0.0));
        routes' := routes[e.last := State(cost, cost2, v, Tent)];
        heap' := heap + [SetElem(e.last, cost, 0.0)];
        walks' := walks[e.last := Go(walks[v], v, e)];
      } else {
        RunPass(kind, links, root, routes, walks, done, heap, v, n);
      }
    }

    // The edges of the node just made permanent, one after the other.
    method RelaxEdges(links: Links, root: NodeId, routes: Routes, heap: seq<SetElem>, v: NodeId,
        ghost walks: map<NodeId, Walk>, ghost done: set<NodeId>)
      returns (routes': Routes, heap': seq<SetElem>, ghost walks': map<NodeId, Walk>)
      requires v in links && v in done && v in routes
      requires Running(kind, links, links[v := []], root, routes, walks, done, heap)
      requires Suited(kind, links) ==> forall u :: u in done ==> u in routes && routes[u].cost <= routes[v].cost
      ensures Running(kind, links, links, root, routes', walks', done, heap')
      ensures forall u :: u in routes' && routes'[u].tag == Perm ==> u in routes && routes'[u] == routes[u]
    {
      assert links[v][..0] == [] && FirstEdges(links, v, 0) == links[v := []];
      assert links[v][..|links[v]|] == links[v] && FirstEdges(links, v, |links[v]|) == links;
      hide Running, Suited, FirstEdges;
      routes', heap', walks' := routes, heap, walks;
      DoneLabelled(kind, links, links[v := []], root, routes, walks, done, heap);
      for n := 0 to |links[v]|
        invariant Running(kind, links, FirstEdges(links, v, n), root, routes', walks', done, heap')
        invariant forall u :: u in done ==> u in routes' && u in routes && routes'[u] == routes[u]
        invariant forall u :: u in routes' && routes'[u].tag == Perm ==> u in routes && routes'[u] == routes[u]
      {
        routes', heap', walks' := RelaxEdge(links, root, routes', heap', v, n, walks', done);
      }
    }

    // Labels from `root`, until `target` is final or nothing is left to label.
    // A node without a link entry that is nearer than the target is met before
    // it, and one that is farther is not; the queue decides between equally far.
    method RunUntil(target: NodeId, root: NodeId, links: Links)
      returns (outcome: Outcome, routes: Routes, ghost walks: map<NodeId, Walk>)
      ensures outcome == NodeNotFound <==> root !in links
      ensures outcome == LinkNotFound ==>
        exists w :: Blocks(links, root, target, w) && (Suited(kind, links) ==> NoFarther(links, root, target, w))
      ensures outcome == Done && Suited(kind, links) ==>
        forall w :: Blocks(links, root, target, w) ==> target in routes && routes[target].cost <= Cost(w)
      ensures root in links && (forall v :: Reaches(links, root, v) && v != target ==> v in links) ==> outcome == Done
      ensures outcome != NodeNotFound ==> Backed(links, root, routes, walks)
      ensures outcome != NodeNotFound && Suited(kind, links) ==> FinalLabels(kind, links, root, routes)
      ensures outcome != NodeNotFound && Suited(kind, links) ==>
        forall v, w :: v in routes && routes[v].tag == Perm && IsWalk(links, root, w) && End(root, w) == v ==>
          && routes[v].cost <= Cost(w)
          && (kind == WidestShortest && routes[v].cost == Cost(w) ==> routes[v].concave >= Width(w))
      ensures outcome == LinkNotFound && target in routes ==> routes[target].tag == Tent
      ensures outcome == Done && target in routes ==> routes[target].tag == Perm
      ensures outcome == Done && target !in routes ==> forall v :: v in routes ==> routes[v].tag == Perm
      ensures outcome == Done && target !in routes ==> forall v :: v in routes <==> Reaches(links, root, v)
      ensures outcome == Done && target !in routes ==> forall v :: Reaches(links, root, v) ==> v in links
    {
      hide Running, Optimal, Backed, Suited, Relaxed, FinalLabels, Better, Spanning, Reaches, Universe;
      routes, walks := map[], map[];
      if root !in links {
        return NodeNotFound, routes, walks;
      }
      var heap := [SetElem(root, 0.0, 0.0)];
      routes := map[root := State(0.0, DBL_MAX, Undefined, Perm)];
      walks := map[root := Here];
      ghost var done: set<NodeId> := {};
      RunStarts(kind, links, root);
      while heap != []
        invariant Running(kind, links, links, root, routes, walks, done, heap) && target !in done && done <= links.Keys
        invariant Suited(kind, links) ==> FinalLabels(kind, links, root, routes)
        decreases Universe(links, root) - done, |heap|
      {
        var i := FindMin(heap);
        var v := heap[i].iD;
        LeastCost(kind, links, heap, i);
        NextIsNearest(kind, links, root, routes, walks, done, heap, i);
        Popped(kind, links, root, routes, walks, done, heap, i);
        heap := heap[..i] + heap[i + 1..];
        if v != root && routes[v].tag == Perm {
          continue;
        }
        routes := routes[v := routes[v].(tag := Perm)];
        FinalMeans(kind, links, root, routes);
        if target == v {
          return Done, routes, walks;
        }
        if v !in links {
          assert Blocks(links, root, target, walks[v]);
          WalkReaches(links, root, walks[v]);
          return LinkNotFound, routes, walks;
        }
        done := done + {v};
        ghost var before := routes;
        routes, heap, walks := RelaxEdges(links, root, routes, heap, v, walks, done);
        if Suited(kind, links) {
          KeptFinal(kind, links, root, before, routes);
        }
      }
      RunEnds(kind, links, root, routes, walks, done);
      FinalMeans(kind, links, root, routes);
      forall w | IsWalk(links, root, w) ensures End(root, w) in routes {
        WalkReaches(links, root, w);
      }
      outcome := Done;
    }

    // run: labels everything the root reaches, unless that is the undefined address.
    method Run() returns (outcome: Outcome, ghost walks: map<NodeId, Walk>)
      modifies this`routeMap
      ensures outcome == NodeNotFound <==> rootNode !in linkArray
      ensures outcome == LinkNotFound ==> exists v :: Reaches(linkArray, rootNode, v) && v !in linkArray
      ensures rootNode in linkArray && !Reaches(linkArray, rootNode, Undefined) ==>
        (outcome == LinkNotFound <==> exists v :: Reaches(linkArray, rootNode, v) && v !in linkArray)
      ensures outcome == Done ==> Backed(linkArray, rootNode, routeMap, walks)
      ensures outcome == Done && Suited(kind, linkArray) ==> FinalLabels(kind, linkArray, rootNode, routeMap)
      ensures outcome == Done && !Reaches(linkArray, rootNode, Undefined) ==>
        forall v :: (v in routeMap <==> Reaches(linkArray, rootNode, v))
          && (v in routeMap && Suited(kind, linkArray) ==> Optimal(kind, linkArray, rootNode, routeMap, v))
    {
      var routes;
      outcome, routes, walks := RunUntil(Undefined, rootNode, linkArray);
      routeMap := routes;
      if outcome == Done && Undefined in routes {
        assert IsWalk(linkArray, rootNode, walks[Undefined]);
      }
    }

    method SetRoot(node: NodeId)
      modifies this`rootNode
      ensures rootNode == node
    {
      rootNode := node;
    }

    // getRoute: the nodes from the root to nodeId along the predecessors, or
    // nothing for the root itself.
    method GetRoute(nodeId: NodeId, pathNode: seq<NodeId>, routes: Routes, ghost links: Links,
        ghost walks: map<NodeId, Walk>)
      returns (found: bool, pathNode': seq<NodeId>)
      requires Backed(links, rootNode, routes, walks)
      ensures found <==> nodeId in routes
      ensures !found ==> pathNode' == pathNode
      ensures found ==> pathNode' == if nodeId == rootNode then [] else Stops(rootNode, walks[nodeId])
    {
      if nodeId == rootNode {
        return true, [];
      }
      if nodeId !in routes {
        return false, pathNode;
      }
      BackedRoot(links, rootNode, routes, walks);
      assert Reversed([]) == [];
      hide Backed, Stops, Reversed;
      var path := [];
      var current := nodeId;
      while current != rootNode
        invariant current in routes
        invariant Stops(rootNode, walks[nodeId]) == Stops(rootNode, walks[current]) + Reversed(path)
        decreases walks[current]
      {
        BackedStep(links, rootNode, routes, walks, current);
        ReversedSnoc(path, current);
        Assoc(Stops(rootNode, walks[routes[current].idPrev]), [current], Reversed(path));
        path := path + [current];
        current := routes[current].idPrev;
      }
      ReversedSnoc(path, rootNode);
      path := path + [rootNode];
      pathNode' := Backwards(path);
      found := true;
    }

    // removeEdge: takes the first edge from origin to last out of its list.
    method RemoveEdge(origin: NodeId, last: NodeId, links: Links) returns (edge: Option<Edge>, links': Links)
      modifies this`routeMap
      ensures origin !in links || FirstTo(links[origin], last) == |links[origin]| ==>
        edge == None && links' == links && routeMap == old(routeMap)
      ensures origin in links && FirstTo(links[origin], last) < |links[origin]| ==>
        var es, i := links[origin], FirstTo(links[origin], last);
        edge == Some(es[i]) && links' == links[origin := es[..i] + es[i + 1..]] && routeMap == map[]
    {
      if origin in links {
        var es := links[origin];
        for i := 0 to |es|
          invariant forall j :: 0 <= j < i ==> es[j].last != last
        {
          if last == es[i].last {
            routeMap := map[];
            return Some(es[i]), links[origin := es[..i] + es[i + 1..]];
          }
        }
      }
      return None, links;
    }

    // addEdge: a known link takes the edge's cost, a new one is listed last.
    method AddEdge(origin: NodeId, edge: Edge, links: Links) returns (links': Links)
      modifies this`routeMap
      ensures routeMap == map[]
      ensures origin in links && FirstTo(links[origin], edge.last) < |links[origin]| ==>
        var es, i := links[origin], FirstTo(links[origin], edge.last);
        links' == links[origin := es[i := es[i].(cost := edge.cost)]]
      ensures origin in links && FirstTo(links[origin], edge.last) == |links[origin]| ==>
        links' == links[origin := links[origin] + [edge]]
      ensures origin !in links ==> links' == links[origin := [edge]]
    {
      routeMap := map[];
      if origin in links {
        var es := links[origin];
        for i := 0 to |es|
          invariant forall j :: 0 <= j < i ==> es[j].last != edge.last
        {
          if edge.last == es[i].last {
            return links[origin := es[i := es[i].(cost := edge.cost)]];
          }
        }
        return links[origin := es + [edge]];
      }
      return links[origin := [edge]];
    }

    // One round of discoverAllPartitionedLinks: is the i-th edge out of node a bridge?
    method TestLink(topo: Links, aux: Links, node: NodeId, last: NodeId) returns (has: bool, aux': Links)
      requires Simple(topo) && SameEdges(topo, aux) && Linked(topo, node, last) && rootNode == node
      modifies this`routeMap
      ensures SameEdges(topo, aux') && (!has <==> Bridge(topo, node, last))
    {
      hide *;
      EdgeListed(topo, aux, node, last);
      ghost var i := FirstTo(aux[node], last);
      RemovedIsCut(topo, aux, node, i);
      var edge, cut := RemoveEdge(node, last, aux);
      var outcome, routes;
      ghost var walks;
      outcome, routes, walks := RunUntil(last, node, cut);
      CutSearchEnds(topo, cut, node, last, outcome);
      var path;
      has, path := GetRoute(last, [], routes, cut, walks);
      CutDecides(topo, cut, node, last, routes, walks);
      aux' := AddEdge(node, edge.value, cut);
      PutBack(topo, aux, node, i);
    }

    // The body of discoverAllPartitionedLinks for the edge from node to last.
    method TestOnce(topo: Links, aux: Links, node: NodeId, last: NodeId, tested: seq<Pair>, pairs: seq<Pair>)
      returns (aux': Links, tested': seq<Pair>, pairs': seq<Pair>)
      requires Simple(topo) && SameEdges(topo, aux) && Linked(topo, node, last) && rootNode == node
      requires Reported(topo, tested, pairs)
      modifies this`routeMap
      ensures SameEdges(topo, aux') && Reported(topo, tested', pairs')
      ensures tested <= tested' && (node, last) in tested'
    {
      if (node, last) in tested {
        return aux, tested, pairs;
      }
      TestedBoth(topo, tested, pairs, node, last);
      hide Reported, SameEdges, Suited, Simple, Bridge, NoRepeats;
      var has;
      has, aux' := TestLink(topo, aux, node, last);
      pairs' := if has then pairs else pairs + [(node, last), (last, node)];
      tested' := tested + [(node, last), (last, node)];
      assert tested'[|tested|] == (node, last);
    }

    // discoverAllPartitionedLinks: adds both directions of every bridge of topo.
    method DiscoverAllPartitionedLinks(topo: Links, links: seq<Pair>) returns (links': seq<Pair>)
      requires Simple(topo)
      modifies this`routeMap, this`rootNode
      ensures links <= links' && NoRepeats(links'[|links|..])
      ensures forall u, v :: (u, v) in links'[|links|..] <==> Bridge(topo, u, v)
    {
      hide *;
      var aux: Links, pairs: seq<Pair>, tested: seq<Pair> := topo, [], [];
      var todo := topo.Keys;
      NothingTested(topo);
      while todo != {}
        invariant todo <= topo.Keys && SameEdges(topo, aux) && Reported(topo, tested, pairs)
        invariant AllTested(topo, todo, tested)
      {
        var node :| node in todo;
        assert todo == todo - {node} + {node};
        todo := todo - {node};
        SetRoot(node);
        NodeTested(topo, todo, tested, node);
        for i := 0 to |topo[node]|
          invariant SameEdges(topo, aux) && rootNode == node && Reported(topo, tested, pairs)
          invariant AllTested(topo[node := topo[node][..i]], todo, tested)
        {
          ghost var before := tested;
          EdgeLinks(topo, node, i);
          aux, tested, pairs := TestOnce(topo, aux, node, topo[node][i].last, tested, pairs);
          NextTested(topo, todo, before, tested, node, i);
        }
      }
      AllReported(topo, tested, pairs);
      links' := links + pairs;
      assert links'[|links|..] == pairs;
    }
  }

  type Pair = (NodeId, NodeId)

  // The tested pairs are edges, in both directions, and the bridges among them are the pairs found.
  ghost predicate Reported(topo: Links, tested: seq<Pair>, pairs: seq<Pair>) {
    && (forall u, v :: (u, v) in tested ==> Linked(topo, u, v) && (v, u) in tested)
    && (forall u, v :: (u, v) in pairs <==> (u, v) in tested && Bridge(topo, u, v))
    && NoRepeats(pairs)
  }

  // All edges are tested, except those out of the nodes still to do.
  ghost predicate AllTested(topo: Links, todo: set<NodeId>, tested: seq<Pair>) {
    forall u, e :: HasEdge(topo, u, e) && u !in todo ==> (u, e.last) in tested
  }

  lemma NothingTested(topo: Links)
    ensures SameEdges(topo, topo) && Reported(topo, [], []) && AllTested(topo, topo.Keys, [])
  {}

  lemma EdgeLinks(topo: Links, node: NodeId, i: nat)
    requires node in topo && i < |topo[node]|
    ensures Linked(topo, node, topo[node][i].last)
  {
    assert HasEdge(topo, node, topo[node][i]);
  }

  lemma NodeTested(topo: Links, todo: set<NodeId>, tested: seq<Pair>, node: NodeId)
    requires node in topo && AllTested(topo, todo + {node}, tested)
    ensures AllTested(topo[node := topo[node][..0]], todo, tested)
    ensures topo[node := topo[node][..|topo[node]|]] == topo
  {
    assert topo[node][..|topo[node]|] == topo[node];
    assert topo[node := topo[node]] == topo;
    forall u, e | HasEdge(topo[node := topo[node][..0]], u, e) && u !in todo ensures (u, e.last) in tested {
      assert HasEdge(topo, u, e) && u !in todo + {node};
    }
  }

  lemma NextTested(topo: Links, todo: set<NodeId>, tested: seq<Pair>, tested': seq<Pair>, node: NodeId, i: nat)
    requires node in topo && i < |topo[node]| && AllTested(topo[node := topo[node][..i]], todo, tested)
    requires tested <= tested' && (node, topo[node][i].last) in tested'
    ensures AllTested(topo[node := topo[node][..i + 1]], todo, tested')
  {
    forall u, e | HasEdge(topo[node := topo[node][..i + 1]], u, e) && u !in todo ensures (u, e.last) in tested' {
      if HasEdge(topo[node := topo[node][..i]], u, e) {
        assert (u, e.last) in tested;
      }
    }
  }

  lemma AllReported(topo: Links, tested: seq<Pair>, pairs: seq<Pair>)
    requires Reported(topo, tested, pairs) && AllTested(topo, {}, tested)
    ensures NoRepeats(pairs) && forall u, v :: (u, v) in pairs <==> Bridge(topo, u, v)
  {
    forall u, v | Bridge(topo, u, v) ensures (u, v) in tested {
      var e :| HasEdge(topo, u, e) && e.last == v;
    }
  }

  lemma TestedBoth(topo: Links, tested: seq<Pair>, pairs: seq<Pair>, u: NodeId, v: NodeId)
    requires Simple(topo) && Reported(topo, tested, pairs) && Linked(topo, u, v) && (u, v) !in tested
    ensures var tested' := tested + [(u, v), (v, u)];
      Reported(topo, tested', if Bridge(topo, u, v) then pairs + [(u, v), (v, u)] else pairs)
  {
    assert u != v && Linked(topo, v, u);
    assert (v, u) !in tested;
    if Bridge(topo, u, v) {
      BridgeBothWays(topo, u, v);
    } else if Bridge(topo, v, u) {
      BridgeBothWays(topo, v, u);
      assert false;
    }
  }

  lemma BackedStep(links: Links, root: NodeId, routes: Routes, walks: map<NodeId, Walk>, v: NodeId)
    requires Backed(links, root, routes, walks) && v in routes && v != root
    ensures var u := routes[v].idPrev;
      u in routes && walks[v].Go? && walks[v].walk == walks[u] && Stops(root, walks[v]) == Stops(root, walks[u]) + [v]
  {}

  lemma BackedRoot(links: Links, root: NodeId, routes: Routes, walks: map<NodeId, Walk>)
    requires Backed(links, root, routes, walks)
    ensures root in routes && walks.Keys == routes.Keys && walks[root] == Here && Stops(root, walks[root]) == [root]
  {}

  lemma EdgeListed(topo: Links, aux: Links, u: NodeId, v: NodeId)
    requires SameEdges(topo, aux) && Linked(topo, u, v)
    ensures aux.Keys == topo.Keys && u in aux && FirstTo(aux[u], v) < |aux[u]|
  {
    SameHasEdge(topo, aux);
    var e :| HasEdge(topo, u, e) && e.last == v;
    assert HasEdge(aux, u, e);
  }

  // The search on a simple graph minus an edge never meets a node without a list.
  lemma CutSearchEnds(topo: Links, cut: Links, u: NodeId, v: NodeId, outcome: Outcome)
    requires Simple(topo) && cut.Keys == topo.Keys && u in topo
    requires forall x, e :: HasEdge(cut, x, e) <==> HasEdge(Cut(topo, u, v), x, e)
    requires outcome == NodeNotFound <==> u !in cut
    requires outcome == LinkNotFound ==> exists x :: Reaches(cut, u, x) && x !in cut
    ensures outcome == Done
  {
    if outcome == LinkNotFound {
      var x :| Reaches(cut, u, x) && x !in cut;
      var w :| IsWalk(cut, u, w) && End(u, w) == x;
      CutEdges(topo, u, v);
      WalkInLarger(cut, topo, u, w);
      ReachedHasList(topo, u, x);
    }
  }

  // v is labelled exactly when it is still reachable, that is, when u -> v is no bridge.
  lemma CutDecides(topo: Links, cut: Links, u: NodeId, v: NodeId, routes: Routes, walks: map<NodeId, Walk>)
    requires Linked(topo, u, v) && forall x, e :: HasEdge(cut, x, e) <==> HasEdge(Cut(topo, u, v), x, e)
    requires Backed(cut, u, routes, walks)
    requires v !in routes ==> forall x :: x in routes <==> Reaches(cut, u, x)
    ensures v !in routes <==> Bridge(topo, u, v)
  {
    SameReaches(cut, Cut(topo, u, v), u, v);
    BridgeByOneCut(topo, u, v);
    if v in routes {
      assert IsWalk(cut, u, walks[v]) && End(u, walks[v]) == v;
    }
  }

  // Removing and re-adding the i-th edge leaves the same edges.
  lemma PutBack(topo: Links, aux: Links, u: NodeId, i: nat)
    requires Simple(topo) && SameEdges(topo, aux) && u in topo && i < |aux[u]|
    ensures var es := aux[u];
      var rest := es[..i] + es[i + 1..];
      FirstTo(rest, es[i].last) == |rest| && SameEdges(topo, aux[u := rest][u := rest + [es[i]]])
  {
    var es := aux[u];
    var rest := es[..i] + es[i + 1..];
    assert es == es[..i] + [es[i]] + es[i + 1..];
    NoParallelPermuted(topo[u], es);
    forall j | 0 <= j < |rest| ensures rest[j].last != es[i].last {
      assert rest[j] == es[if j < i then j else j + 1];
    }
  }
}
