// DijkstraKshortest::run: up to K loop-free routes to every node.

module KShortest {
  import Graphs
  import Sequences

  type NodeId = Graphs.NodeId

  datatype Metric = AditiveMin | ConcaveMin | AditiveMax | ConcaveMax
  datatype Cost = Cost(value: real, metric: Metric)
  type CostVector = seq<Cost>

  datatype Edge = Edge(last: NodeId, cost: CostVector)
  datatype Label = Perm | Tent
  datatype State = State(cost: CostVector, idPrev: NodeId, idPrevIdx: int, tag: Label)
  datatype SetElem = SetElem(iD: NodeId, idx: int, cost: CostVector)
  datatype Outcome = Done | NodeNotFound | LinkNotFound

  type Links = map<NodeId, seq<Edge>>
  type Route = seq<NodeId>
  type Routes = map<NodeId, seq<State>>
  type Kroutes = map<NodeId, seq<Route>>

  // ---- cost vectors

  predicate BetterSmall(m: Metric) { m in {AditiveMin, ConcaveMin} }

  // The comparison of cost vectors: better in some component.
  ghost predicate Less(x: CostVector, y: CostVector) {
    exists i :: 0 <= i < |x| && i < |y| &&
      if BetterSmall(x[i].metric) then x[i].value < y[i].value else x[i].value > y[i].value
  }

  ghost predicate Measured(ms: seq<Metric>, x: CostVector) {
    |x| == |ms| && forall i :: 0 <= i < |ms| ==> x[i].metric == ms[i]
  }

  // The comparison orders vectors of one component, but not of more: each of
  // two can be better than the other.
  lemma LessIsNoOrder(ms: seq<Metric>)
    ensures (forall x, y :: Measured(ms, x) && Measured(ms, y) && Less(x, y) ==> !Less(y, x)) <==> |ms| <= 1
  {
    if |ms| > 1 {
      var x := seq(|ms|, i requires 0 <= i < |ms| => Cost(if BetterSmall(ms[i]) == (i == 0) then 0.0 else 1.0, ms[i]));
      var y := seq(|ms|, i requires 0 <= i < |ms| => Cost(if BetterSmall(ms[i]) == (i == 0) then 1.0 else 0.0, ms[i]));
      assert x[0].metric == y[0].metric == ms[0] && x[1].metric == y[1].metric == ms[1];
      assert Measured(ms, x) && Measured(ms, y) && Less(x, y) && Less(y, x);
    }
  }

  function Joined(a: Cost, b: Cost): Cost {
    Cost(match a.metric
         case AditiveMin => a.value + b.value
         case AditiveMax => a.value + b.value
         case ConcaveMin => if b.value < a.value then b.value else a.value
         case ConcaveMax => if a.value < b.value then b.value else a.value,
         a.metric)
  }

  function Total(a: CostVector, b: CostVector): (r: CostVector)
    ensures |r| == if |a| <= |b| then |a| else |b|
  {
    seq(if |a| <= |b| then |a| else |b|, i requires 0 <= i < |a| && i < |b| => Joined(a[i], b[i]))
  }

  method IsLess(x: CostVector, y: CostVector) returns (less: bool)
    requires |x| <= |y|
    ensures less <==> Less(x, y)
  {
    for i := 0 to |x|
      invariant !Less(x[..i], y)
    {
      match x[i].metric {
        case AditiveMin | ConcaveMin =>
          if x[i].value < y[i].value {
            return true;
          }
        case AditiveMax | ConcaveMax =>
          if x[i].value > y[i].value {
            return true;
          }
      }
    }
    assert x[..|x|] == x;
    return false;
  }

  method AddCost(a: CostVector, b: CostVector) returns (val: CostVector)
    requires |a| <= |b|
    ensures val == Total(a, b)
    ensures |val| == |a| && forall i :: 0 <= i < |a| ==>
      var x, y, z := a[i].value, b[i].value, val[i].value;
      && val[i].metric == a[i].metric && (z == x || z == y || a[i].metric == AditiveMin || a[i].metric == AditiveMax)
      && (a[i].metric == AditiveMin || a[i].metric == AditiveMax ==> z == x + y)
      && (a[i].metric == ConcaveMin ==> z <= x && z <= y)
      && (a[i].metric == ConcaveMax ==> z >= x && z >= y)
  {
    val := [];
    for i := 0 to |a|
      invariant |val| == i && forall j :: 0 <= j < i ==> val[j] == Joined(a[j], b[j])
    {
      val := val + [Joined(a[i], b[i])];
    }
  }

  // ---- routes

  // What one run does not change: the links, the root, K, the limits and the
  // cost of the empty route.
  datatype Net = Net(links: Links, root: NodeId, k: int, limits: CostVector, minimum: CostVector)

  type Trail = map<NodeId, seq<Path>>

  // A route from the root, given by its last edge.
  datatype Path = Origin | Via(path: Path, e: Edge)

  function End(root: NodeId, p: Path): NodeId { if p.Origin? then root else p.e.last }

  // The nodes after the root.
  function Nodes(p: Path): Route { if p.Origin? then [] else Nodes(p.path) + [p.e.last] }

  ghost predicate Sized(net: Net) {
    && net.k >= 1 && (net.limits == [] || |net.limits| == |net.minimum|)
    && forall u, e :: HasEdge(net.links, u, e) ==> |e.cost| == |net.minimum|
  }

  function CostOf(net: Net, p: Path): CostVector {
    if p.Origin? then net.minimum else Total(p.e.cost, CostOf(net, p.path))
  }

  ghost predicate Over(net: Net, cost: CostVector) { net.limits != [] && Less(net.limits, cost) }

  ghost predicate HasEdge(links: Links, u: NodeId, e: Edge) { u in links && e in links[u] }

  // A walk along the links that never comes back to a node, and stays within the limits.
  ghost predicate IsPath(net: Net, p: Path) {
    p.Via? ==>
      && IsPath(net, p.path) && HasEdge(net.links, End(net.root, p.path), p.e)
      && p.e.last != net.root && p.e.last !in Nodes(p.path)
      && !Over(net, CostOf(net, p))
  }

  // No component of a path's cost is beyond its limit.
  lemma WithinLimits(net: Net, p: Path, i: nat)
    requires IsPath(net, p) && p.Via? && i < |net.limits| && i < |CostOf(net, p)|
    ensures match net.limits[i].metric
      case AditiveMin | ConcaveMin => CostOf(net, p)[i].value <= net.limits[i].value
      case AditiveMax | ConcaveMax => CostOf(net, p)[i].value >= net.limits[i].value
  {
    hide CostOf;
    assert !Less(net.limits, CostOf(net, p));
  }

  ghost predicate Linked(links: Links, u: NodeId, v: NodeId) {
    exists e :: HasEdge(links, u, e) && e.last == v
  }

  // The nodes of a path: distinct, none the root, each linked from the one before.
  ghost predicate Genuine(links: Links, root: NodeId, v: NodeId, r: Route) {
    && r != [] && r[|r| - 1] == v && root !in r
    && (forall i, j :: 0 <= i < j < |r| ==> r[i] != r[j])
    && (forall i :: 0 <= i < |r| ==> Linked(links, Before(root, r, i), r[i]))
  }

  function Before(root: NodeId, r: Route, i: nat): NodeId
    requires i < |r|
  {
    if i == 0 then root else r[i - 1]
  }

  lemma {:induction false} PathGenuine(net: Net, p: Path)
    requires IsPath(net, p) && p.Via?
    ensures Genuine(net.links, net.root, p.e.last, Nodes(p))
  {
    hide Genuine;
    var q := Nodes(p.path);
    assert Linked(net.links, End(net.root, p.path), p.e.last);
    if p.path.Via? {
      PathGenuine(net, p.path);
      assert q[|q| - 1] == p.path.e.last;
    }
    LongerGenuine(net.links, net.root, q, p.e.last);
  }

  lemma LongerGenuine(links: Links, root: NodeId, q: Route, x: NodeId)
    requires q != [] ==> Genuine(links, root, q[|q| - 1], q)
    requires Linked(links, if q == [] then root else q[|q| - 1], x) && x != root && x !in q
    ensures Genuine(links, root, x, q + [x])
  {
    hide Linked;
    var r := q + [x];
    forall i, j | 0 <= i < j < |r| ensures r[i] != r[j] {
      assert r[i] == q[i] && q[i] in q;
      assert r[j] == if j < |q| then q[j] else x;
    }
    forall i | 0 <= i < |r| ensures Linked(links, Before(root, r, i), r[i]) {
      LinkedAt(links, root, q, x, i);
    }
  }

  lemma LinkedAt(links: Links, root: NodeId, q: Route, x: NodeId, i: nat)
    requires q != [] ==> Genuine(links, root, q[|q| - 1], q)
    requires Linked(links, if q == [] then root else q[|q| - 1], x) && i <= |q|
    ensures Linked(links, Before(root, q + [x], i), (q + [x])[i])
  {
    hide Linked;
    var r := q + [x];
    assert r[i] == if i < |q| then q[i] else x;
    assert i > 0 ==> r[i - 1] == q[i - 1];
    assert i < |q| ==> Linked(links, Before(root, q, i), q[i]);
  }

  // ---- the search

  // The states form chains to the root over permanent states; `trail` holds
  // the path of each.
  ghost predicate Threaded(net: Net, routes: Routes, trail: Trail) {
    && net.root in routes && trail.Keys == routes.Keys && |routes[net.root]| == net.k
    && (forall v :: v in routes ==> 0 < |routes[v]| <= net.k && |trail[v]| == |routes[v]|)
    && (forall i :: 0 <= i < net.k ==> routes[net.root][i].tag == Perm && trail[net.root][i] == Origin)
    && (forall v, i :: v in routes && 0 <= i < |routes[v]| ==> Chained(net, routes, trail, v, i))
  }

  ghost predicate Chained(net: Net, routes: Routes, trail: Trail, v: NodeId, i: int)
    requires v in routes && v in trail && 0 <= i < |routes[v]| && i < |trail[v]|
  {
    var s, p := routes[v][i], trail[v][i];
    && IsPath(net, p) && End(net.root, p) == v && CostOf(net, p) == s.cost
    && (v != net.root ==>
        && s.idPrev in routes && s.idPrev in trail && 0 <= s.idPrevIdx < |routes[s.idPrev]|
        && s.idPrevIdx < |trail[s.idPrev]|
        && routes[s.idPrev][s.idPrevIdx].tag == Perm
        && p.Via? && p.path == trail[s.idPrev][s.idPrevIdx])
  }

  // The recorded routes of v are those of its permanent states, each once.
  ghost predicate Recorded(root: NodeId, routes: Routes, kroutes: Kroutes, trail: Trail) {
    && trail.Keys == routes.Keys && (forall v :: v in routes ==> |trail[v]| == |routes[v]|)
    && (forall v :: v in kroutes ==> v in routes && v != root && kroutes[v] != [])
    && (forall v, i, j :: v in kroutes && 0 <= i < j < |kroutes[v]| ==> kroutes[v][i] != kroutes[v][j])
    && (forall v, r :: v in kroutes && r in kroutes[v] ==>
      exists i :: 0 <= i < |routes[v]| && routes[v][i].tag == Perm && Nodes(trail[v][i]) == r)
    && (forall v, i :: v in routes && v != root && 0 <= i < |routes[v]| && routes[v][i].tag == Perm ==>
      v in kroutes && Nodes(trail[v][i]) in kroutes[v])
  }

  // The queue refers to existing states, and to every state that is not
  // permanent, unless its route is recorded already.
  ghost predicate Queued(net: Net, routes: Routes, kroutes: Kroutes, trail: Trail, heap: multiset<SetElem>)
    requires forall v :: v in routes ==> v in trail && |trail[v]| == |routes[v]|
  {
    && (forall x :: x in heap ==>
      x.iD != net.root && x.iD in routes && 0 <= x.idx < |routes[x.iD]| && |x.cost| == |net.minimum|)
    && (forall v, i :: v in routes && v != net.root && 0 <= i < |routes[v]| && routes[v][i].tag == Tent ==>
        (v in kroutes && Nodes(trail[v][i]) in kroutes[v]) || Waiting(heap, v, i))
  }

  ghost predicate Waiting(heap: multiset<SetElem>, v: NodeId, i: int) {
    exists x :: x in heap && x.iD == v && x.idx == i
  }

  // An edge out of the end of p led to a state, or could not be used.
  ghost predicate Met(net: Net, routes: Routes, trail: Trail, p: Path, e: Edge) {
    e.last == net.root || e.last in Nodes(p) || Over(net, Total(e.cost, CostOf(net, p)))
      || Listed(net, routes, trail, e.last, Nodes(p) + [e.last])
  }

  // w has a state with route r, or all its K states are taken.
  ghost predicate Listed(net: Net, routes: Routes, trail: Trail, w: NodeId, r: Route) {
    w in routes && w in trail && (|routes[w]| == net.k || exists i :: 0 <= i < |trail[w]| && Nodes(trail[w][i]) == r)
  }

  type Key = (NodeId, int)

  // All edges out of the expanded states are met; only these and the root's
  // states are permanent, apart from `current`.
  ghost predicate Explored(net: Net, routes: Routes, trail: Trail, done: set<Key>, current: set<Key>)
    requires Threaded(net, routes, trail)
  {
    && (forall v, i :: (v, i) in done ==>
        && v in routes && 0 <= i < |routes[v]| && routes[v][i].tag == Perm && v in net.links
        && forall e :: HasEdge(net.links, v, e) ==> Met(net, routes, trail, trail[v][i], e))
    && (forall v, i :: v in routes && v != net.root && 0 <= i < |routes[v]| && routes[v][i].tag == Perm ==>
      (v, i) in done || (v, i) in current)
  }

  ghost predicate Searching(net: Net, routes: Routes, kroutes: Kroutes, trail: Trail, heap: multiset<SetElem>,
      done: set<Key>, current: set<Key>) {
    && Threaded(net, routes, trail) && Recorded(net.root, routes, kroutes, trail)
    && Queued(net, routes, kroutes, trail, heap) && Explored(net, routes, trail, done, current)
  }

  // What was met stays met.
  ghost predicate MetStays(net: Net, routes: Routes, trail: Trail, routes': Routes, trail': Trail) {
    forall p, f :: Met(net, routes, trail, p, f) ==> Met(net, routes', trail', p, f)
  }

  // s with its n-th element replaced or added
  function Placed<T>(s: seq<T>, n: nat, x: T): (r: seq<T>)
    requires n <= |s|
    ensures |r| == if n == |s| then |s| + 1 else |s|
    ensures r[n] == x && forall i :: 0 <= i < |s| && i != n ==> r[i] == s[i]
  {
    if n == |s| then s + [x] else s[n := x]
  }

  function Slots<T>(m: map<NodeId, seq<T>>, v: NodeId): seq<T> { if v in m then m[v] else [] }

  function Put<T>(m: map<NodeId, seq<T>>, v: NodeId, n: nat, x: T): map<NodeId, seq<T>>
    requires n <= |Slots(m, v)|
  {
    m[v := Placed(Slots(m, v), n, x)]
  }

  // The step along edge e from the permanent state j of u to state n of e.last,
  // a new one or one that is not permanent.
  ghost predicate Step(net: Net, routes: Routes, trail: Trail, u: NodeId, j: int, e: Edge, n: nat)
    requires Threaded(net, routes, trail)
  {
    && u in routes && 0 <= j < |routes[u]| && routes[u][j].tag == Perm && HasEdge(net.links, u, e)
    && e.last != net.root && e.last !in Nodes(trail[u][j]) && !Over(net, Total(e.cost, routes[u][j].cost))
    && n <= |Slots(routes, e.last)| && n < net.k
    && (n < |Slots(routes, e.last)| ==> routes[e.last][n].tag == Tent && |routes[e.last]| == net.k)
  }

  lemma StepThreaded(net: Net, routes: Routes, trail: Trail, u: NodeId, j: int, e: Edge, n: nat)
    requires Threaded(net, routes, trail) && Step(net, routes, trail, u, j, e, n)
    ensures Threaded(net, Put(routes, e.last, n, State(Total(e.cost, routes[u][j].cost), u, j, Tent)),
      Put(trail, e.last, n, Via(trail[u][j], e)))
  {
    var st, p := State(Total(e.cost, routes[u][j].cost), u, j, Tent), Via(trail[u][j], e);
    var routes': Routes, trail': Trail := Put(routes, e.last, n, st), Put(trail, e.last, n, p);
    assert Chained(net, routes, trail, u, j);
    assert IsPath(net, p) && CostOf(net, p) == st.cost;
    forall v, i | v in routes' && 0 <= i < |routes'[v]| ensures Chained(net, routes', trail', v, i) {
      if v == e.last && i == n {
      } else {
        assert Chained(net, routes, trail, v, i);
      }
    }
  }

  lemma StepRecorded(net: Net, routes: Routes, kroutes: Kroutes, trail: Trail, u: NodeId, j: int, e: Edge, n: nat,
      st: State)
    requires Threaded(net, routes, trail) && Step(net, routes, trail, u, j, e, n) && st.tag == Tent
    requires Recorded(net.root, routes, kroutes, trail)
    ensures Recorded(net.root, Put(routes, e.last, n, st), kroutes, Put(trail, e.last, n, Via(trail[u][j], e)))
  {
    var routes': Routes, trail': Trail := Put(routes, e.last, n, st), Put(trail, e.last, n, Via(trail[u][j], e));
    forall v, r | v in kroutes && r in kroutes[v]
      ensures exists i :: 0 <= i < |routes'[v]| && routes'[v][i].tag == Perm && Nodes(trail'[v][i]) == r
    {
      var i :| 0 <= i < |routes[v]| && routes[v][i].tag == Perm && Nodes(trail[v][i]) == r;
      assert routes'[v][i] == routes[v][i] && trail'[v][i] == trail[v][i];
    }
  }

  lemma StepQueued(net: Net, routes: Routes, kroutes: Kroutes, trail: Trail, heap: multiset<SetElem>,
      heap': multiset<SetElem>, u: NodeId, j: int, e: Edge, n: nat, st: State)
    requires Threaded(net, routes, trail) && Step(net, routes, trail, u, j, e, n) && st.tag == Tent
      && |st.cost| == |net.minimum|
    requires Queued(net, routes, kroutes, trail, heap)
    requires SetElem(e.last, n, st.cost) in heap'
      && forall x :: x in heap' ==> x in heap || x == SetElem(e.last, n, st.cost)
    requires forall x :: x in heap ==> x in heap' || (x.iD == e.last && x.idx == n)
    ensures var routes': Routes, trail': Trail :=
      Put(routes, e.last, n, st), Put(trail, e.last, n, Via(trail[u][j], e));
      (forall v :: v in routes' ==> v in trail' && |trail'[v]| == |routes'[v]|)
        && Queued(net, routes', kroutes, trail', heap')
  {
    var routes': Routes, trail': Trail := Put(routes, e.last, n, st), Put(trail, e.last, n, Via(trail[u][j], e));
    forall v, i | v in routes' && v != net.root && 0 <= i < |routes'[v]| && routes'[v][i].tag == Tent
      ensures (v in kroutes && Nodes(trail'[v][i]) in kroutes[v]) || Waiting(heap', v, i)
    {
      if !(v == e.last && i == n) {
        assert routes'[v][i] == routes[v][i] && trail'[v][i] == trail[v][i];
      }
    }
  }

  lemma StepMet(net: Net, routes: Routes, trail: Trail, u: NodeId, j: int, e: Edge, n: nat, st: State, p: Path, f: Edge)
    requires Threaded(net, routes, trail) && Step(net, routes, trail, u, j, e, n) && Met(net, routes, trail, p, f)
    ensures Met(net, Put(routes, e.last, n, st), Put(trail, e.last, n, Via(trail[u][j], e)), p, f)
  {
    var routes': Routes, trail': Trail := Put(routes, e.last, n, st), Put(trail, e.last, n, Via(trail[u][j], e));
    var r := Nodes(p) + [f.last];
    if Listed(net, routes, trail, f.last, r) && |routes[f.last]| != net.k {
      var i :| 0 <= i < |trail[f.last]| && Nodes(trail[f.last][i]) == r;
      assert trail'[f.last][i] == trail[f.last][i];
    }
  }

  lemma StepExplored(net: Net, routes: Routes, trail: Trail, done: set<Key>, current: set<Key>, u: NodeId, j: int,
      e: Edge, n: nat)
    requires Threaded(net, routes, trail) && Step(net, routes, trail, u, j, e, n)
    requires Explored(net, routes, trail, done, current)
    ensures var st := State(Total(e.cost, routes[u][j].cost), u, j, Tent);
      var routes': Routes, trail': Trail := Put(routes, e.last, n, st), Put(trail, e.last, n, Via(trail[u][j], e));
      Threaded(net, routes', trail') && Explored(net, routes', trail', done, current)
  {
    var st := State(Total(e.cost, routes[u][j].cost), u, j, Tent);
    var routes': Routes, trail': Trail := Put(routes, e.last, n, st), Put(trail, e.last, n, Via(trail[u][j], e));
    StepThreaded(net, routes, trail, u, j, e, n);
    forall v, i | (v, i) in done
      ensures v in routes' && 0 <= i < |routes'[v]| && routes'[v][i].tag == Perm && v in net.links
      ensures forall f :: HasEdge(net.links, v, f) ==> Met(net, routes', trail', trail'[v][i], f)
    {
      assert routes'[v][i] == routes[v][i] && trail'[v][i] == trail[v][i];
      forall f | HasEdge(net.links, v, f) ensures Met(net, routes', trail', trail[v][i], f) {
        StepMet(net, routes, trail, u, j, e, n, st, trail[v][i], f);
      }
    }
    forall v, i | v in routes' && v != net.root && 0 <= i < |routes'[v]| && routes'[v][i].tag == Perm
      ensures (v, i) in done || (v, i) in current
    {
      assert routes'[v][i] == routes[v][i];
    }
  }

  lemma Stepped(net: Net, routes: Routes, kroutes: Kroutes, trail: Trail, heap: multiset<SetElem>,
      heap': multiset<SetElem>, done: set<Key>, current: set<Key>, u: NodeId, j: int, e: Edge, n: nat)
    requires Searching(net, routes, kroutes, trail, heap, done, current) && Step(net, routes, trail, u, j, e, n)
    requires Sized(net)
    requires var elem := SetElem(e.last, n, Total(e.cost, routes[u][j].cost));
      elem in heap' && (forall x :: x in heap' ==> x in heap || x == elem)
        && forall x :: x in heap ==> x in heap' || (x.iD == e.last && x.idx == n)
    ensures var routes' := Put(routes, e.last, n, State(Total(e.cost, routes[u][j].cost), u, j, Tent));
      var trail' := Put(trail, e.last, n, Via(trail[u][j], e));
      && Searching(net, routes', kroutes, trail', heap', done, current)
      && routes'.Keys == routes.Keys + {e.last}
      && |routes'[u]| >= |routes[u]| && routes'[u][j] == routes[u][j] && trail'[u][j] == trail[u][j]
      && Met(net, routes', trail', trail[u][j], e)
      && MetStays(net, routes, trail, routes', trail')
  {
    assert Chained(net, routes, trail, u, j);
    SizedPath(net, trail[u][j]);
    var st := State(Total(e.cost, routes[u][j].cost), u, j, Tent);
    StepThreaded(net, routes, trail, u, j, e, n);
    StepRecorded(net, routes, kroutes, trail, u, j, e, n, st);
    StepQueued(net, routes, kroutes, trail, heap, heap', u, j, e, n, st);
    StepExplored(net, routes, trail, done, current, u, j, e, n);
    var routes': Routes, trail': Trail := Put(routes, e.last, n, st), Put(trail, e.last, n, Via(trail[u][j], e));
    assert Nodes(trail'[e.last][n]) == Nodes(trail[u][j]) + [e.last];
    forall p, f | Met(net, routes, trail, p, f) ensures Met(net, routes', trail', p, f) {
      StepMet(net, routes, trail, u, j, e, n, st, p, f);
    }
  }

  // ---- recording a route

  // Fewer routes are recorded than there are states, while one is not permanent.
  lemma RoomForRoute(net: Net, routes: Routes, kroutes: Kroutes, trail: Trail, v: NodeId, idx: nat)
    requires Threaded(net, routes, trail) && Recorded(net.root, routes, kroutes, trail)
    requires v in kroutes && idx < |routes[v]| && routes[v][idx].tag == Tent
    ensures |kroutes[v]| < net.k
  {
    FewerThan(kroutes[v], trail[v], AllBut(|routes[v]|, idx));
  }

  function AllBut(n: nat, k: nat): (s: set<int>)
    ensures |s| == if k < n then n - 1 else n
    ensures forall i :: i in s <==> 0 <= i < n && i != k
  {
    if n == 0 then {} else AllBut(n - 1, k) + (if k == n - 1 then {} else {n - 1})
  }

  // Distinct routes, each the nodes of one of the paths numbered in s.
  lemma {:induction false} FewerThan(rs: seq<Route>, ps: seq<Path>, s: set<int>)
    requires forall i, j :: 0 <= i < j < |rs| ==> rs[i] != rs[j]
    requires forall r :: r in rs ==> exists i :: i in s && 0 <= i < |ps| && Nodes(ps[i]) == r
    ensures |rs| <= |s|
  {
    if rs != [] {
      assert rs[0] in rs;
      var i :| i in s && 0 <= i < |ps| && Nodes(ps[i]) == rs[0];
      var rest := rs[1..];
      forall r | r in rest ensures exists i' :: i' in s - {i} && 0 <= i' < |ps| && Nodes(ps[i']) == r {
        assert r in rs && r != rs[0];
      }
      FewerThan(rest, ps, s - {i});
    }
  }

  // The table with state idx of v permanent, and with its route recorded.
  function Marked(routes: Routes, v: NodeId, idx: nat): Routes
    requires v in routes && idx < |routes[v]|
  {
    routes[v := routes[v][idx := routes[v][idx].(tag := Perm)]]
  }

  function Noted(net: Net, kroutes: Kroutes, v: NodeId, r: Route): Kroutes {
    if v == net.root then kroutes else kroutes[v := Slots(kroutes, v) + [r]]
  }

  lemma MarkedThreaded(net: Net, routes: Routes, trail: Trail, v: NodeId, idx: nat)
    requires Threaded(net, routes, trail) && v in routes && idx < |routes[v]|
    ensures Threaded(net, Marked(routes, v, idx), trail)
  {
    var routes': Routes := Marked(routes, v, idx);
    forall w, i | w in routes' && 0 <= i < |routes'[w]| ensures Chained(net, routes', trail, w, i) {
      assert Chained(net, routes, trail, w, i);
    }
  }

  lemma MarkedRecorded(net: Net, routes: Routes, kroutes: Kroutes, trail: Trail, v: NodeId, idx: nat)
    requires Recorded(net.root, routes, kroutes, trail) && v in routes && idx < |routes[v]|
    requires v in kroutes ==> Nodes(trail[v][idx]) !in kroutes[v]
    ensures Recorded(net.root, Marked(routes, v, idx), Noted(net, kroutes, v, Nodes(trail[v][idx])), trail)
  {
    var routes': Routes, kroutes': Kroutes := Marked(routes, v, idx), Noted(net, kroutes, v, Nodes(trail[v][idx]));
    forall w, r | w in kroutes' && r in kroutes'[w]
      ensures exists i :: 0 <= i < |routes'[w]| && routes'[w][i].tag == Perm && Nodes(trail[w][i]) == r
    {
      if w in kroutes && r in kroutes[w] {
        var i :| 0 <= i < |routes[w]| && routes[w][i].tag == Perm && Nodes(trail[w][i]) == r;
        assert routes'[w][i].tag == Perm;
      } else {
        assert routes'[w][idx].tag == Perm;
      }
    }
  }

  // Element x was popped and is not needed.
  lemma Skipped(net: Net, routes: Routes, kroutes: Kroutes, trail: Trail, heap: multiset<SetElem>, done: set<Key>,
      x: SetElem)
    requires Searching(net, routes, kroutes, trail, heap, done, {}) && x in heap
    requires routes[x.iD][x.idx].tag == Perm || (x.iD in kroutes && Nodes(trail[x.iD][x.idx]) in kroutes[x.iD])
    ensures Searching(net, routes, kroutes, trail, heap - multiset{x}, done, {})
  {}

  // The current state's edges are all met: it is done.
  lemma Finished(net: Net, routes: Routes, kroutes: Kroutes, trail: Trail, heap: multiset<SetElem>, done: set<Key>,
      v: NodeId, idx: nat)
    requires Searching(net, routes, kroutes, trail, heap, done, {(v, idx)}) && v in net.links
    requires v in routes && idx < |routes[v]| && routes[v][idx].tag == Perm
    requires forall i :: 0 <= i < |net.links[v]| ==> Met(net, routes, trail, trail[v][idx], net.links[v][i])
    ensures Searching(net, routes, kroutes, trail, heap, done + {(v, idx)}, {})
  {
    forall e | HasEdge(net.links, v, e) ensures Met(net, routes, trail, trail[v][idx], e) {
      var i :| 0 <= i < |net.links[v]| && net.links[v][i] == e;
    }
  }

  lemma {:induction false} SizedPath(net: Net, p: Path)
    requires Sized(net) && IsPath(net, p)
    ensures |CostOf(net, p)| == |net.minimum|
  {
    if p.Via? {
      SizedPath(net, p.path);
    }
  }

  // ---- what a finished run has found

  ghost predicate IsWalk(links: Links, root: NodeId, p: Path) {
    p.Via? ==> IsWalk(links, root, p.path) && HasEdge(links, End(root, p.path), p.e)
  }

  ghost predicate Reaches(links: Links, root: NodeId, v: NodeId) {
    exists p :: IsWalk(links, root, p) && End(root, p) == v
  }

  lemma {:induction false} PathIsWalk(net: Net, p: Path)
    requires IsPath(net, p)
    ensures IsWalk(net.links, net.root, p)
  {
    if p.Via? {
      PathIsWalk(net, p.path);
    }
  }

  lemma StatesReached(net: Net, routes: Routes, trail: Trail, v: NodeId)
    requires Threaded(net, routes, trail) && v in routes
    ensures Reaches(net.links, net.root, v)
  {
    assert Chained(net, routes, trail, v, 0);
    PathIsWalk(net, trail[v][0]);
  }

  // The nodes of a state's path have states.
  lemma {:induction false} NodesLabelled(net: Net, routes: Routes, trail: Trail, v: NodeId, i: nat)
    requires Threaded(net, routes, trail) && v in routes && i < |routes[v]|
    ensures forall u :: u in Nodes(trail[v][i]) ==> u in routes
    decreases trail[v][i]
  {
    assert Chained(net, routes, trail, v, i);
    if v != net.root {
      NodesLabelled(net, routes, trail, routes[v][i].idPrev, routes[v][i].idPrevIdx);
    }
  }

  // When the queue is empty, the routes of all states are recorded.
  lemma EmptyQueue(net: Net, routes: Routes, kroutes: Kroutes, trail: Trail, done: set<Key>, v: NodeId, j: nat)
    requires Searching(net, routes, kroutes, trail, multiset{}, done, {}) && v in routes && v != net.root
      && j < |routes[v]|
    ensures v in kroutes && Nodes(trail[v][j]) in kroutes[v] && exists i :: (v, i) in done
  {
    if routes[v][j].tag == Tent {
      assert !Waiting(multiset{}, v, j);
    }
    var r := Nodes(trail[v][j]);
    var i :| 0 <= i < |routes[v]| && routes[v][i].tag == Perm && Nodes(trail[v][i]) == r;
  }

  // Without limits every walk ends at a node with a state.
  lemma {:induction false} WalksLabelled(net: Net, routes: Routes, kroutes: Kroutes, trail: Trail, done: set<Key>,
      p: Path)
    requires Searching(net, routes, kroutes, trail, multiset{}, done, {}) && net.limits == [] && (net.root, 0) in done
    requires IsWalk(net.links, net.root, p)
    ensures End(net.root, p) in routes
  {
    if p.Via? {
      var u := End(net.root, p.path);
      WalksLabelled(net, routes, kroutes, trail, done, p.path);
      if u != net.root {
        EmptyQueue(net, routes, kroutes, trail, done, u, 0);
      }
      var i :| (u, i) in done;
      NodesLabelled(net, routes, trail, u, i);
      assert Met(net, routes, trail, trail[u][i], p.e);
    }
  }

  // Each recorded route is the node list of a path.
  ghost predicate RoutesOf(net: Net, v: NodeId, rs: seq<Route>) {
    && 0 < |rs| <= net.k
    && (forall i, j :: 0 <= i < j < |rs| ==> rs[i] != rs[j])
    && (forall r :: r in rs ==> Genuine(net.links, net.root, v, r) && exists p :: IsPath(net, p) && Nodes(p) == r)
  }

  lemma RecordedRoutes(net: Net, routes: Routes, kroutes: Kroutes, trail: Trail, v: NodeId)
    requires Threaded(net, routes, trail) && Recorded(net.root, routes, kroutes, trail) && v in kroutes
    ensures RoutesOf(net, v, kroutes[v])
  {
    hide Genuine, IsPath, Threaded, Recorded, Nodes;
    forall r | r in kroutes[v]
      ensures Genuine(net.links, net.root, v, r) && exists p :: IsPath(net, p) && Nodes(p) == r
    {
      var p := RecordedRoute(net, routes, kroutes, trail, v, r);
    }
    FewRecorded(net, routes, kroutes, trail, v);
  }

  lemma RecordedRoute(net: Net, routes: Routes, kroutes: Kroutes, trail: Trail, v: NodeId, r: Route) returns (p: Path)
    requires Threaded(net, routes, trail) && Recorded(net.root, routes, kroutes, trail) && v in kroutes
      && r in kroutes[v]
    ensures Genuine(net.links, net.root, v, r) && IsPath(net, p) && Nodes(p) == r
  {
    hide Genuine;
    var i :| 0 <= i < |routes[v]| && routes[v][i].tag == Perm && Nodes(trail[v][i]) == r;
    p := trail[v][i];
    assert Chained(net, routes, trail, v, i);
    PathGenuine(net, p);
  }

  lemma FewRecorded(net: Net, routes: Routes, kroutes: Kroutes, trail: Trail, v: NodeId)
    requires Threaded(net, routes, trail) && Recorded(net.root, routes, kroutes, trail) && v in kroutes
    ensures 0 < |kroutes[v]| <= net.k && forall i, j :: 0 <= i < j < |kroutes[v]| ==> kroutes[v][i] != kroutes[v][j]
  {
    hide Chained, Nodes;
    FewerThan(kroutes[v], trail[v], AllBut(|routes[v]|, |routes[v]|));
  }

  // r is recorded for v; the empty route is the root's.
  ghost predicate Kept(net: Net, kroutes: Kroutes, v: NodeId, r: Route) {
    if v == net.root then r == [] else v in kroutes && r in kroutes[v]
  }

  // A recorded route is recorded with each further link that closes no loop,
  // unless all K states of the node the link leads to are taken.
  ghost predicate Extended(net: Net, routes: Routes, kroutes: Kroutes) {
    forall v, r, w :: Kept(net, kroutes, v, r) && Linked(net.links, v, w) && w != net.root && w !in r ==>
      w in routes && (|routes[w]| == net.k || Kept(net, kroutes, w, r + [w]))
  }

  lemma AllExtended(net: Net, routes: Routes, kroutes: Kroutes, trail: Trail, done: set<Key>)
    requires Searching(net, routes, kroutes, trail, multiset{}, done, {}) && (net.root, 0) in done && net.limits == []
    ensures Extended(net, routes, kroutes)
  {
    forall v, r, w | Kept(net, kroutes, v, r) && Linked(net.links, v, w) && w != net.root && w !in r
      ensures w in routes && (|routes[w]| == net.k || Kept(net, kroutes, w, r + [w]))
    {
      var i := 0;
      if v != net.root {
        i :| 0 <= i < |routes[v]| && routes[v][i].tag == Perm && Nodes(trail[v][i]) == r;
      }
      var e :| HasEdge(net.links, v, e) && e.last == w;
      assert (v, i) in done && Met(net, routes, trail, trail[v][i], e);
      if |routes[w]| != net.k {
        var j :| 0 <= j < |trail[w]| && Nodes(trail[w][j]) == r + [w];
        EmptyQueue(net, routes, kroutes, trail, done, w, j);
      }
    }
  }

  // Every loop-free route is recorded if no node on it has all its K states taken.
  lemma {:induction false} EveryRouteFound(net: Net, routes: Routes, kroutes: Kroutes, p: Path)
    requires Extended(net, routes, kroutes) && IsPath(net, p)
    requires forall v :: v in Nodes(p) && v in routes ==> |routes[v]| < net.k
    ensures Kept(net, kroutes, End(net.root, p), Nodes(p))
  {
    if p.Via? {
      EveryRouteFound(net, routes, kroutes, p.path);
      assert Linked(net.links, End(net.root, p.path), p.e.last);
    }
  }

  lemma AllFound(net: Net, routes: Routes, kroutes: Kroutes, trail: Trail, done: set<Key>)
    requires Searching(net, routes, kroutes, trail, multiset{}, done, {}) && (net.root, 0) in done
    ensures forall v :: v in kroutes ==> v != net.root && RoutesOf(net, v, kroutes[v])
    ensures net.limits == [] ==>
      Extended(net, routes, kroutes) && forall v :: v in kroutes <==> v != net.root && Reaches(net.links, net.root, v)
  {
    forall v | v in kroutes ensures RoutesOf(net, v, kroutes[v]) && Reaches(net.links, net.root, v) {
      RecordedRoutes(net, routes, kroutes, trail, v);
      StatesReached(net, routes, trail, v);
    }
    if net.limits == [] {
      AllExtended(net, routes, kroutes, trail, done);
      forall v | v != net.root && Reaches(net.links, net.root, v) ensures v in kroutes {
        var p :| IsWalk(net.links, net.root, p) && End(net.root, p) == v;
        WalksLabelled(net, routes, kroutes, trail, done, p);
        EmptyQueue(net, routes, kroutes, trail, done, v, 0);
      }
    }
  }

  // All states a run can ever make.
  function Universe(net: Net): set<NodeId> {
    {net.root} + set u, e | u in net.links && e in net.links[u] :: e.last
  }

  ghost function AllKeys(net: Net): set<Key> {
    set v, i | v in Universe(net) && 0 <= i < net.k :: (v, i)
  }

  lemma StateKey(net: Net, routes: Routes, trail: Trail, v: NodeId, i: nat)
    requires Threaded(net, routes, trail) && v in routes && i < |routes[v]|
    ensures (v, i) in AllKeys(net)
  {
    assert Chained(net, routes, trail, v, i);
    var p := trail[v][i];
    assert v in Universe(net) by {
      if p.Via? {
        assert HasEdge(net.links, End(net.root, p.path), p.e);
      }
    }
  }

  lemma TracedStep(net: Net, routes: Routes, trail: Trail, v: NodeId, i: nat)
    requires Threaded(net, routes, trail) && v in routes && i < |routes[v]| && v != net.root
    ensures var s := routes[v][i];
      s.idPrev in routes && 0 <= s.idPrevIdx < |routes[s.idPrev]| &&
      trail[v][i].Via? && trail[v][i].path == trail[s.idPrev][s.idPrevIdx]
        && Nodes(trail[v][i]) == Nodes(trail[s.idPrev][s.idPrevIdx]) + [v]
  {
    assert Chained(net, routes, trail, v, i);
  }

  lemma TraceShape(net: Net, routes: Routes, trail: Trail)
    requires Threaded(net, routes, trail)
    ensures trail.Keys == routes.Keys && forall v :: v in routes ==> |trail[v]| == |routes[v]|
    ensures net.root in routes && forall i :: 0 <= i < |routes[net.root]| ==> Nodes(trail[net.root][i]) == []
  {}

  lemma StatesSized(net: Net, routes: Routes, trail: Trail, v: NodeId)
    requires Threaded(net, routes, trail) && Sized(net) && v in routes
    ensures forall i :: 0 <= i < |routes[v]| ==> |routes[v][i].cost| == |net.minimum|
  {
    forall i | 0 <= i < |routes[v]| ensures |routes[v][i].cost| == |net.minimum| {
      assert Chained(net, routes, trail, v, i);
      SizedPath(net, trail[v][i]);
    }
  }

  lemma FullIsMet(net: Net, routes: Routes, trail: Trail, p: Path, e: Edge)
    requires Threaded(net, routes, trail) && e.last in routes && |routes[e.last]| == net.k
    ensures Met(net, routes, trail, p, e) && MetStays(net, routes, trail, routes, trail)
  {}

  lemma Expanding(net: Net, routes: Routes, kroutes: Kroutes, trail: Trail, heap: multiset<SetElem>, done: set<Key>,
      v: NodeId, idx: nat, e: Edge)
    requires Searching(net, routes, kroutes, trail, heap, done, {(v, idx)}) && Sized(net) && HasEdge(net.links, v, e)
    requires v in routes && idx < |routes[v]|
    ensures v in trail && |trail[v]| == |routes[v]| && CostOf(net, trail[v][idx]) == routes[v][idx].cost
    ensures |routes[v][idx].cost| == |e.cost| == |net.minimum|
    ensures net.root in routes && |routes[net.root]| == net.k
      && forall i :: 0 <= i < net.k ==> routes[net.root][i].tag == Perm
    ensures forall w :: w in routes ==> |routes[w]| <= net.k
    ensures forall x :: x in heap ==> |x.cost| == |net.minimum|
  {
    assert Chained(net, routes, trail, v, idx);
    SizedPath(net, trail[v][idx]);
  }

  // The state of the search before an element is taken from the queue: first
  // only the root's, then never again the root's.
  ghost predicate AtLoop(net: Net, routes: Routes, kroutes: Kroutes, trail: Trail, heap: multiset<SetElem>,
      done: set<Key>) {
    && done <= AllKeys(net)
    && if done == {} then
         heap == multiset{SetElem(net.root, 0, net.minimum)}
           && Searching(net, routes, kroutes, trail, multiset{}, done, {})
       else
         (net.root, 0) in done && Searching(net, routes, kroutes, trail, heap, done, {})
  }

  lemma Looping(net: Net, routes: Routes, kroutes: Kroutes, trail: Trail, heap: multiset<SetElem>, done: set<Key>,
      x: Key)
    requires Searching(net, routes, kroutes, trail, heap, done + {x}, {}) && done + {x} <= AllKeys(net)
    requires (net.root, 0) in done + {x}
    ensures AtLoop(net, routes, kroutes, trail, heap, done + {x})
  {}

  lemma Looped(net: Net, routes: Routes, kroutes: Kroutes, trail: Trail, done: set<Key>)
    requires AtLoop(net, routes, kroutes, trail, multiset{}, done)
    ensures Searching(net, routes, kroutes, trail, multiset{}, done, {}) && (net.root, 0) in done
      && Threaded(net, routes, trail)
  {}

  lemma LoopStarts(net: Net, routes: Routes, kroutes: Kroutes, trail: Trail)
    requires Searching(net, routes, kroutes, trail, multiset{}, {}, {}) && Sized(net)
    ensures AtLoop(net, routes, kroutes, trail, multiset{SetElem(net.root, 0, net.minimum)}, {}) && net.k >= 1
  {}

  lemma SizedHasRoom(net: Net)
    requires Sized(net)
    ensures net.k >= 1
  {}

  lemma SettledReached(net: Net, routes: Routes, kroutes: Kroutes, trail: Trail, heap: multiset<SetElem>,
      done: set<Key>, v: NodeId, idx: nat)
    requires Searching(net, routes, kroutes, trail, heap, done, {(v, idx)}) && v in routes
    ensures Reaches(net.links, net.root, v)
  {
    StatesReached(net, routes, trail, v);
  }

  lemma Popped(net: Net, routes: Routes, kroutes: Kroutes, trail: Trail, heap: multiset<SetElem>, done: set<Key>,
      x: SetElem)
    requires AtLoop(net, routes, kroutes, trail, heap, done) && x in heap && net.k >= 1
    ensures x.iD in routes && 0 <= x.idx < |routes[x.iD]| && (x.iD, x.idx) in AllKeys(net) && done <= AllKeys(net)
    ensures if x.iD == net.root then done == {} && x.idx == 0 else (net.root, 0) in done
    ensures x.iD in trail && |trail[x.iD]| == |routes[x.iD]| && (Nodes(trail[x.iD][x.idx]) == [] <==> x.iD == net.root)
    ensures x.iD == net.root ==>
      x.idx == 0 && (x.iD, x.idx) !in done && x.iD !in kroutes
      && Searching(net, routes, kroutes, trail, heap - multiset{x}, done, {})
    ensures routes[x.iD][x.idx].tag == Tent ==> (x.iD, x.idx) !in done && (x.iD in kroutes ==> |kroutes[x.iD]| < net.k)
    ensures
      x.iD != net.root &&
      (routes[x.iD][x.idx].tag == Perm || (x.iD in kroutes && Nodes(trail[x.iD][x.idx]) in kroutes[x.iD])) ==>
        AtLoop(net, routes, kroutes, trail, heap - multiset{x}, done)
  {
    StateKey(net, routes, trail, x.iD, x.idx);
    assert Chained(net, routes, trail, x.iD, x.idx);
    if x.iD == net.root {
      assert heap - multiset{x} == multiset{};
    } else if routes[x.iD][x.idx].tag == Tent && x.iD in kroutes {
      RoomForRoute(net, routes, kroutes, trail, x.iD, x.idx);
    }
    if x.iD != net.root
        && (routes[x.iD][x.idx].tag == Perm || (x.iD in kroutes && Nodes(trail[x.iD][x.idx]) in kroutes[x.iD])) {
      Skipped(net, routes, kroutes, trail, heap, done, x);
    }
  }

  // The state of element x becomes permanent, and its route is recorded.
  lemma Labelled(net: Net, routes: Routes, kroutes: Kroutes, trail: Trail, heap: multiset<SetElem>, done: set<Key>,
      x: SetElem)
    requires AtLoop(net, routes, kroutes, trail, heap, done) && x in heap
    requires x.iD in routes && 0 <= x.idx < |routes[x.iD]| && x.iD in trail && x.idx < |trail[x.iD]|
    requires x.iD in kroutes ==> Nodes(trail[x.iD][x.idx]) !in kroutes[x.iD]
    ensures Searching(net, Marked(routes, x.iD, x.idx), Noted(net, kroutes, x.iD, Nodes(trail[x.iD][x.idx])), trail,
      heap - multiset{x}, done, {(x.iD, x.idx)})
  {
    hide Threaded, Recorded, Queued, Explored, Marked, Noted, AtLoop;
    LoopParts(net, routes, kroutes, trail, heap, done);
    MarkedThreaded(net, routes, trail, x.iD, x.idx);
    MarkedRecorded(net, routes, kroutes, trail, x.iD, x.idx);
    MarkedQueued(net, routes, kroutes, trail, heap, done, x);
    MarkedExplored(net, routes, trail, done, x.iD, x.idx);
  }

  lemma LoopParts(net: Net, routes: Routes, kroutes: Kroutes, trail: Trail, heap: multiset<SetElem>, done: set<Key>)
    requires AtLoop(net, routes, kroutes, trail, heap, done)
    ensures Threaded(net, routes, trail) && Recorded(net.root, routes, kroutes, trail)
      && Explored(net, routes, trail, done, {})
  {
    hide Threaded, Recorded, Queued, Explored, AllKeys;
  }

  lemma MarkedQueued(net: Net, routes: Routes, kroutes: Kroutes, trail: Trail, heap: multiset<SetElem>, done: set<Key>,
      x: SetElem)
    requires AtLoop(net, routes, kroutes, trail, heap, done) && x in heap
    requires x.iD in routes && 0 <= x.idx < |routes[x.iD]| && x.iD in trail && x.idx < |trail[x.iD]|
    ensures var routes' := Marked(routes, x.iD, x.idx);
      && (forall v :: v in routes' ==> v in trail && |trail[v]| == |routes'[v]|)
      && Queued(net, routes', Noted(net, kroutes, x.iD, Nodes(trail[x.iD][x.idx])), trail, heap - multiset{x})
  {
    hide Chained, Recorded, Explored, AllKeys;
    var v, idx := x.iD, x.idx;
    var routes': Routes, kroutes': Kroutes := Marked(routes, v, idx), Noted(net, kroutes, v, Nodes(trail[v][idx]));
    var heap' := heap - multiset{x};
    if done == {} {
      assert heap' == multiset{};
    }
    forall w, i | w in routes' && w != net.root && 0 <= i < |routes'[w]| && routes'[w][i].tag == Tent
      ensures (w in kroutes' && Nodes(trail[w][i]) in kroutes'[w]) || Waiting(heap', w, i)
    {
      assert routes[w][i].tag == Tent && !(w == v && i == idx);
    }
  }

  lemma MarkedExplored(net: Net, routes: Routes, trail: Trail, done: set<Key>, v: NodeId, idx: nat)
    requires Threaded(net, routes, trail) && Explored(net, routes, trail, done, {}) && v in routes && idx < |routes[v]|
    requires Threaded(net, Marked(routes, v, idx), trail)
    ensures Explored(net, Marked(routes, v, idx), trail, done, {(v, idx)})
  {
    var routes': Routes := Marked(routes, v, idx);
    forall p, f | Met(net, routes, trail, p, f) ensures Met(net, routes', trail, p, f) {
      assert forall w :: w in routes ==> |routes'[w]| == |routes[w]|;
    }
  }

  datatype Pick = Pick(idx: int, cost: CostVector)

  // The last tentative state whose cost exceeds the maximum and those picked before it.
  ghost function Worst(states: seq<State>, maximum: CostVector): Pick {
    if states == [] then Pick(-1, maximum)
    else
      var n := |states| - 1;
      var before := Worst(states[..n], maximum);
      if Less(before.cost, states[n].cost) && states[n].tag == Tent then Pick(n, states[n].cost) else before
  }

  // Nothing is picked if no tentative state exceeds the maximum.
  lemma {:induction false} WorstIs(states: seq<State>, maximum: CostVector)
    requires forall i :: 0 <= i < |states| ==> |states[i].cost| == |maximum|
    ensures var pick := Worst(states, maximum);
      && |pick.cost| == |maximum| && -1 <= pick.idx < |states|
      && (pick.idx >= 0 ==> states[pick.idx].tag == Tent && pick.cost == states[pick.idx].cost)
      && (pick.idx == -1 <==> forall i :: 0 <= i < |states| && states[i].tag == Tent ==> !Less(maximum, states[i].cost))
      && (pick.idx == -1 ==> pick.cost == maximum)
  {
    if states != [] {
      var n := |states| - 1;
      WorstIs(states[..n], maximum);
    }
  }

  // initMinAndMax: three additive components and a bottleneck
  const DEFAULT_MAXIMUM: CostVector := [
    Cost(Graphs.DBL_MAX, AditiveMin), Cost(Graphs.DBL_MAX, AditiveMin), Cost(0.0, ConcaveMax),
      Cost(Graphs.DBL_MAX, AditiveMin)]

  // With the default maximum no state is ever given up.
  lemma DefaultMaximumStands(states: seq<State>)
    requires forall i :: 0 <= i < |states| ==> |states[i].cost| == 4 && states[i].cost[2].value >= 0.0
    requires forall i, k :: 0 <= i < |states| && 0 <= k < 4 ==> states[i].cost[k].value <= Graphs.DBL_MAX
    ensures Worst(states, DEFAULT_MAXIMUM) == Pick(-1, DEFAULT_MAXIMUM)
  {
    WorstIs(states, DEFAULT_MAXIMUM);
  }

  class DijkstraKshortest {
    var linkArray: Links
    var routeMap: Routes
    var kRoutesMap: Kroutes
    var rootNode: NodeId
    var K_LIMITE: int
    var limitsData: CostVector
    const minimumCost: CostVector
    const maximumCost: CostVector
    ghost var trail: Trail

    ghost function Network(): Net
      reads this
    {
      Net(linkArray, rootNode, K_LIMITE, limitsData, minimumCost)
    }

    ghost predicate Ready()
      reads this
    {
      Sized(Network()) && |maximumCost| == |minimumCost|
    }

    // The nodes on the chain of states from state k of nodeId to the root.
    method Trace(nodeId: NodeId, k: nat) returns (pathNode: Route)
      requires Threaded(Network(), routeMap, trail) && nodeId in routeMap && k < |routeMap[nodeId]|
      ensures pathNode == Nodes(trail[nodeId][k])
    {
      var path, currentNode, idx: int := [], nodeId, k;
      assert Graphs.Reversed([]) == [];
      TraceShape(Network(), routeMap, trail);
      hide Nodes, Threaded;
      while currentNode != rootNode
        invariant currentNode in routeMap && currentNode in trail && 0 <= idx < |routeMap[currentNode]|
          && idx < |trail[currentNode]|
        invariant Nodes(trail[nodeId][k]) == Nodes(trail[currentNode][idx]) + Graphs.Reversed(path)
        decreases trail[currentNode][idx]
      {
        TracedStep(Network(), routeMap, trail, currentNode, idx);
        var s := routeMap[currentNode][idx];
        Graphs.ReversedSnoc(path, currentNode);
        Sequences.Assoc(Nodes(trail[s.idPrev][s.idPrevIdx]), [currentNode], Graphs.Reversed(path));
        path := path + [currentNode];
        currentNode, idx := s.idPrev, s.idPrevIdx;
      }
      pathNode := Graphs.Backwards(path);
    }

    method GetRoute(nodeId: NodeId, pathNode: Route, k: nat) returns (found: bool, pathNode': Route)
      requires Threaded(Network(), routeMap, trail)
      ensures found <==> nodeId in routeMap && k < |routeMap[nodeId]|
      ensures !found ==> pathNode' == pathNode
      ensures found ==> pathNode' == Nodes(trail[nodeId][k])
      ensures found && nodeId != rootNode ==> Genuine(linkArray, rootNode, nodeId, pathNode')
    {
      if nodeId !in routeMap || k >= |routeMap[nodeId]| {
        return false, pathNode;
      }
      found := true;
      pathNode' := Trace(nodeId, k);
      assert Chained(Network(), routeMap, trail, nodeId, k);
      if nodeId != rootNode {
        PathGenuine(Network(), trail[nodeId][k]);
      }
    }

    // Adds a route to v unless it is known already.
    method RecordRoute(v: NodeId, pathNode: Route) returns (routeExist: bool)
      requires v != rootNode && (v in kRoutesMap ==> |kRoutesMap[v]| < K_LIMITE)
      modifies this`kRoutesMap
      ensures routeExist <==> v in old(kRoutesMap) && pathNode in old(kRoutesMap)[v]
      ensures kRoutesMap == if routeExist then old(kRoutesMap) else Noted(Network(), old(kRoutesMap), v, pathNode)
    {
      if v !in kRoutesMap {
        assert [] + [pathNode] == [pathNode];
        kRoutesMap := kRoutesMap[v := [pathNode]];
        return false;
      }
      var kroutes := kRoutesMap[v];
      for j := 0 to |kroutes|
        invariant pathNode !in kroutes[..j]
      {
        if pathNode == kroutes[j] {
          return true;
        }
      }
      if |kroutes| < K_LIMITE {
        kRoutesMap := kRoutesMap[v := kroutes + [pathNode]];
      }
      return false;
    }

    // The state to give up when a node has all its K states.
    method FindWorst(states: seq<State>) returns (permanent: bool, nextIdx: nat, maxCost: CostVector)
      requires forall i :: 0 <= i < |states| ==> |states[i].cost| == |maximumCost|
      ensures var pick := Worst(states, maximumCost);
        maxCost == pick.cost && (permanent <==> pick.idx == -1) && (!permanent ==> nextIdx == pick.idx)
    {
      permanent, nextIdx, maxCost := true, 0, maximumCost;
      for i := 0 to |states|
        invariant var pick := Worst(states[..i], maximumCost);
          maxCost == pick.cost && (permanent <==> pick.idx == -1) && (!permanent ==> nextIdx == pick.idx)
      {
        WorstIs(states[..i], maximumCost);
        assert states[..i + 1][..i] == states[..i];
        var worse := IsLess(maxCost, states[i].cost);
        if worse && states[i].tag == Tent {
          permanent, nextIdx, maxCost := false, i, states[i].cost;
        }
      }
      assert states[..|states|] == states;
    }

    // Takes one element of the same state that newElem beats out of the queue.
    method DropWorse(heap: multiset<SetElem>, newElem: SetElem) returns (heap': multiset<SetElem>)
      requires forall x :: x in heap ==> |newElem.cost| <= |x.cost|
      ensures if heap' == heap
        then forall x :: x in heap && x.iD == newElem.iD && x.idx == newElem.idx ==> !Less(newElem.cost, x.cost)
        else exists x ::
          x in heap && x.iD == newElem.iD && x.idx == newElem.idx && Less(newElem.cost, x.cost) &&
          heap' == heap - multiset{x}
    {
      var rest := heap;
      while rest != multiset{}
        invariant rest <= heap
        invariant forall x :: x in heap && x !in rest && x.iD == newElem.iD && x.idx == newElem.idx ==>
          !Less(newElem.cost, x.cost)
        decreases |rest|
      {
        var x :| x in rest;
        var worse := IsLess(newElem.cost, x.cost);
        if x.iD == newElem.iD && x.idx == newElem.idx && worse {
          return heap - multiset{x};
        }
        rest := rest - multiset{x};
      }
      return heap;
    }

    // State n of e.last is set to be reached by e from state idx of v.
    method Place(ghost heap: multiset<SetElem>, ghost heap': multiset<SetElem>, v: NodeId, idx: nat, e: Edge, n: nat,
        cost: CostVector, ghost done: set<Key>)
      requires Ready() && Searching(Network(), routeMap, kRoutesMap, trail, heap, done, {(v, idx)})
      requires Step(Network(), routeMap, trail, v, idx, e, n) && cost == Total(e.cost, routeMap[v][idx].cost)
      requires SetElem(e.last, n, cost) in heap'
        && forall x :: x in heap' ==> x in heap || x == SetElem(e.last, n, cost)
      requires forall x :: x in heap ==> x in heap' || (x.iD == e.last && x.idx == n)
      modifies this`routeMap, this`trail
      ensures Searching(Network(), routeMap, kRoutesMap, trail, heap', done, {(v, idx)})
      ensures routeMap == Put(old(routeMap), e.last, n, State(cost, v, idx, Tent))
      ensures routeMap.Keys == old(routeMap.Keys) + {e.last} && idx < |routeMap[v]|
        && routeMap[v][idx] == old(routeMap[v][idx])
      ensures trail[v][idx] == old(trail[v][idx]) && Met(Network(), routeMap, trail, trail[v][idx], e)
      ensures MetStays(Network(), old(routeMap), old(trail), routeMap, trail)
    {
      Stepped(Network(), routeMap, kRoutesMap, trail, heap, heap', done, {(v, idx)}, v, idx, e, n);
      hide Threaded, Recorded, Queued, Explored;
      trail := Put(trail, e.last, n, Via(trail[v][idx], e));
      routeMap := Put(routeMap, e.last, n, State(cost, v, idx, Tent));
    }

    // All K states of e.last are taken: the one given up, if any, is set anew.
    method GiveUpWorst(heap: multiset<SetElem>, v: NodeId, idx: nat, e: Edge, cost: CostVector, ghost done: set<Key>)
      returns (heap': multiset<SetElem>)
      requires Ready() && Searching(Network(), routeMap, kRoutesMap, trail, heap, done, {(v, idx)})
      requires v in routeMap && idx < |routeMap[v]| && routeMap[v][idx].tag == Perm && HasEdge(linkArray, v, e)
      requires e.last !in Nodes(trail[v][idx]) && cost == Total(e.cost, routeMap[v][idx].cost) && !Over(Network(), cost)
      requires e.last in routeMap && |routeMap[e.last]| >= K_LIMITE
      modifies this`routeMap, this`trail
      ensures Searching(Network(), routeMap, kRoutesMap, trail, heap', done, {(v, idx)})
      ensures old(routeMap.Keys) == routeMap.Keys && idx < |routeMap[v]| && routeMap[v][idx] == old(routeMap[v][idx])
      ensures trail[v][idx] == old(trail[v][idx]) && Met(Network(), routeMap, trail, trail[v][idx], e)
      ensures MetStays(Network(), old(routeMap), old(trail), routeMap, trail)
      ensures var pick := Worst(old(routeMap[e.last]), maximumCost);
        routeMap == if 0 <= pick.idx < |old(routeMap[e.last])| && Less(cost, pick.cost)
          then Put(old(routeMap), e.last, pick.idx, State(cost, v, idx, Tent)) else old(routeMap)
    {
      hide Threaded, Recorded, Queued, Explored, IsPath, CostOf, Nodes, Over, Total, HasEdge, Less, Sized, Met,
        MetStays;
      Expanding(Network(), routeMap, kRoutesMap, trail, heap, done, v, idx, e);
      StatesSized(Network(), routeMap, trail, e.last);
      WorstIs(routeMap[e.last], maximumCost);
      FullIsMet(Network(), routeMap, trail, trail[v][idx], e);
      var permanent, n, maxCost := FindWorst(routeMap[e.last]);
      var less := IsLess(cost, maxCost);
      heap' := heap;
      if less && !permanent {
        heap' := DropWorse(heap, SetElem(e.last, n, cost));
        heap' := heap' + multiset{SetElem(e.last, n, cost)};
        Place(heap, heap', v, idx, e, n, cost, done);
      }
    }

    // One edge out of the state being expanded.
    method RelaxEdge(heap: multiset<SetElem>, v: NodeId, idx: nat, e: Edge, pathNode: Route, ghost done: set<Key>)
      returns (heap': multiset<SetElem>)
      requires Ready() && Searching(Network(), routeMap, kRoutesMap, trail, heap, done, {(v, idx)})
      requires v in routeMap && idx < |routeMap[v]| && routeMap[v][idx].tag == Perm && HasEdge(linkArray, v, e)
      requires pathNode == Nodes(trail[v][idx])
      modifies this`routeMap, this`trail
      ensures Searching(Network(), routeMap, kRoutesMap, trail, heap', done, {(v, idx)})
      ensures old(routeMap.Keys) <= routeMap.Keys && idx < |routeMap[v]| && routeMap[v][idx] == old(routeMap[v][idx])
      ensures trail[v][idx] == old(trail[v][idx]) && Met(Network(), routeMap, trail, trail[v][idx], e)
      ensures MetStays(Network(), old(routeMap), old(trail), routeMap, trail)
    {
      ghost var net := Network();
      Expanding(net, routeMap, kRoutesMap, trail, heap, done, v, idx, e);
      hide Threaded, Recorded, Queued, Explored, IsPath, CostOf, Nodes;
      if e.last in pathNode {
        return heap;
      }
      var cost := AddCost(e.cost, routeMap[v][idx].cost);
      if limitsData != [] {
        var over := IsLess(limitsData, cost);
        if over {
          return heap;
        }
      }
      var w := e.last;
      if w !in routeMap || |routeMap[w]| < K_LIMITE {
        var n := |Slots(routeMap, w)|;
        heap' := heap + multiset{SetElem(w, n, cost)};
        Place(heap, heap', v, idx, e, n, cost, done);
      } else {
        heap' := GiveUpWorst(heap, v, idx, e, cost, done);
      }
    }

    // All edges out of the state just made permanent.
    method Expand(heap: multiset<SetElem>, v: NodeId, idx: nat, pathNode: Route, ghost done: set<Key>)
      returns (heap': multiset<SetElem>)
      requires Ready() && Searching(Network(), routeMap, kRoutesMap, trail, heap, done, {(v, idx)})
      requires v in routeMap && idx < |routeMap[v]| && routeMap[v][idx].tag == Perm && v in linkArray
      requires pathNode == Nodes(trail[v][idx])
      modifies this`routeMap, this`trail
      ensures Searching(Network(), routeMap, kRoutesMap, trail, heap', done + {(v, idx)}, {})
    {
      ghost var net := Network();
      ghost var p := trail[v][idx];
      heap' := heap;
      for i := 0 to |linkArray[v]|
        invariant Searching(net, routeMap, kRoutesMap, trail, heap', done, {(v, idx)})
        invariant v in routeMap && v in trail && idx < |routeMap[v]| && idx < |trail[v]|
          && routeMap[v][idx].tag == Perm && trail[v][idx] == p
        invariant forall j :: 0 <= j < i ==> Met(net, routeMap, trail, p, linkArray[v][j])
      {
        hide Threaded, Recorded, Queued, Explored, Sized, Over;
        assert HasEdge(linkArray, v, linkArray[v][i]);
        heap' := RelaxEdge(heap', v, idx, linkArray[v][i], pathNode, done);
      }
      Finished(net, routeMap, kRoutesMap, trail, heap', done, v, idx);
    }

    method AllPermanent(states: seq<State>) returns (all: bool)
      ensures all <==> forall i :: 0 <= i < |states| ==> states[i].tag == Perm
    {
      for i := 0 to |states|
        invariant forall j :: 0 <= j < i ==> states[j].tag == Perm
      {
        if states[i].tag != Perm {
          return false;
        }
      }
      return true;
    }

    // K permanent states for the root.
    method Start()
      requires Ready() && rootNode in linkArray && routeMap == map[] && kRoutesMap == map[]
      modifies this`routeMap, this`trail
      ensures Searching(Network(), routeMap, kRoutesMap, trail, multiset{}, {}, {})
      ensures |routeMap[rootNode]| == K_LIMITE
    {
      var states := [];
      for i := 0 to K_LIMITE
        invariant |states| == i
          && forall j :: 0 <= j < i ==> states[j] == State(minimumCost, Graphs.Undefined, -1, Perm)
      {
        states := states + [State(minimumCost, Graphs.Undefined, -1, Perm)];
      }
      routeMap := map[rootNode := states];
      trail := map[rootNode := seq(K_LIMITE, i => Origin)];
      ghost var net := Network();
      assert forall i :: 0 <= i < K_LIMITE ==> Chained(net, routeMap, trail, rootNode, i);
    }

    // Records the route of the popped element's state and makes the state
    // permanent, unless the route is known.
    method Settle(ghost heap: multiset<SetElem>, elem: SetElem, ghost done: set<Key>)
      returns (routeExist: bool, pathNode: Route)
      requires K_LIMITE >= 1 && AtLoop(Network(), routeMap, kRoutesMap, trail, heap, done) && elem in heap
      requires elem.iD in routeMap && 0 <= elem.idx < |routeMap[elem.iD]| && elem.iD in trail
        && elem.idx < |trail[elem.iD]|
      requires elem.iD != rootNode ==> routeMap[elem.iD][elem.idx].tag == Tent
      modifies this`routeMap, this`kRoutesMap
      ensures routeExist ==>
        AtLoop(Network(), routeMap, kRoutesMap, trail, heap - multiset{elem}, done) && kRoutesMap == old(kRoutesMap)
      ensures kRoutesMap.Keys <= old(kRoutesMap.Keys) + {elem.iD}
      ensures !routeExist ==>
        Searching(Network(), routeMap, kRoutesMap, trail, heap - multiset{elem}, done, {(elem.iD, elem.idx)})
      ensures !routeExist ==>
        routeMap == Marked(old(routeMap), elem.iD, elem.idx) && pathNode == Nodes(trail[elem.iD][elem.idx])
      ensures !routeExist ==>
        elem.iD in routeMap && elem.idx < |routeMap[elem.iD]| && routeMap[elem.iD][elem.idx].tag == Perm
    {
      ghost var known := kRoutesMap;
      Popped(Network(), routeMap, kRoutesMap, trail, heap, done, elem);
      var v, idx := elem.iD, elem.idx;
      // The state exists, so the list of states never has to be extended here.
      assert idx < |routeMap[v]|;
      pathNode := Trace(v, idx);
      routeExist := false;
      hide Threaded, Recorded, Queued, Explored, AllKeys, Nodes;
      if pathNode != [] {
        routeExist := RecordRoute(v, pathNode);
      }
      if !routeExist {
        Labelled(Network(), routeMap, known, trail, heap, done, elem);
        routeMap := Marked(routeMap, v, idx);
      }
    }

    // One element out of the queue, whose state is permanent or gets to be; its
    // node may have no edge list.
    method Turn(heap: multiset<SetElem>, elem: SetElem, ghost done: set<Key>)
      returns (found: bool, heap': multiset<SetElem>, ghost done': set<Key>)
      requires Ready() && AtLoop(Network(), routeMap, kRoutesMap, trail, heap, done) && elem in heap
        && kRoutesMap.Keys <= linkArray.Keys
      modifies this`routeMap, this`kRoutesMap, this`trail
      ensures !found ==> Reaches(linkArray, rootNode, elem.iD) && elem.iD !in linkArray
      ensures found ==>
        AtLoop(Network(), routeMap, kRoutesMap, trail, heap', done') && kRoutesMap.Keys <= linkArray.Keys
      ensures found ==>
        (done' == done && heap' == heap - multiset{elem}) || AllKeys(Network()) - done' < AllKeys(Network()) - done
    {
      hide Threaded, Recorded, Queued, Explored, Searching, AllKeys, Nodes, Reaches, AtLoop;
      Popped(Network(), routeMap, kRoutesMap, trail, heap, done, elem);
      var v, idx := elem.iD, elem.idx;
      if v != rootNode {
        var full := AllPermanent(routeMap[v]);
        if routeMap[v][idx].tag == Perm || full {
          return true, heap - multiset{elem}, done;
        }
      }
      found, heap', done' := Visit(heap, elem, done);
    }

    // The element's state becomes permanent, and the edges out of it are taken.
    method Visit(heap: multiset<SetElem>, elem: SetElem, ghost done: set<Key>)
      returns (found: bool, heap': multiset<SetElem>, ghost done': set<Key>)
      requires Ready() && AtLoop(Network(), routeMap, kRoutesMap, trail, heap, done) && elem in heap
        && kRoutesMap.Keys <= linkArray.Keys
      requires elem.iD in routeMap && 0 <= elem.idx < |routeMap[elem.iD]|
      requires elem.iD != rootNode ==> routeMap[elem.iD][elem.idx].tag == Tent
      modifies this`routeMap, this`kRoutesMap, this`trail
      ensures !found ==> Reaches(linkArray, rootNode, elem.iD) && elem.iD !in linkArray
      ensures found ==>
        AtLoop(Network(), routeMap, kRoutesMap, trail, heap', done') && kRoutesMap.Keys <= linkArray.Keys
      ensures found ==>
        (done' == done && heap' == heap - multiset{elem}) || AllKeys(Network()) - done' < AllKeys(Network()) - done
    {
      hide Threaded, Recorded, Queued, Explored, Searching, Sized, AllKeys, Nodes, Reaches, AtLoop, Marked;
      ghost var net := Network();
      SizedHasRoom(net);
      Popped(net, routeMap, kRoutesMap, trail, heap, done, elem);
      var v, idx := elem.iD, elem.idx;
      var routeExist, pathNode := Settle(heap, elem, done);
      found, heap', done' := true, heap - multiset{elem}, done;
      if !routeExist {
        if v !in linkArray {
          SettledReached(net, routeMap, kRoutesMap, trail, heap', done, v, idx);
          return false, heap', done;
        }
        heap' := Expand(heap', v, idx, pathNode, done);
        done' := done + {(v, idx)};
        Looping(net, routeMap, kRoutesMap, trail, heap', done, (v, idx));
        assert (v, idx) in AllKeys(net) - done && (v, idx) !in AllKeys(net) - done';
      }
    }

    // Up to K routes from the root to every node.
    method Run() returns (outcome: Outcome)
      requires Ready()
      modifies this`routeMap, this`kRoutesMap, this`trail
      ensures outcome == NodeNotFound <==> rootNode !in linkArray
      ensures outcome == LinkNotFound ==> exists v :: Reaches(linkArray, rootNode, v) && v !in linkArray
      ensures rootNode in linkArray && limitsData == [] ==>
        (outcome == LinkNotFound <==> exists v :: Reaches(linkArray, rootNode, v) && v !in linkArray)
      ensures outcome == Done ==> Threaded(Network(), routeMap, trail)
      ensures outcome == Done ==> forall v :: v in kRoutesMap ==> v != rootNode && RoutesOf(Network(), v, kRoutesMap[v])
      ensures outcome == Done && limitsData == [] ==> Extended(Network(), routeMap, kRoutesMap)
      ensures outcome == Done && limitsData == [] ==>
        forall v :: v in kRoutesMap <==> v != rootNode && Reaches(linkArray, rootNode, v)
    {
      routeMap, kRoutesMap := map[], map[];
      if rootNode !in linkArray {
        return NodeNotFound;
      }
      hide Threaded, Recorded, Queued, Explored, Searching, Sized, AllKeys, Nodes, Reaches, RoutesOf, AtLoop, Extended,
        Marked;
      Start();
      ghost var net := Network();
      ghost var done: set<Key> := {};
      var heap := multiset{SetElem(rootNode, 0, minimumCost)};
      LoopStarts(net, routeMap, kRoutesMap, trail);
      while heap != multiset{}
        invariant AtLoop(net, routeMap, kRoutesMap, trail, heap, done) && kRoutesMap.Keys <= linkArray.Keys
        decreases AllKeys(net) - done, |heap|
      {
        var elem :| elem in heap;
        var found;
        found, heap, done := Turn(heap, elem, done);
        if !found {
          return LinkNotFound;
        }
      }
      Looped(net, routeMap, kRoutesMap, trail, done);
      AllFound(net, routeMap, kRoutesMap, trail, done);
      outcome := Done;
    }
  }
}
