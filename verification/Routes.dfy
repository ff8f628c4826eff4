/** What CalculateRoute computes, stated about paths: distances, next hops and path metrics. */
module Routes {
  import opened Network
  import opened Bfs

  ghost predicate Query(net: Net, host: Node) {
    Valid(net) && host < |net.kind|
  }

  ghost predicate Visited(net: Net, host: Node, v: Node)
    requires Query(net, host)
  {
    v in Route(net, host).labels
  }

  // The dis entry of a visited node.
  ghost function Dis(net: Net, host: Node, v: Node): nat
    requires Query(net, host) && Visited(net, host, v)
  {
    Route(net, host).labels[v].dis
  }

  // Node v is the host, or was enqueued.
  ghost predicate Transit(net: Net, host: Node, v: Node) {
    v < |net.kind| && (v == host || net.kind[v].Switch?)
  }

  ghost function Hops(net: Net, host: Node, v: Node): seq<Node>
    requires Query(net, host)
  {
    HopsAt(Route(net, host).hops, v)
  }

  // ---- Facts of the final search state, one at a time ----

  lemma AtHost(net: Net, host: Node)
    requires Query(net, host)
    ensures Visited(net, host, host) && Dis(net, host, host) == 0
    ensures Route(net, host).labels[host] == Label(0, 0, 0, MAX_BW, host)
  {
    RouteInv(net, host);
  }

  lemma AtNode(net: Net, host: Node, v: Node)
    requires Query(net, host) && Visited(net, host, v) && v != host
    ensures var st := Route(net, host);
      v < |net.kind| && TreeEdge(net, host, st, st.labels[v].predecessor, v)
  {
    RouteInv(net, host);
  }

  lemma TransitQueued(net: Net, host: Node, v: Node)
    requires Query(net, host)
    ensures v in Route(net, host).q <==> Visited(net, host, v) && Transit(net, host, v)
  {
    RouteInv(net, host);
  }

  lemma AcrossLink(net: Net, host: Node, u: Node, v: Node)
    requires Query(net, host) && Visited(net, host, u) && Transit(net, host, u) && Up(net, u, v)
    ensures Visited(net, host, v) && Dis(net, host, v) <= Dis(net, host, u) + 1
  {
    RouteInv(net, host);
    TransitQueued(net, host, u);
    var st := Route(net, host);
    var a :| 0 <= a < |st.q| && st.q[a] == u;
    assert Closed(net, st, |st.q|);
  }

  // ---- Distances ----

  // The predecessor chain from a visited node leads to the host, over exactly dis links.
  ghost function TreePath(net: Net, host: Node, v: Node): (p: seq<Node>)
    requires Query(net, host) && Visited(net, host, v)
    ensures IsPath(net, p, v, host) && |p| == Dis(net, host, v) + 1
    decreases Dis(net, host, v)
  {
    AtHost(net, host);
    if v == host then [host] else
      AtNode(net, host, v);
      var u := Route(net, host).labels[v].predecessor;
      PathExtend(net, TreePath(net, host, u), v, u, host);
      [v] + TreePath(net, host, u)
  }

  // Any path to the host visits a node no later than it does.
  lemma {:induction false} PathBound(net: Net, host: Node, p: seq<Node>, v: Node)
    requires Query(net, host) && IsPath(net, p, v, host)
    ensures Visited(net, host, v) && Dis(net, host, v) <= |p| - 1
    decreases |p|
  {
    AtHost(net, host);
    if |p| > 1 {
      PathTail(net, p, v, host);
      PathBound(net, host, p[1..], p[1]);
      assert Up(net, p[0], p[1]);
      AcrossLink(net, host, p[1], v);
    }
  }

  // dis holds exactly the nodes with a path to the host, at their true minimum hop count.
  lemma DistanceIsShortest(net: Net, host: Node, v: Node)
    requires Query(net, host)
    ensures Visited(net, host, v) <==> Reachable(net, v, host)
    ensures Visited(net, host, v) ==>
      (forall p :: IsShortest(net, p, v, host) <==> IsPath(net, p, v, host) && |p| == Dis(net, host, v) + 1)
    ensures Visited(net, host, v) ==> exists p :: IsShortest(net, p, v, host)
  {
    forall p | IsPath(net, p, v, host) ensures Visited(net, host, v) && Dis(net, host, v) + 1 <= |p| {
      PathBound(net, host, p, v);
    }
    if Visited(net, host, v) {
      assert IsPath(net, TreePath(net, host, v), v, host);
      assert IsShortest(net, TreePath(net, host, v), v, host);
    }
  }

  // ---- Next hops ----

  lemma {:induction false} ParentsExact(net: Net, labels: map<Node, Label>, us: seq<Node>, v: Node)
    requires NoDup(us)
    ensures NoDup(Parents(net, labels, us, v))
    ensures forall u :: u in Parents(net, labels, us, v) <==> u in us && Nearer(net, labels, u, v)
  {
    if us != [] {
      var rest := us[..|us| - 1];
      ParentsExact(net, labels, rest, v);
      assert us == rest + [us[|us| - 1]];
    }
  }

  // nextHop[v][host] lists, without duplicates, the up-neighbours one hop nearer that may forward.
  lemma HopsAreNearer(net: Net, host: Node, v: Node)
    requires Query(net, host)
    ensures NoDup(Hops(net, host, v))
    ensures forall u: Node :: u in Hops(net, host, v) <==>
      Up(net, v, u) && Transit(net, host, u) && Visited(net, host, u) && Visited(net, host, v)
      && Dis(net, host, u) + 1 == Dis(net, host, v)
  {
    RouteInv(net, host);
    var st := Route(net, host);
    assert HopsExact(net, st, |st.q|) && st.q[..|st.q|] == st.q;
    assert Hops(net, host, v) == Parents(net, st.labels, st.q, v);
    ParentsExact(net, st.labels, st.q, v);
    forall u: Node ensures u in st.q <==> Visited(net, host, u) && Transit(net, host, u) {
      TransitQueued(net, host, u);
    }
    forall u: Node ensures Up(net, u, v) <==> Up(net, v, u) {}
  }

  lemma HopStartsShortest(net: Net, host: Node, v: Node, u: Node)
    requires Query(net, host) && u in Hops(net, host, v)
    ensures exists p :: IsShortest(net, p, v, host) && |p| > 1 && p[1] == u
  {
    HopsAreNearer(net, host, v);
    AtHost(net, host);
    AtNode(net, host, v);
    var p := [v] + TreePath(net, host, u);
    PathExtend(net, TreePath(net, host, u), v, u, host);
    DistanceIsShortest(net, host, v);
    assert IsShortest(net, p, v, host) && p[1] == u;
  }

  // A path of minimum length steps to a next hop, and goes on from there by a path of minimum length.
  lemma TightStep(net: Net, host: Node, p: seq<Node>, v: Node)
    requires Query(net, host) && IsPath(net, p, v, host) && |p| > 1
    requires Visited(net, host, v) && |p| == Dis(net, host, v) + 1
    ensures p[1] in Hops(net, host, v)
    ensures IsPath(net, p[1..], p[1], host) && Visited(net, host, p[1]) && |p[1..]| == Dis(net, host, p[1]) + 1
  {
    assert Up(net, p[0], p[1]);
    PathTail(net, p, v, host);
    PathBound(net, host, p[1..], p[1]);
    TightHop(net, host, v, p[1], |p|);
  }

  lemma TightHop(net: Net, host: Node, v: Node, u: Node, n: nat)
    requires Query(net, host) && Visited(net, host, v) && n == Dis(net, host, v) + 1
    requires Up(net, v, u) && Visited(net, host, u) && Dis(net, host, u) <= n - 2 && Transit(net, host, u)
    ensures u in Hops(net, host, v) && Dis(net, host, u) == n - 2
  {
    assert Up(net, u, v);
    AcrossLink(net, host, u, v);
    HopsAreNearer(net, host, v);
  }

  // The same without the search: they are exactly the second nodes of the shortest paths.
  lemma HopsAreFirstSteps(net: Net, host: Node, v: Node, u: Node)
    requires Query(net, host)
    ensures u in Hops(net, host, v) <==> exists p :: IsShortest(net, p, v, host) && |p| > 1 && p[1] == u
  {
    if u in Hops(net, host, v) {
      HopStartsShortest(net, host, v, u);
    }
    forall p | IsShortest(net, p, v, host) && |p| > 1 && p[1] == u ensures u in Hops(net, host, v) {
      PathBound(net, host, p, v);
      DistanceIsShortest(net, host, v);
      TightStep(net, host, p, v);
    }
  }

  // A visited node other than the host has a next hop; a node with a next hop is visited.
  lemma HopsNonEmpty(net: Net, host: Node, v: Node)
    requires Query(net, host)
    ensures Hops(net, host, v) != [] <==> Visited(net, host, v) && v != host
  {
    HopsAreNearer(net, host, v);
    AtHost(net, host);
    if Hops(net, host, v) != [] { assert Hops(net, host, v)[0] in Hops(net, host, v); }
    if Visited(net, host, v) && v != host {
      AtNode(net, host, v);
      assert Route(net, host).labels[v].predecessor in Hops(net, host, v);
    }
  }

  // ---- Distances of a known graph ----

  // f has the local properties of the distance to host.
  ghost predicate IsPotential(net: Net, host: Node, f: Node -> nat) {
    && f(host) == 0
    && (forall v: Node :: v < |net.kind| && v != host ==> Descends(net, host, f, v))
    && (forall u: Node, v: Node :: Up(net, u, v) && Transit(net, host, u) ==> f(v) <= f(u) + 1)
  }

  ghost predicate Descends(net: Net, host: Node, f: Node -> nat, v: Node) {
    exists u: Node :: Up(net, v, u) && Transit(net, host, u) && f(u) + 1 == f(v)
  }

  lemma {:induction false} PotentialBelow(net: Net, host: Node, f: Node -> nat, v: Node)
    requires Query(net, host) && IsPotential(net, host, f) && Visited(net, host, v)
    ensures f(v) <= Dis(net, host, v)
    decreases Dis(net, host, v)
  {
    AtHost(net, host);
    if v != host {
      AtNode(net, host, v);
      PotentialBelow(net, host, f, Route(net, host).labels[v].predecessor);
    }
  }

  lemma {:induction false} PotentialAbove(net: Net, host: Node, f: Node -> nat, v: Node)
    requires Query(net, host) && IsPotential(net, host, f) && v < |net.kind|
    ensures Visited(net, host, v) && Dis(net, host, v) <= f(v)
    decreases f(v)
  {
    AtHost(net, host);
    if v != host {
      assert Descends(net, host, f, v);
      var u: Node :| Up(net, v, u) && Transit(net, host, u) && f(u) + 1 == f(v);
      PotentialAbove(net, host, f, u);
      assert Up(net, u, v);
      AcrossLink(net, host, u, v);
    }
  }

  // A function with these local properties is the distance, and every node is reached.
  lemma PotentialIsDistance(net: Net, host: Node, f: Node -> nat, v: Node)
    requires Query(net, host) && IsPotential(net, host, f) && v < |net.kind|
    ensures Visited(net, host, v) && Dis(net, host, v) == f(v)
  {
    PotentialAbove(net, host, f, v);
    PotentialBelow(net, host, f, v);
  }
}
