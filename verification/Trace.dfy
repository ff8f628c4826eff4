/** TraceActualPath: the hop-by-hop walk of a flow, for any hash function. */
module Trace {
  import opened Network
  import opened Bfs
  import opened Routes

  // GetFlowHash for one flow: a 32-bit value per switch.
  type Hash = Node -> Word

  // What nextHop[v][dst] holds once CalculateRoutes has run: tables are built for hosts only.
  ghost function NextHops(net: Net, v: Node, dst: Node): seq<Node>
    requires Query(net, dst)
  {
    if net.kind[dst].Host? then Hops(net, dst, v) else []
  }

  ghost function Step(net: Net, v: Node, dst: Node, hash: Hash): (u: Node)
    requires Query(net, dst) && NextHops(net, v, dst) != []
    ensures Up(net, v, u) && Visited(net, dst, u) && Visited(net, dst, v) && v != dst
    ensures Dis(net, dst, u) + 1 == Dis(net, dst, v) && u in Hops(net, dst, v)
  {
    HopsNonEmpty(net, dst, v);
    HopsAreNearer(net, dst, v);
    var hops := NextHops(net, v, dst);
    hops[hash(v) % |hops|]
  }

  // The (node, port) pairs pushed by the loop, from node v on.
  ghost function Walk(net: Net, v: Node, dst: Node, hash: Hash): seq<(Node, nat)>
    requires Query(net, dst)
    decreases if Visited(net, dst, v) then Dis(net, dst, v) else 0
  {
    if v == dst || NextHops(net, v, dst) == [] then [] else
      var next := Step(net, v, dst, hash);
      [(v, net.nbr2if[v][next].idx)] + Walk(net, next, dst, hash)
  }

  // The path TraceActualPath returns.
  ghost function Traced(net: Net, src: Node, dst: Node, hash: Hash): seq<(Node, nat)>
    requires Query(net, dst)
  {
    Walk(net, src, dst, hash) + [(dst, 0)]
  }

  function NodesOf(t: seq<(Node, nat)>): (p: seq<Node>)
    ensures |p| == |t| && forall i :: 0 <= i < |t| ==> p[i] == t[i].0
  {
    seq(|t|, i requires 0 <= i < |t| => t[i].0)
  }

  // A path of minimum length, in terms of the recorded distance.
  ghost predicate Tight(net: Net, p: seq<Node>, src: Node, dst: Node)
    requires Query(net, dst)
  {
    IsPath(net, p, src, dst) && Visited(net, dst, src) && |p| == Dis(net, dst, src) + 1
  }

  lemma TightIsShortest(net: Net, p: seq<Node>, src: Node, dst: Node)
    requires Query(net, dst)
    ensures Tight(net, p, src, dst) <==> IsShortest(net, p, src, dst)
  {
    DistanceIsShortest(net, dst, src);
  }

  lemma TracedStep(net: Net, v: Node, dst: Node, hash: Hash)
    requires Query(net, dst) && v != dst && NextHops(net, v, dst) != []
    ensures NodesOf(Traced(net, v, dst, hash)) == [v] + NodesOf(Traced(net, Step(net, v, dst, hash), dst, hash))
  {
  }

  lemma TightExtend(net: Net, v: Node, u: Node, dst: Node, p: seq<Node>)
    requires Query(net, dst) && u in Hops(net, dst, v) && Tight(net, p, u, dst)
    ensures Tight(net, [v] + p, v, dst)
  {
    HopsAreNearer(net, dst, v);
    AtHost(net, dst);
    AtNode(net, dst, v);
    PathExtend(net, p, v, u, dst);
  }

  lemma {:induction false} WalkIsTight(net: Net, v: Node, dst: Node, hash: Hash)
    requires Query(net, dst) && net.kind[dst].Host? && Visited(net, dst, v)
    ensures Tight(net, NodesOf(Traced(net, v, dst, hash)), v, dst)
    decreases Dis(net, dst, v)
  {
    HopsNonEmpty(net, dst, v);
    AtHost(net, dst);
    if v == dst {
      assert NodesOf(Traced(net, v, dst, hash)) == [dst];
    } else {
      hide Tight;
      var next := Step(net, v, dst, hash);
      WalkIsTight(net, next, dst, hash);
      TracedStep(net, v, dst, hash);
      TightExtend(net, v, next, dst, NodesOf(Traced(net, next, dst, hash)));
    }
  }

  // Along a path of minimum length the distance drops by one per hop, so no node repeats.
  lemma {:induction false} TightCountsDown(net: Net, p: seq<Node>, src: Node, dst: Node, i: nat)
    requires Query(net, dst) && Tight(net, p, src, dst) && i < |p|
    ensures Visited(net, dst, p[i]) && Dis(net, dst, p[i]) == |p| - 1 - i
    decreases i
  {
    if i > 0 {
      TightStep(net, dst, p, src);
      TightCountsDown(net, p[1..], p[1], dst, i - 1);
    }
  }

  lemma TightLoopFree(net: Net, p: seq<Node>, src: Node, dst: Node)
    requires Query(net, dst) && Tight(net, p, src, dst)
    ensures NoDup(p)
  {
    forall i, j | 0 <= i < j < |p| ensures p[i] != p[j] {
      TightCountsDown(net, p, src, dst, i);
      TightCountsDown(net, p, src, dst, j);
    }
  }

  // ---- Every path of minimum length is the trace of some hash function ----

  function IndexOf(s: seq<Node>, v: Node): (i: nat)
    requires v in s
    ensures i < |s| && s[i] == v
  {
    if s[0] == v then 0 else 1 + IndexOf(s[1..], v)
  }

  lemma HopsFit(net: Net, dst: Node, v: Node)
    requires Query(net, dst)
    ensures |Hops(net, dst, v)| <= |net.kind| <= 0x1_0000_0000
  {
    HopsAreNearer(net, dst, v);
    forall i | 0 <= i < |Hops(net, dst, v)| ensures Hops(net, dst, v)[i] < |net.kind| {
      assert Hops(net, dst, v)[i] in Hops(net, dst, v);
    }
    NoDupBound(Hops(net, dst, v), |net.kind|);
  }

  // A hash function that steers a flow along p.
  ghost function Steer(net: Net, p: seq<Node>, src: Node, dst: Node): Hash
    requires Query(net, dst) && Tight(net, p, src, dst)
    decreases |p|
  {
    if |p| == 1 then (v: Node) => 0 else
      TightStep(net, dst, p, src);
      HopsFit(net, dst, src);
      var rest := Steer(net, p[1..], p[1], dst);
      var choice: Word := IndexOf(Hops(net, dst, src), p[1]);
      (v: Node) => if v == src then choice else rest(v)
  }

  // The walk from v only consults the hash at nodes no farther than v.
  lemma {:induction false} WalkDependsOn(net: Net, v: Node, dst: Node, h: Hash, h': Hash)
    requires Query(net, dst) && Visited(net, dst, v)
    requires forall u: Node :: Visited(net, dst, u) && Dis(net, dst, u) <= Dis(net, dst, v) ==> h(u) == h'(u)
    ensures Walk(net, v, dst, h) == Walk(net, v, dst, h')
    decreases Dis(net, dst, v)
  {
    if v != dst && NextHops(net, v, dst) != [] {
      assert Step(net, v, dst, h) == Step(net, v, dst, h');
      WalkDependsOn(net, Step(net, v, dst, h), dst, h, h');
    }
  }

  lemma SteerAt(net: Net, p: seq<Node>, src: Node, dst: Node, v: Node)
    requires Query(net, dst) && Tight(net, p, src, dst) && |p| > 1 && Tight(net, p[1..], p[1], dst)
    ensures v != src ==> Steer(net, p, src, dst)(v) == Steer(net, p[1..], p[1], dst)(v)
    ensures p[1] in Hops(net, dst, src) && Steer(net, p, src, dst)(src) == IndexOf(Hops(net, dst, src), p[1])
  {
    TightStep(net, dst, p, src);
  }

  lemma SteerStep(net: Net, p: seq<Node>, src: Node, dst: Node)
    requires Query(net, dst) && net.kind[dst].Host? && Tight(net, p, src, dst) && |p| > 1
    requires Tight(net, p[1..], p[1], dst)
    ensures src != dst && NextHops(net, src, dst) != []
    ensures Step(net, src, dst, Steer(net, p, src, dst)) == p[1]
  {
    hide Steer, Route, IsPath;
    AtHost(net, dst);
    HopsNonEmpty(net, dst, src);
    SteerAt(net, p, src, dst, src);
    SmallMod(Steer(net, p, src, dst)(src), |Hops(net, dst, src)|);
  }

  lemma SmallMod(i: nat, m: nat)
    requires i < m
    ensures i % m == i
  {
  }

  lemma SteerOn(net: Net, p: seq<Node>, src: Node, dst: Node)
    requires Query(net, dst) && Tight(net, p, src, dst) && |p| > 1 && Tight(net, p[1..], p[1], dst)
    ensures Walk(net, p[1], dst, Steer(net, p, src, dst)) == Walk(net, p[1], dst, Steer(net, p[1..], p[1], dst))
  {
    forall u: Node | Visited(net, dst, u) && Dis(net, dst, u) <= Dis(net, dst, p[1])
      ensures Steer(net, p, src, dst)(u) == Steer(net, p[1..], p[1], dst)(u)
    {
      SteerAt(net, p, src, dst, u);
    }
    WalkDependsOn(net, p[1], dst, Steer(net, p, src, dst), Steer(net, p[1..], p[1], dst));
  }

  lemma {:induction false} SteerTraces(net: Net, p: seq<Node>, src: Node, dst: Node)
    requires Query(net, dst) && net.kind[dst].Host? && Tight(net, p, src, dst)
    ensures NodesOf(Traced(net, src, dst, Steer(net, p, src, dst))) == p
    decreases |p|
  {
    AtHost(net, dst);
    if |p| == 1 {
      assert NodesOf(Traced(net, src, dst, Steer(net, p, src, dst))) == [dst];
    } else {
      hide Steer;
      TightStep(net, dst, p, src);
      SteerStep(net, p, src, dst);
      SteerOn(net, p, src, dst);
      SteerTraces(net, p[1..], p[1], dst);
      TracedStep(net, src, dst, Steer(net, p, src, dst));
      assert p == [src] + p[1..];
    }
  }

  // ---- Main results ----

  // Over all hash functions, the traces to a reachable host are exactly the shortest paths.
  lemma TracesAreShortestPaths(net: Net, src: Node, dst: Node, p: seq<Node>)
    requires Query(net, dst) && net.kind[dst].Host? && Reachable(net, src, dst)
    ensures (exists hash: Hash :: NodesOf(Traced(net, src, dst, hash)) == p) <==> IsShortest(net, p, src, dst)
  {
    DistanceIsShortest(net, dst, src);
    TightIsShortest(net, p, src, dst);
    forall hash: Hash ensures Tight(net, NodesOf(Traced(net, src, dst, hash)), src, dst) {
      WalkIsTight(net, src, dst, hash);
    }
    if IsShortest(net, p, src, dst) {
      SteerTraces(net, p, src, dst);
    }
  }

  // Each of them is loop-free, takes dis hops, and ends in (dst, 0).
  lemma TraceLoopFree(net: Net, src: Node, dst: Node, hash: Hash)
    requires Query(net, dst) && net.kind[dst].Host? && Reachable(net, src, dst)
    ensures var t := Traced(net, src, dst, hash);
      NoDup(NodesOf(t)) && Visited(net, dst, src) && |t| == Dis(net, dst, src) + 1 && t[|t| - 1] == (dst, 0)
  {
    DistanceIsShortest(net, dst, src);
    WalkIsTight(net, src, dst, hash);
    TightLoopFree(net, NodesOf(Traced(net, src, dst, hash)), src, dst);
  }

  // A hop crosses an up link, and is listed with the interface of that link.
  predicate Forwards(net: Net, x: (Node, nat), y: (Node, nat)) {
    Up(net, x.0, y.0) && x.1 == net.nbr2if[x.0][y.0].idx
  }

  lemma {:induction false} TracePortAt(net: Net, v: Node, dst: Node, hash: Hash, i: nat)
    requires Query(net, dst) && i < |Walk(net, v, dst, hash)|
    ensures var t := Traced(net, v, dst, hash); Forwards(net, t[i], t[i + 1])
    decreases i
  {
    var next := Step(net, v, dst, hash);
    var t := Traced(net, v, dst, hash);
    assert t == [(v, net.nbr2if[v][next].idx)] + Traced(net, next, dst, hash);
    if i > 0 {
      TracePortAt(net, next, dst, hash, i - 1);
    } else {
      HopsNonEmpty(net, dst, next);
      AtHost(net, dst);
    }
  }

  lemma TracePorts(net: Net, src: Node, dst: Node, hash: Hash)
    requires Query(net, dst)
    ensures var t := Traced(net, src, dst, hash); forall i :: 0 <= i < |t| - 1 ==> Forwards(net, t[i], t[i + 1])
  {
    var t := Traced(net, src, dst, hash);
    forall i | 0 <= i < |t| - 1 ensures Forwards(net, t[i], t[i + 1]) {
      TracePortAt(net, src, dst, hash, i);
    }
  }

  // The hop after x is the one that x's own hash picks from the list of next hops, modulo its length.
  ghost predicate Picks(net: Net, x: (Node, nat), y: (Node, nat), dst: Node, hash: Hash)
    requires Query(net, dst)
  {
    && x.0 != dst && net.kind[dst].Host? && Hops(net, dst, x.0) != []
    && y.0 == Hops(net, dst, x.0)[hash(x.0) % |Hops(net, dst, x.0)|]
  }

  lemma {:induction false} TraceChoiceAt(net: Net, v: Node, dst: Node, hash: Hash, i: nat)
    requires Query(net, dst) && i < |Walk(net, v, dst, hash)|
    ensures var t := Traced(net, v, dst, hash); Picks(net, t[i], t[i + 1], dst, hash)
    decreases i
  {
    var next := Step(net, v, dst, hash);
    var t := Traced(net, v, dst, hash);
    assert t == [(v, net.nbr2if[v][next].idx)] + Traced(net, next, dst, hash);
    if i > 0 {
      TraceChoiceAt(net, next, dst, hash, i - 1);
    } else {
      HopsNonEmpty(net, dst, next);
      AtHost(net, dst);
    }
  }

  lemma TraceChoices(net: Net, src: Node, dst: Node, hash: Hash)
    requires Query(net, dst)
    ensures var t := Traced(net, src, dst, hash);
      (|t| > 1 ==> t[0].0 == src) && forall i :: 0 <= i < |t| - 1 ==> Picks(net, t[i], t[i + 1], dst, hash)
  {
    var t := Traced(net, src, dst, hash);
    forall i | 0 <= i < |t| - 1 ensures Picks(net, t[i], t[i + 1], dst, hash) {
      TraceChoiceAt(net, src, dst, hash, i);
    }
  }

  // An unreachable destination, or one that is a switch, yields only the final pair.
  lemma TraceUnreachable(net: Net, src: Node, dst: Node, hash: Hash)
    requires Query(net, dst)
    ensures Traced(net, src, dst, hash) == [(dst, 0)] <==> src == dst || net.kind[dst].Switch? || !Reachable(net, src, dst)
  {
    HopsNonEmpty(net, dst, src);
    DistanceIsShortest(net, dst, src);
  }
}
