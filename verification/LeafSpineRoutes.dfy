/** Routing on the generated leaf-spine graph: distances, next hops, the hops executeFlow writes, and a whole run. */
module LeafSpineRoutes {
  import opened Network
  import opened Bfs
  import opened Routes
  import opened Trace
  import opened Tables
  import opened LeafSpine
  import opened Simulator

  // What LeafSpine.GeneratedGraph and GeneratedValid establish of the graph main builds.
  ghost predicate OnLeafSpine(z: Sizes, net: Net) {
    && Positive(z) && Valid(net)
    && |net.kind| == Servers(z) + z.tors + z.spines
    && (forall v :: 0 <= v < |net.kind| ==> (net.kind[v].Host? <==> v < Servers(z)))
    && (forall u: Node, v: Node :: Up(net, u, v) <==> Connected(z, u, v))
  }

  lemma MainBuildsLeafSpine(z: Sizes, t: Topology, net: Net)
    requires Positive(z) && Generated(z, t) && BuiltFrom(net, t) && IsOrder(net.pointerOrder, net.rank, t.nodeNum)
    requires t.nodeNum <= 0x1_0000_0000
    ensures OnLeafSpine(z, net) && Ported(z, net) && Numbered(net)
  {
    GeneratedGraph(z, t, net);
    GeneratedValid(z, t, net);
    GeneratedPorts(z, t, net);
    BuiltNumbered(net, t);
  }

  predicate IsTor(z: Sizes, v: Node) { Servers(z) <= v < Servers(z) + z.tors }

  predicate IsSpine(z: Sizes, v: Node) { Servers(z) + z.tors <= v < Servers(z) + z.tors + z.spines }

  // Hop count from v to server h.
  function Level(z: Sizes, h: Node, v: Node): nat
    requires Positive(z)
  {
    if v == h then 0
    else if v < Servers(z) then (if TorOf(z, v) == TorOf(z, h) then 2 else 4)
    else if v == TorOf(z, h) then 1
    else if IsSpine(z, v) then 2
    else 3
  }

  function LevelTo(z: Sizes, h: Node): Node -> nat
    requires Positive(z)
  {
    (v: Node) => Level(z, h, v)
  }

  lemma TorRange(z: Sizes, s: Node)
    requires Positive(z) && s < Servers(z)
    ensures IsTor(z, TorOf(z, s))
  {
    TorOfRange(z, s);
    hide Servers, TorOf;
  }

  lemma LevelDescends(z: Sizes, net: Net, h: Node, v: Node)
    requires OnLeafSpine(z, net) && h < Servers(z) && v < |net.kind| && v != h
    ensures Descends(net, h, LevelTo(z, h), v)
  {
    hide Valid, TorOf;
    TorRange(z, h);
    var u := if v < Servers(z) then TorOf(z, v)
             else if v == TorOf(z, h) then h
             else if IsSpine(z, v) then TorOf(z, h)
             else Servers(z) + z.tors;
    if v < Servers(z) { TorRange(z, v); }
    assert Connected(z, v, u);
    assert Up(net, v, u) && Transit(net, h, u) && Level(z, h, u) + 1 == Level(z, h, v);
  }

  lemma LevelIsPotential(z: Sizes, net: Net, h: Node)
    requires OnLeafSpine(z, net) && h < Servers(z)
    ensures IsPotential(net, h, LevelTo(z, h))
  {
    forall v: Node | v < |net.kind| && v != h ensures Descends(net, h, LevelTo(z, h), v) {
      LevelDescends(z, net, h, v);
    }
    forall u: Node, v: Node | Up(net, u, v) && Transit(net, h, u) ensures Level(z, h, v) <= Level(z, h, u) + 1 {
      LevelStep(z, h, u, v);
    }
  }

  lemma LevelStep(z: Sizes, h: Node, u: Node, v: Node)
    requires Positive(z) && h < Servers(z) && Connected(z, u, v) && (u == h || u >= Servers(z))
    ensures Level(z, h, v) <= Level(z, h, u) + 1
  {
    TorRange(z, h);
    if u < Servers(z) {
      ServerCable(z, u, v);
    } else if v < Servers(z) {
      ServerCable(z, v, u);
      TorRange(z, v);
    } else {
      hide TorOf;
    }
  }

  // Every server reaches every server, in 2 hops under one ToR and in 4 across ToRs.
  lemma ServerDistance(z: Sizes, net: Net, h: Node, v: Node)
    requires OnLeafSpine(z, net) && h < Servers(z) && v < |net.kind|
    ensures Query(net, h) && Visited(net, h, v) && Dis(net, h, v) == Level(z, h, v)
  {
    LevelIsPotential(z, net, h);
    PotentialIsDistance(net, h, LevelTo(z, h), v);
  }

  // A ToR's next hops to a server under another ToR are all the spines, once each.
  lemma TorHopsAreSpines(z: Sizes, net: Net, h: Node, tor: Node)
    requires OnLeafSpine(z, net) && h < Servers(z) && IsTor(z, tor) && tor != TorOf(z, h)
    ensures Query(net, h) && NoDup(NextHops(net, tor, h)) && |NextHops(net, tor, h)| == z.spines
    ensures forall u: Node :: u in NextHops(net, tor, h) <==> IsSpine(z, u)
  {
    HopsAreNearer(net, h, tor);
    ServerDistance(z, net, h, tor);
    forall u: Node ensures u in NextHops(net, tor, h) <==> IsSpine(z, u) {
      if u < |net.kind| { ServerDistance(z, net, h, u); }
      TorNeighbour(z, h, tor, u);
    }
    SpinesCounted(z, NextHops(net, tor, h));
  }

  lemma TorNeighbour(z: Sizes, h: Node, tor: Node, u: Node)
    requires Positive(z) && h < Servers(z) && IsTor(z, tor) && tor != TorOf(z, h)
    ensures Connected(z, tor, u) && Level(z, h, u) + 1 == Level(z, h, tor) && (u == h || u >= Servers(z)) <==> IsSpine(z, u)
  {
    TorRange(z, h);
  }

  lemma SpinesCounted(z: Sizes, us: seq<Node>)
    requires NoDup(us) && forall u: Node :: u in us <==> IsSpine(z, u)
    ensures |us| == z.spines
  {
    var lo := Servers(z) + z.tors;
    var all := seq(z.spines, i requires 0 <= i < z.spines => lo + i);
    forall u: Node ensures u in all <==> u in us {
      if IsSpine(z, u) { assert all[u - lo] == u; }
    }
    NoDupCard(us);
    NoDupCard(all);
    assert Elements(us) == Elements(all);
  }

  // A path of the recorded length between two servers.
  lemma PathShape(z: Sizes, net: Net, src: Node, dst: Node, p: seq<Node>)
    requires OnLeafSpine(z, net) && src < Servers(z) && dst < Servers(z) && src != dst
    requires IsPath(net, p, src, dst) && |p| == Level(z, dst, src) + 1
    ensures |p| == if TorOf(z, src) == TorOf(z, dst) then 3 else 5
    ensures p[1] == TorOf(z, src) && p[|p| - 2] == TorOf(z, dst)
    ensures |p| == 5 ==> IsSpine(z, p[2])
  {
    assert Up(net, p[0], p[1]) && Up(net, p[|p| - 2], p[|p| - 1]);
    ServerCable(z, src, p[1]);
    ServerCable(z, dst, p[|p| - 2]);
    if |p| == 5 {
      TorRange(z, src);
      assert Up(net, p[1], p[2]) && net.kind[p[2]].Switch?;
      hide Valid, TorOf, Servers;
    }
  }

  lemma InnerNodes(t: seq<(Node, nat)>)
    requires |t| >= 2
    ensures |NodesOf(Inner(t))| == |t| - 2 && |NodesOf(t)| == |t|
    ensures forall i :: 0 <= i < |t| - 2 ==> NodesOf(Inner(t))[i] == NodesOf(t)[i + 1]
  {
  }

  // The nodes executeFlow writes for a flow between two servers: the ToR they share, or the source's ToR,
  // some spine and the destination's ToR.
  lemma FlowHops(z: Sizes, net: Net, src: Node, dst: Node, hash: Hash)
    requires OnLeafSpine(z, net) && src < Servers(z) && dst < Servers(z) && src != dst
    ensures Query(net, dst)
    ensures var t := Traced(net, src, dst, hash); var hops := NodesOf(Inner(t));
      if TorOf(z, src) == TorOf(z, dst) then |t| == 3 && hops == [TorOf(z, src)]
      else |t| == 5 && |hops| == 3 && hops[0] == TorOf(z, src) && IsSpine(z, hops[1]) && hops[2] == TorOf(z, dst)
  {
    ServerDistance(z, net, dst, src);
    WalkIsTight(net, src, dst, hash);
    hide Valid, Route, NodesOf, Inner, IsPath, Traced, TorOf, Level, OnLeafSpine, IsSpine;
    var t := Traced(net, src, dst, hash);
    PathShape(z, net, src, dst, NodesOf(t));
    InnerNodes(t);
  }

  // The pairs executeFlow writes for a flow between two servers, but for the choice of the spine.
  ghost predicate FlowPairs(z: Sizes, src: Node, dst: Node, hops: seq<(Node, nat)>)
    requires Positive(z)
  {
    if src == dst then hops == []
    else if TorOf(z, src) == TorOf(z, dst) then hops == [(TorOf(z, src), PortNumber(z, TorOf(z, src), dst))]
    else
      && |hops| == 3 && IsSpine(z, hops[1].0)
      && hops[0] == (TorOf(z, src), PortNumber(z, TorOf(z, src), hops[1].0))
      && hops[1] == (hops[1].0, PortNumber(z, hops[1].0, TorOf(z, dst)))
      && hops[2] == (TorOf(z, dst), PortNumber(z, TorOf(z, dst), dst))
  }

  lemma PortOfHop(z: Sizes, net: Net, t: seq<(Node, nat)>, i: nat)
    requires Positive(z) && Ported(z, net) && i + 1 < |t| && Forwards(net, t[i], t[i + 1])
    ensures t[i] == (t[i].0, PortNumber(z, t[i].0, t[i + 1].0))
  {
    hide PortNumber, Up;
  }

  lemma InnerAt(t: seq<(Node, nat)>, i: nat)
    requires i < |Inner(t)|
    ensures |t| == |Inner(t)| + 2 && Inner(t)[i] == t[i + 1]
    ensures |NodesOf(Inner(t))| == |Inner(t)| && NodesOf(Inner(t))[i] == t[i + 1].0
  {
  }

  // With the interface numbers of the generated graph, the pairs are determined, whatever the hash.
  lemma FlowHopsAndPorts(z: Sizes, net: Net, src: Node, dst: Node, hash: Hash)
    requires OnLeafSpine(z, net) && Ported(z, net) && src < Servers(z) && dst < Servers(z)
    ensures Query(net, dst) && FlowPairs(z, src, dst, Inner(Traced(net, src, dst, hash)))
  {
    if src == dst {
      TraceUnreachable(net, src, dst, hash);
    } else {
      FlowHops(z, net, src, dst, hash);
      var t := Traced(net, src, dst, hash);
      TracePorts(net, src, dst, hash);
      DestinationLast(net, src, dst, hash);
      hide Valid, Route, Ported, OnLeafSpine, PortNumber, TorOf, Traced, Inner, NodesOf, Forwards, IsSpine;
      assert Inner(t) != [] by { InnerLength(t); }
      InnerAt(t, 0);
      PortOfHop(z, net, t, 1);
      if |t| == 5 {
        InnerAt(t, 1);
        InnerAt(t, 2);
        PortOfHop(z, net, t, 2);
        PortOfHop(z, net, t, 3);
      }
    }
  }

  lemma InnerLength(t: seq<(Node, nat)>)
    requires |t| >= 2
    ensures |Inner(t)| == |t| - 2
  {
  }

  lemma DestinationLast(net: Net, src: Node, dst: Node, hash: Hash)
    requires Query(net, dst)
    ensures var t := Traced(net, src, dst, hash); |t| > 0 && t[|t| - 1].0 == dst
  {
    hide Walk;
  }

  lemma ServerCable(z: Sizes, s: Node, v: Node)
    requires Positive(z) && s < Servers(z)
    ensures Connected(z, s, v) || Connected(z, v, s) ==> v == TorOf(z, s)
  {
    CableRange(z, v, s);
    if v < Servers(z) { TorRange(z, v); }
  }

  /**
   * From the generator's sizes to the path of a flow: the topology file, the graph, the routing state and
   * the trace under the flow's own hash.
   */
  method TraceOnLeafSpine(z: Sizes, order: seq<Node>, rank: seq<nat>, payload: Word, src: Node, dst: Node,
                          sport: bv16, dport: bv16)
    returns (path: seq<(Node, nat)>)
    requires Positive(z) && Servers(z) + z.tors + z.spines <= 0x1_0000_0000
    requires IsOrder(order, rank, Servers(z) + z.tors + z.spines) && src < Servers(z) && dst < Servers(z)
    ensures FlowPairs(z, src, dst, Inner(path)) && path != [] && path[|path| - 1] == (dst, 0)
  {
    var t := Generate(z);
    GeneratedInRange(z, t);
    var net := BuildGraph(t, order, rank, payload);
    MainBuildsLeafSpine(z, t, net);
    var sim := new Sim(net);
    sim.SetUpRouting();
    path := sim.TraceActualPath(src, dst, sport, dport);
    FlowHopsAndPorts(z, net, src, dst, FlowHashes(src, dst, sport, dport));
  }
}
