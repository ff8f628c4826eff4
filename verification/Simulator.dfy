/** The routing state of the simulator, and the loops that compute it. */
module Simulator {
  import opened Network
  import opened Bfs
  import opened Routes
  import opened Trace
  import opened LinkDown
  import opened Addresses
  import opened Tables
  import EcmpHash

  method CheckPathIntersection(path1: seq<(Node, nat)>, path2: seq<(Node, nat)>) returns (r: bool)
    ensures r <==> exists x :: x in path1 && x in path2
  {
    var pathSet: set<(Node, nat)> := {};
    for i := 0 to |path1|
      invariant forall x :: x in pathSet <==> x in path1[..i]
    {
      pathSet := pathSet + {path1[i]};
    }
    for i := 0 to |path2|
      invariant forall x :: x in path2[..i] ==> x !in pathSet
    {
      if path2[i] in pathSet {
        assert path2[i] in path1 && path2[i] in path2;
        return true;
      }
    }
    assert path1[..|path1|] == path1 && path2[..|path2|] == path2;
    return false;
  }

  class Sim {
    var net: Net
    var nextHop: HopTable
    var pairDelay: PairTable
    var pairTxDelay: PairTable
    var pairBw: PairTable
    var rtTable: PortTable

    constructor (net: Net)
      ensures this.net == net && nextHop == map[] && rtTable == map[]
      ensures pairDelay == map[] && pairTxDelay == map[] && pairBw == map[]
    {
      this.net := net;
      nextHop, rtTable, pairDelay, pairTxDelay, pairBw := map[], map[], map[], map[], map[];
    }

    // The body of CalculateRoute's inner loop, for one key of nbr2if[now].
    method VisitKey(host: Node, now: Node, next: Node, s: Locals, ghost st: Search, ghost before: HopTable)
      returns (s': Locals)
      requires now in st.labels && host in st.labels && now < |net.nbr2if| && next < |net.kind|
      requires Up(net, now, next) ==> net.nbr2if[now][next].bw > 0
      requires Matches(st, host, s) && Grown(before, nextHop, host, st.hops)
      modifies this`nextHop
      ensures s'.q == Relax(net, st, now, next).q
      ensures Matches(Relax(net, st, now, next), host, s')
      ensures Grown(before, nextHop, host, Relax(net, st, now, next).hops)
    {
      hide Grown, Relax, TxTime, HopsIn, PushHop, DisOf, DelayOf, TxDelayOf, BwOf, PredecessorOf;
      RelaxMaps(net, st, host, now, next);
      MatchesAt(st.labels, now);
      MatchesAt(st.labels, next);
      MatchesAt(Relax(net, st, now, next).labels, next);
      s' := s;
      var d := s.dis[now];
      if next !in net.nbr2if[now] || !net.nbr2if[now][next].up {
        return;
      }
      var it := net.nbr2if[now][next];
      if next !in s.dis {
        TxTimeRaw(net.payload, it.bw);
        s' := s'.(predecessor := s.predecessor[next := now]);
        s' := s'.(dis := s.dis[next := d + 1]);
        s' := s'.(delay := s.delay[next := (s.delay[now] + it.delay) % U64]);
        s' := s'.(txDelay := s.txDelay[next := (s.txDelay[now] + (net.payload * 1000000000 * 8 % U64) / it.bw) % U64]);
        s' := s'.(bw := s.bw[next := if it.bw < s.bw[now] then it.bw else s.bw[now]]);
        if net.kind[next].Switch? {
          s' := s'.(q := s.q + [next]);
        }
      }
      if d + 1 == s'.dis[next] {
        GrownPush(before, nextHop, host, st.hops, next, now);
        nextHop := PushHop(nextHop, next, host, now);
      }
    }

    method CalculateRoute(host: Node)
      requires Valid(net) && host < |net.kind|
      modifies this`nextHop, this`pairDelay, this`pairTxDelay, this`pairBw
      ensures Grown(old(nextHop), nextHop, host, Route(net, host).hops)
      ensures pairDelay == Record(old(pairDelay), host, DelayOf(Route(net, host).labels))
      ensures pairTxDelay == Record(old(pairTxDelay), host, TxDelayOf(Route(net, host).labels))
      ensures pairBw == Record(old(pairBw), host, BwOf(Route(net, host).labels))
    {
      hide *;
      var s := Locals([host], map[host := 0], map[host := 0], map[host := 0], map[host := MAX_BW], map[]);
      ghost var st := Start(host);
      HeadingStart(net, host);
      MatchesStart(host);
      GrownStart(nextHop, host);
      var i := 0;
      while i < |s.q|
        invariant Heading(net, host, st, i)
        invariant s.q == st.q && Matches(st, host, s) && Grown(old(nextHop), nextHop, host, st.hops)
        invariant unchanged(`pairDelay) && unchanged(`pairTxDelay) && unchanged(`pairBw)
        decreases |net.kind| - i
      {
        HeadingNext(net, host, st, i);
        var now := s.q[i];
        ghost var st0 := st;
        for k := 0 to |net.pointerOrder|
          invariant st == Scan(net, st0, now, k) && now in st.labels && host in st.labels
          invariant s.q == st.q && Matches(st, host, s) && Grown(old(nextHop), nextHop, host, st.hops)
          invariant unchanged(`pairDelay) && unchanged(`pairTxDelay) && unchanged(`pairBw)
        {
          NextKey(net, st0, now, k);
          var next := net.pointerOrder[k];
          RelaxKeeps(net, st, host, now, next);
          s := VisitKey(host, now, next, s, st, old(nextHop));
          st := Relax(net, st, now, next);
        }
        i := i + 1;
      }
      HeadingEnd(net, host, st, i);
      MatchesMaps(st, host, s);
      pairDelay := Record(pairDelay, host, s.delay);
      pairTxDelay := Record(pairTxDelay, host, s.txDelay);
      pairBw := Record(pairBw, host, s.bw);
    }

    method CalculateRoutes()
      requires Valid(net)
      modifies this`nextHop, this`pairDelay, this`pairTxDelay, this`pairBw
      ensures AllGrown(net, old(nextHop), nextHop, |net.kind|)
      ensures Recorded(net, pairDelay, pairTxDelay, pairBw, |net.kind|)
      ensures AllKept(net, old(pairDelay), old(pairTxDelay), old(pairBw), pairDelay, pairTxDelay, pairBw, |net.kind|)
    {
      hide *;
      AllGrownStart(net, nextHop);
      RecordedStart(net, pairDelay, pairTxDelay, pairBw);
      AllKeptStart(net, pairDelay, pairTxDelay, pairBw);
      for i := 0 to |net.kind|
        invariant AllGrown(net, old(nextHop), nextHop, i) && Recorded(net, pairDelay, pairTxDelay, pairBw, i)
        invariant AllKept(net, old(pairDelay), old(pairTxDelay), old(pairBw), pairDelay, pairTxDelay, pairBw, i)
      {
        RecordedNext(net, pairDelay, pairTxDelay, pairBw, i);
        AllKeptNext(net, old(pairDelay), old(pairTxDelay), old(pairBw), pairDelay, pairTxDelay, pairBw, i);
        ghost var before := nextHop;
        if net.kind[i].Host? {
          CalculateRoute(i);
        }
        AllGrownNext(net, old(nextHop), before, nextHop, i);
      }
    }

    method SetRoutingEntries()
      requires Valid(net)
      modifies this`rtTable
      ensures Installed(net, nextHop, old(rtTable), rtTable, |net.pointerOrder|, 0)
    {
      hide *;
      InstalledStart(net, nextHop, rtTable);
      for a := 0 to |net.pointerOrder|
        invariant Installed(net, nextHop, old(rtTable), rtTable, a, 0)
      {
        var node := net.pointerOrder[a];
        for b := 0 to |net.pointerOrder|
          invariant Installed(net, nextHop, old(rtTable), rtTable, a, b)
        {
          var dst := net.pointerOrder[b];
          PointerOrderInRange(net, b);
          var dstAddr := NodeIdToIp(dst);
          ghost var was := rtTable;
          if node in nextHop && dst in nextHop[node] {
            var nexts := nextHop[node][dst];
            HopsInRow(nextHop, node, dst);
            PushedStart(rtTable, node, dstAddr);
            PortsOfNone(net, node, nexts);
            for k := 0 to |nexts|
              invariant Pushed(was, rtTable, node, dstAddr, PortsOf(net, node, nexts[..k]))
            {
              PushedNext(net, was, rtTable, node, dstAddr, nexts, k);
              rtTable := PushPort(rtTable, node, dstAddr, PortOf(net, node, nexts[k]));
            }
            assert nexts[..|nexts|] == nexts;
          } else {
            HopsInRow(nextHop, node, dst);
            PushedNone(net, nextHop, rtTable, node, dst, dstAddr);
          }
          InstalledDst(net, nextHop, old(rtTable), was, rtTable, a, b);
        }
        InstalledNode(net, nextHop, old(rtTable), rtTable, a);
      }
    }

    // What main does once the graph is built.
    method SetUpRouting()
      requires Valid(net) && nextHop == map[] && rtTable == map[]
      modifies this`nextHop, this`pairDelay, this`pairTxDelay, this`pairBw, this`rtTable
      ensures HopsRouted(net, nextHop) && TablesRouted(net, rtTable)
      ensures Recorded(net, pairDelay, pairTxDelay, pairBw, |net.kind|)
      ensures AllKept(net, old(pairDelay), old(pairTxDelay), old(pairBw), pairDelay, pairTxDelay, pairBw, |net.kind|)
    {
      hide *;
      CalculateRoutes();
      HopsFromScratch(net, nextHop);
      ghost var cleared := rtTable;
      SetRoutingEntries();
      TablesFromScratch(net, nextHop, cleared, rtTable);
    }

    // Whatever link goes down, next hops and tables are again those of the graph as it then is.
    method TakeDownLink(a: Node, b: Node)
      requires Valid(net) && HopsRouted(net, nextHop) && TablesRouted(net, rtTable)
      requires a < |net.kind| && b < |net.kind|
      modifies this
      ensures net == TakeDown(old(net), a, b) && Valid(net)
      ensures HopsRouted(net, nextHop) && TablesRouted(net, rtTable)
    {
      hide *;
      TakeDownReady(net, a, b);
      TakeDownValid(net, a, b);
      if !Up(net, a, b) {
        // The lookup nbr2if[a][b] inserts a default interface if there is none.
        TakeDownNothing(net, a, b);
        RoutedSame(net, TakeDown(net, a, b), nextHop, rtTable);
        net := TakeDown(net, a, b);
        return;
      }
      net := TakeDown(net, a, b);
      nextHop := map[];
      CalculateRoutes();
      HopsFromScratch(net, nextHop);
      for i := 0 to |net.kind|
        invariant net == TakeDown(old(net), a, b) && Valid(net) && HopsRouted(net, nextHop)
        invariant forall v: Node :: v < i ==> v !in rtTable
      {
        rtTable := rtTable - {i};
      }
      ghost var cleared := rtTable;
      SetRoutingEntries();
      TablesFromScratch(net, nextHop, cleared, rtTable);
    }

    /**
     * Any sequence of failures: next hops and tables are those of the graph that never had these links,
     * so that no entry names a downed link.
     */
    method TakeDownLinks(downs: seq<(Node, Node)>)
      requires Valid(net) && HopsRouted(net, nextHop) && TablesRouted(net, rtTable) && NodesExist(net, downs)
      modifies this
      ensures net == TakeDownAll(old(net), downs)
      ensures HopsRouted(Without(old(net), downs), nextHop) && TablesRouted(Without(old(net), downs), rtTable)
    {
      hide *;
      ghost var was := net;
      DownsNone(was, downs);
      for i := 0 to |downs|
        invariant Valid(was) && NodesExist(was, downs[..i]) && net == TakeDownAll(was, downs[..i])
        invariant HopsRouted(net, nextHop) && TablesRouted(net, rtTable)
      {
        DownsNext(was, downs, i);
        TakeDownLink(downs[i].0, downs[i].1);
      }
      assert downs[..|downs|] == downs;
      TakeDownAllIsWithout(was, downs);
      RoutedSame(net, Without(was, downs), nextHop, rtTable);
    }

    method TraceActualPath(src: Node, dst: Node, sport: bv16, dport: bv16) returns (path: seq<(Node, nat)>)
      requires Valid(net) && src < |net.kind| && dst < |net.kind| && HopsRouted(net, nextHop)
      modifies this`nextHop
      ensures HopsRouted(net, nextHop)
      ensures path == Traced(net, src, dst, FlowHashes(src, dst, sport, dport))
    {
      assert Query(net, dst);
      hide *;
      ghost var h := FlowHashes(src, dst, sport, dport);
      var current := src;
      path := [];
      while current != dst
        invariant HopsRouted(net, nextHop)
        invariant path + Walk(net, current, dst, h) == Walk(net, src, dst, h)
        decreases Remaining(net, dst, current)
      {
        var hops := HopsIn(nextHop, current, dst);
        WalkRound(net, nextHop, current, dst, h);
        TouchRouted(net, nextHop, current, dst);
        nextHop := Touch(nextHop, current, dst);
        if hops == [] {
          break;
        }
        var bits := EcmpHash.GetFlowHash(Bits(src), Bits(dst), sport, dport, Bits(current));
        FlowHashesAt(src, dst, sport, dport, current);
        var hash := EcmpHash.Number(bits);
        var next := hops[hash % |hops|];
        WalkOn(path, (current, PortOf(net, current, next)), Walk(net, next, dst, h));
        path := path + [(current, PortOf(net, current, next))];
        current := next;
      }
      WalkEnd(net, src, dst, h);
      assert Walk(net, current, dst, h) == [] && path == Walk(net, src, dst, h);
      path := path + [(dst, 0)];
    }
  }
}
