/** The three numbers CalculateRoute records per node belong to one and the same shortest path. */
module Metrics {
  import opened Network
  import opened Bfs
  import opened Routes

  // The interface at the host's side of the i-th link of a path towards the host.
  function LinkAt(net: Net, p: seq<Node>, i: nat): Interface
    requires i + 1 < |p| && Up(net, p[i + 1], p[i])
  {
    net.nbr2if[p[i + 1]][p[i]]
  }

  // Every link of p, as seen from the host's side, is up and has a bandwidth.
  ghost predicate Usable(net: Net, p: seq<Node>) {
    |p| > 0 && forall i :: 0 <= i < |p| - 1 ==> Up(net, p[i + 1], p[i]) && LinkAt(net, p, i).bw > 0
  }

  ghost function TotalDelay(net: Net, p: seq<Node>): nat
    requires Usable(net, p)
  {
    if |p| == 1 then 0 else UsableTail(net, p); TotalDelay(net, p[1..]) + LinkAt(net, p, 0).delay
  }

  ghost function TotalTxTime(net: Net, p: seq<Node>): nat
    requires Usable(net, p)
  {
    if |p| == 1 then 0 else UsableTail(net, p); TotalTxTime(net, p[1..]) + TxTime(net.payload, LinkAt(net, p, 0).bw)
  }

  // b is the least bandwidth on p (the initial maximum when p has no link).
  ghost predicate IsBottleneck(net: Net, p: seq<Node>, b: nat)
    requires Usable(net, p)
  {
    && (forall i :: 0 <= i < |p| - 1 ==> b <= LinkAt(net, p, i).bw)
    && (|p| > 1 ==> exists i :: 0 <= i < |p| - 1 && b == LinkAt(net, p, i).bw)
    && (|p| == 1 ==> b == MAX_BW)
  }

  lemma UsableTail(net: Net, p: seq<Node>)
    requires Usable(net, p) && |p| > 1
    ensures Usable(net, p[1..])
  {
    forall i | 0 <= i < |p[1..]| - 1 ensures Up(net, p[1..][i + 1], p[1..][i]) && LinkAt(net, p[1..], i).bw > 0 {
      assert LinkAt(net, p, i + 1).bw > 0;
    }
  }

  lemma PathUsable(net: Net, p: seq<Node>, v: Node, host: Node)
    requires Valid(net) && IsPath(net, p, v, host)
    ensures Usable(net, p)
  {
    forall i | 0 <= i < |p| - 1 ensures Up(net, p[i + 1], p[i]) && LinkAt(net, p, i).bw > 0 {
      assert Up(net, p[i], p[i + 1]);
    }
  }

  lemma AddMod(a: nat, b: nat)
    ensures (a % U64 + b) % U64 == (a + b) % U64
  {
  }

  lemma BottleneckExtend(net: Net, p: seq<Node>, b: nat)
    requires Usable(net, p) && |p| > 1 && Usable(net, p[1..]) && IsBottleneck(net, p[1..], b)
    requires LinkAt(net, p, 0).bw < U64
    ensures var l := LinkAt(net, p, 0).bw; IsBottleneck(net, p, if l < b then l else b)
  {
    var l := LinkAt(net, p, 0).bw;
    var m := if l < b then l else b;
    forall i | 0 <= i < |p| - 1 ensures m <= LinkAt(net, p, i).bw {
      if i > 0 { assert b <= LinkAt(net, p[1..], i - 1).bw; }
    }
    if m != l && |p| > 2 {
      var i :| 0 <= i < |p[1..]| - 1 && b == LinkAt(net, p[1..], i).bw;
      assert m == LinkAt(net, p, i + 1).bw;
    }
  }

  ghost predicate Witnesses(net: Net, p: seq<Node>, l: Label)
    requires Usable(net, p)
  {
    && l.delay == TotalDelay(net, p) % U64
    && l.txDelay == TotalTxTime(net, p) % U64
    && IsBottleneck(net, p, l.bw)
  }

  lemma TotalsExtend(net: Net, p: seq<Node>)
    requires Usable(net, p) && |p| > 1 && Usable(net, p[1..])
    ensures TotalDelay(net, p) == TotalDelay(net, p[1..]) + LinkAt(net, p, 0).delay
    ensures TotalTxTime(net, p) == TotalTxTime(net, p[1..]) + TxTime(net.payload, LinkAt(net, p, 0).bw)
  {
  }

  lemma OnwardIs(net: Net, l: Label, now: Node, next: Node)
    requires Up(net, now, next) && net.nbr2if[now][next].bw > 0
    ensures var link, m := net.nbr2if[now][next], Onward(net, l, now, next);
      && m.delay == (l.delay + link.delay) % U64
      && m.txDelay == (l.txDelay + TxTime(net.payload, link.bw)) % U64
      && m.bw == if link.bw < l.bw then link.bw else l.bw
  {
  }

  lemma WitnessExtend(net: Net, p: seq<Node>, l: Label)
    requires Usable(net, p) && |p| > 1 && Usable(net, p[1..]) && Witnesses(net, p[1..], l) && LinkAt(net, p, 0).bw < U64
    ensures Up(net, p[1], p[0]) && net.nbr2if[p[1]][p[0]].bw > 0
    ensures Witnesses(net, p, Onward(net, l, p[1], p[0]))
  {
    assert Up(net, p[1], p[0]) && LinkAt(net, p, 0).bw > 0;
    TotalsExtend(net, p);
    OnwardIs(net, l, p[1], p[0]);
    hide Usable, TotalDelay, TotalTxTime, TxTime, Onward, IsBottleneck, Up;
    AddMod(TotalDelay(net, p[1..]), LinkAt(net, p, 0).delay);
    AddMod(TotalTxTime(net, p[1..]), TxTime(net.payload, LinkAt(net, p, 0).bw));
    BottleneckExtend(net, p, l.bw);
  }

  lemma NoLinks(net: Net, v: Node, l: Label)
    requires l.delay == 0 && l.txDelay == 0 && l.bw == MAX_BW
    ensures Usable(net, [v]) && Witnesses(net, [v], l)
  {
    assert TotalDelay(net, [v]) == 0 && TotalTxTime(net, [v]) == 0;
  }

  lemma HostPath(net: Net, host: Node)
    requires Query(net, host) && Visited(net, host, host)
    ensures TreePath(net, host, host) == [host]
  {
    hide Valid, Route;
  }

  lemma HostWitness(net: Net, host: Node)
    requires Query(net, host) && Visited(net, host, host)
    ensures TreePath(net, host, host) == [host] && Usable(net, [host])
    ensures Witnesses(net, [host], Route(net, host).labels[host])
  {
    hide Valid, Route, TreePath, Usable, Witnesses;
    AtHost(net, host);
    HostPath(net, host);
    NoLinks(net, host, Route(net, host).labels[host]);
  }

  lemma TreePathStep(net: Net, host: Node, v: Node)
    requires Query(net, host) && Visited(net, host, v) && v != host
    ensures var st := Route(net, host); var p, u := TreePath(net, host, v), st.labels[v].predecessor;
      && Visited(net, host, u) && Dis(net, host, u) < Dis(net, host, v)
      && |p| > 1 && p[0] == v && p[1] == u && p[1..] == TreePath(net, host, u)
      && Usable(net, p) && LinkAt(net, p, 0).bw < U64
      && st.labels[v] == Onward(net, st.labels[u], u, v)
  {
    AtHost(net, host);
    AtNode(net, host, v);
    PathUsable(net, TreePath(net, host, v), v, host);
    hide Route;
    assert Up(net, Route(net, host).labels[v].predecessor, v);
  }

  lemma {:induction false} TreePathMetrics(net: Net, host: Node, v: Node)
    requires Query(net, host) && Visited(net, host, v)
    ensures Usable(net, TreePath(net, host, v))
    ensures Witnesses(net, TreePath(net, host, v), Route(net, host).labels[v])
    decreases Dis(net, host, v)
  {
    hide Valid, Route, TreePath, Usable, Witnesses, Onward, Up;
    if v == host {
      HostWitness(net, host);
    } else {
      TreePathStep(net, host, v);
      var u := Route(net, host).labels[v].predecessor;
      TreePathMetrics(net, host, u);
      WitnessExtend(net, TreePath(net, host, v), Route(net, host).labels[u]);
    }
  }

  // ---- The same, in terms of the interfaces alone ----

  function Sum(ts: seq<nat>): nat {
    if ts == [] then 0 else ts[0] + Sum(ts[1..])
  }

  // t is the number of whole nanoseconds that the payload's bits, counted in 64-bit arithmetic, take at rate bw.
  predicate IsTransmissionTime(payload: nat, bw: nat, t: nat) {
    t * bw <= payload * 8_000_000_000 % 0x1_0000_0000_0000_0000 < (t + 1) * bw
  }

  lemma DivisionBounds(x: nat, bw: nat)
    requires bw > 0
    ensures x / bw * bw <= x < (x / bw + 1) * bw
  {
    assert x == x / bw * bw + x % bw;
  }

  lemma TxTimeIs(payload: Word, bw: nat)
    requires bw > 0
    ensures IsTransmissionTime(payload, bw, TxTime(payload, bw))
  {
    var bits := payload * 1000000000 * 8 % U64;
    assert bits == payload * 8_000_000_000 % 0x1_0000_0000_0000_0000;
    DivisionBounds(bits, bw);
  }

  lemma NoOverflow(x: nat)
    requires x < 0x1_0000_0000_0000_0000
    ensures x % 0x1_0000_0000_0000_0000 == x
  {
  }

  // Without overflow: the payload takes at least t and less than t + 1 nanoseconds.
  lemma TransmissionTimeExact(payload: nat, bw: nat, t: nat)
    requires payload * 8_000_000_000 < 0x1_0000_0000_0000_0000 && bw > 0
    ensures IsTransmissionTime(payload, bw, t) <==> t * bw <= payload * 8_000_000_000 < (t + 1) * bw
  {
    NoOverflow(payload * 8_000_000_000);
  }

  // No other number is the transmission time.
  lemma TransmissionTimeUnique(payload: nat, bw: nat, s: nat, t: nat)
    requires IsTransmissionTime(payload, bw, s) && IsTransmissionTime(payload, bw, t)
    ensures s == t
  {
    QuotientUnique(payload * 8_000_000_000 % 0x1_0000_0000_0000_0000, bw, s, t);
  }

  lemma QuotientUnique(x: nat, bw: nat, s: nat, t: nat)
    requires s * bw <= x < (s + 1) * bw && t * bw <= x < (t + 1) * bw
    ensures s == t
  {
    if s < t { MultiplyLeq(s + 1, t, bw); }
    if t < s { MultiplyLeq(t + 1, s, bw); }
  }

  lemma MultiplyLeq(a: nat, b: nat, c: nat)
    requires a <= b
    ensures a * c <= b * c
  {
  }

  // The figures of the links of p, from its first node on.
  ghost predicate AreFigures(net: Net, p: seq<Node>, delays: seq<nat>, times: seq<nat>) {
    && |p| == |delays| + 1 == |times| + 1
    && forall i :: 0 <= i < |p| - 1 ==>
      && Up(net, p[i + 1], p[i])
      && delays[i] == net.nbr2if[p[i + 1]][p[i]].delay
      && IsTransmissionTime(net.payload, net.nbr2if[p[i + 1]][p[i]].bw, times[i])
  }

  lemma FiguresCons(net: Net, p: seq<Node>, delays: seq<nat>, times: seq<nat>, d: nat, t: nat)
    requires |p| > 1 && AreFigures(net, p[1..], delays, times) && Up(net, p[1], p[0])
    requires d == net.nbr2if[p[1]][p[0]].delay && IsTransmissionTime(net.payload, net.nbr2if[p[1]][p[0]].bw, t)
    ensures AreFigures(net, p, [d] + delays, [t] + times)
  {
    hide IsTransmissionTime;
    var ds, ts := [d] + delays, [t] + times;
    forall i | 0 < i < |p| - 1
      ensures Up(net, p[i + 1], p[i]) && ds[i] == net.nbr2if[p[i + 1]][p[i]].delay
      ensures IsTransmissionTime(net.payload, net.nbr2if[p[i + 1]][p[i]].bw, ts[i])
    {
      assert p[1..][i] == p[i + 1] && p[1..][i - 1] == p[i];
    }
  }

  lemma SumCons(t: nat, ts: seq<nat>)
    ensures Sum([t] + ts) == t + Sum(ts) && Sum([]) == 0
  {
    assert ([t] + ts)[1..] == ts;
  }

  lemma {:induction false} FiguresOf(net: Net, p: seq<Node>) returns (delays: seq<nat>, times: seq<nat>)
    requires Usable(net, p)
    ensures AreFigures(net, p, delays, times)
    ensures TotalDelay(net, p) == Sum(delays) && TotalTxTime(net, p) == Sum(times)
  {
    if |p| == 1 {
      delays, times := [], [];
    } else {
      UsableTail(net, p);
      TotalsExtend(net, p);
      var link := LinkAt(net, p, 0);
      assert Up(net, p[1], p[0]) && link.bw > 0;
      hide Sum, TxTime, IsTransmissionTime, TotalDelay, TotalTxTime, AreFigures, Usable;
      var ds, ts := FiguresOf(net, p[1..]);
      TxTimeIs(net.payload, link.bw);
      FiguresCons(net, p, ds, ts, link.delay, TxTime(net.payload, link.bw));
      SumCons(link.delay, ds);
      SumCons(TxTime(net.payload, link.bw), ts);
      delays, times := [link.delay] + ds, [TxTime(net.payload, link.bw)] + ts;
    }
  }

  // Following predecessor from a visited node yields the tree path.
  ghost predicate FollowsPredecessors(labels: map<Node, Label>, p: seq<Node>) {
    forall i :: 0 <= i < |p| - 1 ==> p[i] in labels && p[i + 1] == labels[p[i]].predecessor
  }

  lemma {:induction false} TreePathFollows(net: Net, host: Node, v: Node)
    requires Query(net, host) && Visited(net, host, v)
    ensures FollowsPredecessors(Route(net, host).labels, TreePath(net, host, v))
    decreases Dis(net, host, v)
  {
    hide Valid, Route, TreePath, Usable, Onward;
    AtHost(net, host);
    if v == host {
      HostPath(net, host);
    } else {
      TreePathStep(net, host, v);
      var p, labels := TreePath(net, host, v), Route(net, host).labels;
      TreePathFollows(net, host, p[1]);
      forall i | 0 <= i < |p| - 1 ensures p[i] in labels && p[i + 1] == labels[p[i]].predecessor {
        if i > 0 { assert p[1..][i - 1] == p[i] && p[1..][i] == p[i + 1]; }
      }
    }
  }

  /**
   * The three numbers recorded for a visited node belong to one shortest path, the predecessor chain:
   * `delay` is the sum of the links' delays, `txDelay` the sum of their transmission times, and `bw`
   * their least bandwidth (all bits set on the host itself).
   */
  lemma MetricsOfOneShortestPath(net: Net, host: Node, v: Node)
    returns (p: seq<Node>, delays: seq<nat>, times: seq<nat>)
    requires Query(net, host) && Visited(net, host, v)
    ensures IsShortest(net, p, v, host) && FollowsPredecessors(Route(net, host).labels, p)
    ensures AreFigures(net, p, delays, times)
    ensures var l := Route(net, host).labels[v];
      && l.delay == Sum(delays) % 0x1_0000_0000_0000_0000
      && l.txDelay == Sum(times) % 0x1_0000_0000_0000_0000
      && (forall i: nat, bw: nat :: Crosses(net, p, i, bw) ==> l.bw <= bw)
      && (|p| > 1 ==> exists i: nat :: Crosses(net, p, i, l.bw))
      && (|p| == 1 ==> l.bw == 0xffff_ffff_ffff_ffff)
  {
    p := TreePath(net, host, v);
    TreePathMetrics(net, host, v);
    TreePathFollows(net, host, v);
    DistanceIsShortest(net, host, v);
    BottleneckIs(net, p, Route(net, host).labels[v].bw);
    hide Valid, Route, TreePath, Usable, IsBottleneck, AreFigures, TotalDelay, TotalTxTime;
    delays, times := FiguresOf(net, p);
    ModulusIs();
  }

  lemma ModulusIs()
    ensures U64 == 0x1_0000_0000_0000_0000
  {
  }

  // The i-th link of p has bandwidth bw.
  predicate Crosses(net: Net, p: seq<Node>, i: nat, bw: nat) {
    i + 1 < |p| && Up(net, p[i + 1], p[i]) && net.nbr2if[p[i + 1]][p[i]].bw == bw
  }

  lemma BottleneckIs(net: Net, p: seq<Node>, b: nat)
    requires Usable(net, p) && IsBottleneck(net, p, b)
    ensures forall i: nat, bw: nat :: Crosses(net, p, i, bw) ==> b <= bw
    ensures |p| > 1 ==> exists i: nat :: Crosses(net, p, i, b)
    ensures |p| == 1 ==> b == 0xffff_ffff_ffff_ffff
  {
    if |p| > 1 {
      var i: nat :| 0 <= i < |p| - 1 && b == LinkAt(net, p, i).bw;
      assert Crosses(net, p, i, b);
    }
    forall i: nat, bw: nat | Crosses(net, p, i, bw) ensures b <= bw {
      assert LinkAt(net, p, i).bw == bw;
    }
  }
}
