/** The leaf-spine topology: the generator script and main's reading of its output into the graph. */
module LeafSpine {
  import opened Network

  // One printed link line: two nodes, the rate, the delay and the error rate.
  datatype Link = Link(src: nat, dst: nat, rate: nat, delay: nat, errorRate: real)

  // The generator's output: the header's counts and rates, the switch ids and the links.
  datatype Topology = Topology(nodeNum: nat, switchNum: nat, torNum: nat, linkNum: nat, serverRate: nat, spineRate: nat,
                               switchIds: seq<nat>, links: seq<Link>)

  // servers per ToR, ToR switches, spine switches; and the figures printed on the links
  datatype Sizes = Sizes(perTor: nat, tors: nat, spines: nat, serverRate: nat, spineRate: nat,
                         serverDelay: nat, spineDelay: nat, errorRate: real)

  predicate Positive(z: Sizes) {
    && z.perTor > 0 && z.tors > 0 && z.spines > 0
    && 0 < z.serverRate < U64 && 0 < z.spineRate < U64 && z.serverDelay < U64 && z.spineDelay < U64
  }

  function Servers(z: Sizes): nat { z.perTor * z.tors }

  function TorOf(z: Sizes, server: nat): nat
    requires z.perTor > 0
  {
    Servers(z) + server / z.perTor
  }

  // The k-th server link and the k-th uplink.
  function ServerLink(z: Sizes, k: nat): Link
    requires z.perTor > 0
  {
    Link(k, TorOf(z, k), z.serverRate, z.serverDelay, z.errorRate)
  }

  function Uplink(z: Sizes, k: nat): Link
    requires z.spines > 0
  {
    Link(Servers(z) + k / z.spines, Servers(z) + z.tors + k % z.spines, z.spineRate, z.spineDelay, z.errorRate)
  }

  // The printed counter of nested loops, row i and column j of width n, determines both.
  lemma Row(i: nat, j: nat, n: nat)
    requires j < n
    ensures (j + n * i) / n == i && (j + n * i) % n == j
  {
    var x := j + n * i;
    DivMod(x, n);
    var q, r := x / n, x % n;
    assert n * (q - i) == j - r;
    if q > i {
      Times(n, q - i);
    } else if q < i {
      Times(n, i - q);
    }
  }

  lemma DivMod(x: nat, n: nat)
    requires n > 0
    ensures x == n * (x / n) + x % n && 0 <= x % n < n
  {
  }

  lemma Times(n: nat, k: nat)
    requires k > 0
    ensures n * k >= n
  {
  }

  method GenerateServerLinks(z: Sizes) returns (links: seq<Link>)
    requires Positive(z)
    ensures |links| == Servers(z) && forall k :: 0 <= k < |links| ==> links[k] == ServerLink(z, k)
  {
    links := [];
    for i := 0 to z.tors
      invariant |links| == z.perTor * i && forall k :: 0 <= k < |links| ==> links[k] == ServerLink(z, k)
    {
      for j := 0 to z.perTor
        invariant |links| == z.perTor * i + j && forall k :: 0 <= k < |links| ==> links[k] == ServerLink(z, k)
      {
        Row(i, j, z.perTor);
        links := links + [Link(j + z.perTor * i, z.perTor * z.tors + i, z.serverRate, z.serverDelay, z.errorRate)];
      }
      assert z.perTor * i + z.perTor == z.perTor * (i + 1);
    }
  }

  method GenerateUplinks(z: Sizes) returns (links: seq<Link>)
    requires Positive(z)
    ensures |links| == z.tors * z.spines && forall k :: 0 <= k < |links| ==> links[k] == Uplink(z, k)
  {
    var torBegin := z.perTor * z.tors;
    var spineBegin := z.perTor * z.tors + z.tors;
    links := [];
    for i := 0 to z.tors
      invariant |links| == z.spines * i && forall k :: 0 <= k < |links| ==> links[k] == Uplink(z, k)
    {
      for j := 0 to z.spines
        invariant |links| == z.spines * i + j && forall k :: 0 <= k < |links| ==> links[k] == Uplink(z, k)
      {
        Row(i, j, z.spines);
        links := links + [Link(torBegin + i, spineBegin + j, z.spineRate, z.spineDelay, z.errorRate)];
      }
      assert z.spines * i + z.spines == z.spines * (i + 1);
    }
  }

  method Generate(z: Sizes) returns (t: Topology)
    requires Positive(z)
    ensures Generated(z, t)
  {
    var switchNum := z.tors + z.spines;
    var nodeNum := z.perTor * z.tors + switchNum;
    var linkNum := z.perTor * z.tors + z.tors * z.spines;
    var ids: seq<nat> := [];
    for i := 0 to switchNum
      invariant |ids| == i && forall k :: 0 <= k < i ==> ids[k] == Servers(z) + k
    {
      ids := ids + [z.perTor * z.tors + i];
    }
    var down := GenerateServerLinks(z);
    var up := GenerateUplinks(z);
    t := Topology(nodeNum, switchNum, z.tors, linkNum, z.serverRate, z.spineRate, ids, down + up);
  }

  ghost predicate Generated(z: Sizes, t: Topology)
    requires Positive(z)
  {
    && t.switchNum == z.tors + z.spines && t.torNum == z.tors
    && t.nodeNum == Servers(z) + t.switchNum && t.serverRate == z.serverRate && t.spineRate == z.spineRate
    && t.linkNum == Servers(z) + z.tors * z.spines == |t.links|
    && |t.switchIds| == t.switchNum && (forall k :: 0 <= k < t.switchNum ==> t.switchIds[k] == Servers(z) + k)
    && (forall k :: 0 <= k < Servers(z) ==> t.links[k] == ServerLink(z, k))
    && (forall k :: 0 <= k < z.tors * z.spines ==> t.links[Servers(z) + k] == Uplink(z, k))
  }

  // ---- main: recovering the sizes ----

  // (LEAF_COUNT, SPINE_COUNT, SERVER_COUNT, LINK_COUNT), from the header alone.
  function Counts(t: Topology): (nat, int, int, int)
    requires t.torNum > 0 && t.switchNum > t.torNum
  {
    var leafs, spines := t.torNum, t.switchNum - t.torNum;
    var servers := (t.nodeNum - t.switchNum) / t.torNum;
    (leafs, spines, servers, (t.linkNum - servers * t.torNum) / (leafs * spines))
  }

  lemma CountsRecovered(z: Sizes, t: Topology)
    requires Positive(z) && Generated(z, t)
    ensures Counts(t) == (z.tors, z.spines, z.perTor, 1)
  {
    DivExact(z.perTor, z.tors);
    DivExact(1, z.tors * z.spines);
  }

  lemma DivExact(a: nat, b: nat)
    requires b > 0
    ensures a * b / b == a
  {
    Row(a, 0, b);
    assert 0 + b * a == a * b;
  }

  // ---- main: building the graph ----

  predicate EndsExist(t: Topology) {
    && (forall i :: 0 <= i < |t.switchIds| ==> t.switchIds[i] < t.nodeNum)
    && forall k :: 0 <= k < |t.links| ==> t.links[k].src < t.nodeNum && t.links[k].dst < t.nodeNum
  }

  ghost predicate Joins(l: Link, u: Node, v: Node) {
    (l.src == u && l.dst == v) || (l.src == v && l.dst == u)
  }

  ghost predicate Linked(links: seq<Link>, n: nat, u: Node, v: Node)
    requires n <= |links|
  {
    exists k :: 0 <= k < n && Joins(links[k], u, v)
  }

  // The devices a link adds to node u.
  function Ends(l: Link, u: Node): nat { (if l.src == u then 1 else 0) + (if l.dst == u then 1 else 0) }

  // The devices of node u after the first n links; the loopback is the first.
  function Devices(links: seq<Link>, n: nat, u: Node): nat
    requires n <= |links|
  {
    if n == 0 then 1 else Devices(links, n - 1, u) + Ends(links[n - 1], u)
  }

  // The number of the device that the k-th link adds to node u; the destination's device is installed second.
  function Port(links: seq<Link>, k: nat, u: Node): nat
    requires k < |links|
  {
    Devices(links, k, u) + if links[k].src == u && links[k].dst == u then 1 else 0
  }

  // The k-th link is the last of the first n that joins u and v.
  ghost predicate LastJoin(links: seq<Link>, n: nat, u: Node, v: Node, k: nat)
    requires n <= |links|
  {
    k < n && Joins(links[k], u, v) && forall m :: k < m < n ==> !Joins(links[m], u, v)
  }

  // The interface is up, and carries the figures of the k-th link and the number of its device at u.
  predicate IsFor(links: seq<Link>, k: nat, u: Node, i: Interface)
    requires k < |links|
  {
    i == Interface(Port(links, k, u), true, links[k].delay, links[k].rate)
  }

  // It is that of the last link between u and v.
  ghost predicate OfLink(links: seq<Link>, n: nat, u: Node, v: Node, i: Interface)
    requires n <= |links|
  {
    exists k :: LastJoin(links, n, u, v, k) && IsFor(links, k, u, i)
  }

  // nbr2if[u][v] after the first n links.
  ghost predicate WiredAt(nbr2if: seq<map<Node, Interface>>, links: seq<Link>, n: nat, u: Node, v: Node)
    requires n <= |links| && u < |nbr2if|
  {
    && (v in nbr2if[u] <==> Linked(links, n, u, v))
    && (v in nbr2if[u] ==> OfLink(links, n, u, v, nbr2if[u][v]))
  }

  ghost predicate Wired(nbr2if: seq<map<Node, Interface>>, links: seq<Link>, n: nat)
    requires n <= |links|
  {
    forall u: Node, v: Node | u < |nbr2if| :: WiredAt(nbr2if, links, n, u, v)
  }

  lemma WiredHit(nbr2if: seq<map<Node, Interface>>, links: seq<Link>, n: nat, u: Node, v: Node)
    requires n < |links| && Joins(links[n], u, v) && u < |nbr2if| && v in nbr2if[u] && IsFor(links, n, u, nbr2if[u][v])
    ensures WiredAt(nbr2if, links, n + 1, u, v)
  {
    hide IsFor;
    assert LastJoin(links, n + 1, u, v, n);
  }

  lemma WiredMiss(before: seq<map<Node, Interface>>, after: seq<map<Node, Interface>>, links: seq<Link>, n: nat,
                  u: Node, v: Node)
    requires n < |links| && !Joins(links[n], u, v) && u < |before| == |after| && WiredAt(before, links, n, u, v)
    requires v in after[u] <==> v in before[u]
    requires v in before[u] ==> after[u][v] == before[u][v]
    ensures WiredAt(after, links, n + 1, u, v)
  {
    hide IsFor;
    if v in before[u] {
      var k :| LastJoin(links, n, u, v, k) && IsFor(links, k, u, before[u][v]);
      assert LastJoin(links, n + 1, u, v, k);
    }
  }

  lemma SetEntryAt(t: seq<map<Node, Interface>>, a: Node, b: Node, i: Interface, u: Node, v: Node)
    requires a < |t|
    ensures |SetEntry(t, a, b, i)| == |t|
    ensures u < |t| && u == a && v == b ==> v in SetEntry(t, a, b, i)[u] && SetEntry(t, a, b, i)[u][v] == i
    ensures u < |t| && !(u == a && v == b) ==>
      && (v in SetEntry(t, a, b, i)[u] <==> v in t[u])
      && (v in t[u] ==> SetEntry(t, a, b, i)[u][v] == t[u][v])
  {
  }

  lemma WiredNext(before: seq<map<Node, Interface>>, links: seq<Link>, n: nat, i: Interface, j: Interface)
    requires n < |links| && Wired(before, links, n) && links[n].src < |before| && links[n].dst < |before|
    requires links[n].src != links[n].dst ==> IsFor(links, n, links[n].src, i)
    requires IsFor(links, n, links[n].dst, j)
    ensures Wired(SetEntry(SetEntry(before, links[n].src, links[n].dst, i), links[n].dst, links[n].src, j), links, n + 1)
  {
    hide IsFor, SetEntry, WiredAt;
    var l := links[n];
    var once := SetEntry(before, l.src, l.dst, i);
    SetEntryAt(before, l.src, l.dst, i, 0, 0);
    var after, m := SetEntry(once, l.dst, l.src, j), n + 1;
    SetEntryAt(once, l.dst, l.src, j, 0, 0);
    forall u: Node, v: Node | u < |after| ensures WiredAt(after, links, m, u, v) {
      SetEntryAt(before, l.src, l.dst, i, u, v);
      SetEntryAt(once, l.dst, l.src, j, u, v);
      assert WiredAt(before, links, n, u, v);
      if Joins(l, u, v) {
        WiredHit(after, links, n, u, v);
      } else {
        WiredMiss(before, after, links, n, u, v);
      }
    }
  }

  function SetEntry(t: seq<map<Node, Interface>>, u: Node, v: Node, i: Interface): seq<map<Node, Interface>>
    requires u < |t|
  {
    var row: map<Node, Interface> := t[u][v := i];
    t[u := row]
  }

  // order and rank are inverse permutations of the n nodes.
  ghost predicate IsOrder(order: seq<Node>, rank: seq<nat>, n: nat) {
    && |order| == |rank| == n
    && (forall v :: 0 <= v < n ==> rank[v] < n && order[rank[v]] == v)
    && (forall k :: 0 <= k < n ==> order[k] < n && rank[order[k]] == k)
  }

  ghost predicate BuiltFrom(net: Net, t: Topology) {
    && |net.kind| == |net.nbr2if| == t.nodeNum
    && (forall v :: 0 <= v < t.nodeNum ==> (net.kind[v].Switch? <==> v in t.switchIds))
    && Wired(net.nbr2if, t.links, |t.links|)
  }

  // The part of main that turns a topology file into the graph.  Each device takes the next interface index
  // of its node, after the loopback's.
  method BuildGraph(t: Topology, order: seq<Node>, rank: seq<nat>, payload: Word) returns (net: Net)
    requires EndsExist(t) && IsOrder(order, rank, t.nodeNum)
    ensures BuiltFrom(net, t)
    ensures net.pointerOrder == order && net.rank == rank && net.payload == payload
  {
    var kind := seq(t.nodeNum, i => Host);
    for i := 0 to |t.switchIds|
      invariant |kind| == t.nodeNum
      invariant forall v :: 0 <= v < t.nodeNum ==> (kind[v].Switch? <==> v in t.switchIds[..i])
    {
      kind := kind[t.switchIds[i] := Switch];
    }
    assert t.switchIds[..|t.switchIds|] == t.switchIds;
    var devices := seq(t.nodeNum, i => 1);
    var none: map<Node, Interface> := map[];
    var nbr2if := seq(t.nodeNum, i => none);
    NothingWired(nbr2if, t.links);
    hide Wired, SetEntry;
    for k := 0 to |t.links|
      invariant |devices| == |nbr2if| == t.nodeNum && Wired(nbr2if, t.links, k)
      invariant forall v :: 0 <= v < t.nodeNum ==> devices[v] == Devices(t.links, k, v)
    {
      var l := t.links[k];
      var i := Interface(devices[l.src], true, l.delay, l.rate);
      devices := devices[l.src := devices[l.src] + 1];
      var j := Interface(devices[l.dst], true, l.delay, l.rate);
      devices := devices[l.dst := devices[l.dst] + 1];
      WiredNext(nbr2if, t.links, k, i, j);
      SetEntryAt(nbr2if, l.src, l.dst, i, 0, 0);
      nbr2if := SetEntry(nbr2if, l.src, l.dst, i);
      SetEntryAt(nbr2if, l.dst, l.src, j, 0, 0);
      nbr2if := SetEntry(nbr2if, l.dst, l.src, j);
    }
    net := Net(kind, order, rank, nbr2if, payload);
  }

  lemma NothingWired(nbr2if: seq<map<Node, Interface>>, links: seq<Link>)
    requires forall u :: 0 <= u < |nbr2if| ==> nbr2if[u] == map[]
    ensures Wired(nbr2if, links, 0)
  {
  }

  // ---- Interface numbers ----

  lemma {:induction false} DevicesRise(links: seq<Link>, m: nat, n: nat, u: Node)
    requires m <= n <= |links|
    ensures 1 <= Devices(links, m, u) <= Devices(links, n, u)
    decreases n - m, n
  {
    if m < n {
      DevicesRise(links, m, n - 1, u);
    } else if n > 0 {
      DevicesRise(links, n - 1, n - 1, u);
    }
  }

  lemma PortsRise(links: seq<Link>, j: nat, k: nat, u: Node)
    requires j < k < |links| && (links[j].src == u || links[j].dst == u)
    ensures 1 <= Port(links, j, u) < Port(links, k, u)
  {
    DevicesRise(links, j, j, u);
    DevicesRise(links, j + 1, k, u);
  }

  /**
   * The interfaces of a node are numbered from 1 on and pairwise distinct, even if the file links a
   * pair of nodes more than once.
   */
  lemma InterfacesDistinct(net: Net, t: Topology, u: Node, v: Node, w: Node)
    requires BuiltFrom(net, t) && Up(net, u, v) && Up(net, u, w)
    ensures net.nbr2if[u][v].idx > 0
    ensures v != w ==> net.nbr2if[u][v].idx != net.nbr2if[u][w].idx
  {
    var j := JoiningLink(net, t, u, v);
    var k := JoiningLink(net, t, u, w);
    DevicesRise(t.links, j, j, u);
    hide Devices, BuiltFrom, Up;
    if j < k {
      PortsRise(t.links, j, k, u);
    } else if k < j {
      PortsRise(t.links, k, j, u);
    }
  }

  lemma BuiltNumbered(net: Net, t: Topology)
    requires BuiltFrom(net, t)
    ensures Numbered(net)
  {
    forall u: Node, v: Node, w: Node | Up(net, u, v) && Up(net, u, w)
      ensures net.nbr2if[u][v].idx > 0 && (v != w ==> net.nbr2if[u][v].idx != net.nbr2if[u][w].idx)
    {
      InterfacesDistinct(net, t, u, v, w);
    }
  }

  // The link that an interface stands for.
  lemma JoiningLink(net: Net, t: Topology, u: Node, v: Node) returns (k: nat)
    requires BuiltFrom(net, t) && Up(net, u, v)
    ensures k < |t.links| && Joins(t.links[k], u, v) && IsFor(t.links, k, u, net.nbr2if[u][v])
    ensures forall m :: k < m < |t.links| ==> !Joins(t.links[m], u, v)
  {
    assert WiredAt(net.nbr2if, t.links, |t.links|, u, v);
    hide IsFor, Wired;
    k :| LastJoin(t.links, |t.links|, u, v, k) && IsFor(t.links, k, u, net.nbr2if[u][v]);
  }

  lemma UpIsLinked(net: Net, t: Topology, u: Node, v: Node)
    requires BuiltFrom(net, t)
    ensures Up(net, u, v) <==> u < t.nodeNum && Linked(t.links, |t.links|, u, v)
  {
    if u < |net.nbr2if| { assert WiredAt(net.nbr2if, t.links, |t.links|, u, v); }
    hide IsFor, Wired;
  }

  // ---- The generated graph ----

  ghost predicate Cable(z: Sizes, u: Node, v: Node)
    requires Positive(z)
  {
    || (u < Servers(z) && v == TorOf(z, u))
    || (Servers(z) <= u < Servers(z) + z.tors <= v < Servers(z) + z.tors + z.spines)
  }

  lemma DivLess(u: nat, n: nat, m: nat)
    requires n > 0 && u < n * m
    ensures u / n < m
  {
    DivMod(u, n);
    if u / n >= m {
      assert n * (u / n) >= n * m by { TimesMono(n, m, u / n); }
    }
  }

  lemma TimesMono(n: nat, x: nat, y: nat)
    requires x <= y
    ensures n * x <= n * y
  {
  }

  lemma LinkIsCable(z: Sizes, t: Topology, k: nat)
    requires Positive(z) && Generated(z, t) && k < |t.links|
    ensures Cable(z, t.links[k].src, t.links[k].dst)
  {
    if k >= Servers(z) {
      UplinkRange(z, k - Servers(z));
      assert t.links[Servers(z) + (k - Servers(z))] == Uplink(z, k - Servers(z));
    }
  }

  lemma UplinkRange(z: Sizes, j: nat)
    requires Positive(z) && j < z.tors * z.spines
    ensures Servers(z) <= Uplink(z, j).src < Servers(z) + z.tors <= Uplink(z, j).dst < Servers(z) + z.tors + z.spines
  {
    Commute(z.tors, z.spines);
    DivLess(j, z.spines, z.tors);
    DivMod(j, z.spines);
  }

  lemma Commute(a: nat, b: nat)
    ensures a * b == b * a
  {
  }

  lemma UplinkAt(z: Sizes, i: nat, j: nat) returns (k: nat)
    requires Positive(z) && i < z.tors && j < z.spines
    ensures k < z.tors * z.spines
    ensures Uplink(z, k).src == Servers(z) + i && Uplink(z, k).dst == Servers(z) + z.tors + j
  {
    k := j + z.spines * i;
    Row(i, j, z.spines);
    TimesMono(z.spines, i + 1, z.tors);
    Commute(z.tors, z.spines);
    assert z.spines * (i + 1) == z.spines * i + z.spines;
  }

  // The generator's links are exactly the cables.
  lemma CablesAreLinks(z: Sizes, t: Topology, u: Node, v: Node)
    requires Positive(z) && Generated(z, t)
    ensures Cable(z, u, v) <==> exists k :: 0 <= k < |t.links| && t.links[k].src == u && t.links[k].dst == v
  {
    forall k | 0 <= k < |t.links| ensures Cable(z, t.links[k].src, t.links[k].dst) {
      LinkIsCable(z, t, k);
    }
    if Cable(z, u, v) {
      if u < Servers(z) {
        assert t.links[u] == ServerLink(z, u);
      } else {
        var k := UplinkAt(z, u - Servers(z), v - Servers(z) - z.tors);
        assert t.links[Servers(z) + k] == Uplink(z, k);
      }
    }
  }

  ghost predicate Connected(z: Sizes, u: Node, v: Node)
    requires Positive(z)
  {
    Cable(z, u, v) || Cable(z, v, u)
  }

  lemma LinkFigures(z: Sizes, t: Topology, k: nat)
    requires Positive(z) && Generated(z, t) && k < |t.links|
    ensures 0 < t.links[k].rate < U64 && t.links[k].delay < U64
  {
    if k >= Servers(z) {
      assert t.links[Servers(z) + (k - Servers(z))] == Uplink(z, k - Servers(z));
    }
  }

  lemma LinkedIsConnected(z: Sizes, t: Topology, u: Node, v: Node)
    requires Positive(z) && Generated(z, t)
    ensures Linked(t.links, |t.links|, u, v) <==> Connected(z, u, v)
  {
    CablesAreLinks(z, t, u, v);
    CablesAreLinks(z, t, v, u);
    hide Cable, Generated, Positive;
  }

  lemma HostsAreServers(z: Sizes, t: Topology, v: Node)
    requires Positive(z) && Generated(z, t) && v < t.nodeNum
    ensures v in t.switchIds <==> v >= Servers(z)
  {
    if v >= Servers(z) { assert t.switchIds[v - Servers(z)] == v; }
  }

  // The graph built from the generated file: its up links are the cables, in both directions.
  lemma GeneratedGraph(z: Sizes, t: Topology, net: Net)
    requires Positive(z) && Generated(z, t) && BuiltFrom(net, t)
    ensures |net.kind| == Servers(z) + z.tors + z.spines
    ensures forall v :: 0 <= v < |net.kind| ==> (net.kind[v].Host? <==> v < Servers(z))
    ensures forall u: Node, v: Node :: Up(net, u, v) <==> Connected(z, u, v)
    ensures forall u: Node, v: Node :: Up(net, u, v) ==> 0 < net.nbr2if[u][v].bw < U64 && net.nbr2if[u][v].delay < U64
  {
    forall v | 0 <= v < |net.kind| ensures net.kind[v].Host? <==> v < Servers(z) {
      HostsAreServers(z, t, v);
    }
    assert t.nodeNum == Servers(z) + z.tors + z.spines;
    hide Linked, Connected, Cable, Generated, Positive, BuiltFrom, Up, IsFor;
    forall u: Node, v: Node ensures Up(net, u, v) <==> Connected(z, u, v) {
      UpIsLinked(net, t, u, v);
      LinkedIsConnected(z, t, u, v);
      ConnectedRange(z, u, v);
    }
    forall u: Node, v: Node | Up(net, u, v)
      ensures 0 < net.nbr2if[u][v].bw < U64 && net.nbr2if[u][v].delay < U64
    {
      var k := JoiningLink(net, t, u, v);
      LinkFigures(z, t, k);
      IsForFigures(t.links, k, u, net.nbr2if[u][v]);
    }
  }

  lemma IsForFigures(links: seq<Link>, k: nat, u: Node, i: Interface)
    requires k < |links| && IsFor(links, k, u, i)
    ensures i.delay == links[k].delay && i.bw == links[k].rate
  {
  }

  lemma ConnectedRange(z: Sizes, u: Node, v: Node)
    requires Positive(z)
    ensures Connected(z, u, v) ==> u < Servers(z) + z.tors + z.spines && v < Servers(z) + z.tors + z.spines
  {
    CableRange(z, u, v);
    CableRange(z, v, u);
  }

  lemma TorOfRange(z: Sizes, u: Node)
    requires Positive(z) && u < Servers(z)
    ensures Servers(z) <= TorOf(z, u) < Servers(z) + z.tors
  {
    DivLess(u, z.perTor, z.tors);
  }

  lemma CableRange(z: Sizes, u: Node, v: Node)
    requires Positive(z)
    ensures Cable(z, u, v) ==> u < v < Servers(z) + z.tors + z.spines
  {
    if u < Servers(z) { TorOfRange(z, u); }
    hide Servers, TorOf;
  }

  lemma GeneratedValid(z: Sizes, t: Topology, net: Net)
    requires Positive(z) && Generated(z, t) && BuiltFrom(net, t) && IsOrder(net.pointerOrder, net.rank, t.nodeNum)
    requires t.nodeNum <= 0x1_0000_0000
    ensures Valid(net)
  {
    GeneratedGraph(z, t, net);
    forall u: Node, v: Node | Up(net, u, v) ensures v < |net.kind| && Up(net, v, u) {
      CableRange(z, u, v);
      CableRange(z, v, u);
      assert Connected(z, v, u);
    }
  }

  lemma GeneratedInRange(z: Sizes, t: Topology)
    requires Positive(z) && Generated(z, t)
    ensures EndsExist(t)
  {
    forall k | 0 <= k < |t.links| ensures t.links[k].src < t.nodeNum && t.links[k].dst < t.nodeNum {
      LinkIsCable(z, t, k);
      CableRange(z, t.links[k].src, t.links[k].dst);
    }
  }

  // ---- The interface numbers of the generated graph ----

  // What is left of n after skipping lo, at most width.
  function Clamp(n: nat, lo: nat, width: nat): nat {
    if n <= lo then 0 else if n >= lo + width then width else n - lo
  }

  lemma QuotientIs(k: nat, n: nat, i: nat)
    requires n > 0
    ensures k / n == i <==> n * i <= k < n * i + n
  {
    DivMod(k, n);
    if n * i <= k < n * i + n {
      Row(i, k - n * i, n);
    }
  }

  lemma ClampNext(n: nat, lo: nat, width: nat)
    ensures Clamp(n + 1, lo, width) == Clamp(n, lo, width) + if lo <= n < lo + width then 1 else 0
    ensures Clamp(0, lo, width) == 0
  {
  }

  lemma LinkCount(z: Sizes, t: Topology)
    requires Positive(z) && Generated(z, t)
    ensures |t.links| == Servers(z) + z.tors * z.spines && |t.links| >= Servers(z)
  {
    Times(z.spines, z.tors);
  }

  lemma ServerLinkAt(z: Sizes, t: Topology, k: nat)
    requires Positive(z) && Generated(z, t) && k < Servers(z)
    ensures Servers(z) <= |t.links| && t.links[k] == ServerLink(z, k)
    ensures t.links[k].src == k && t.links[k].dst == Servers(z) + k / z.perTor
  {
    LinkCount(z, t);
  }

  lemma UplinkOf(z: Sizes, t: Topology, m: nat)
    requires Positive(z) && Generated(z, t) && m < z.tors * z.spines
    ensures Servers(z) + m < |t.links| && t.links[Servers(z) + m] == Uplink(z, m)
    ensures Servers(z) <= Uplink(z, m).src < Servers(z) + z.tors <= Uplink(z, m).dst
  {
    UplinkRange(z, m);
  }

  lemma DevicesNext(links: seq<Link>, n: nat, u: Node)
    requires n < |links|
    ensures Devices(links, n + 1, u) == Devices(links, n, u) + Ends(links[n], u)
    ensures Devices(links, 0, u) == 1
  {
  }

  // Which nodes the k-th server link and the m-th uplink give a device.
  lemma ServerLinkEnds(z: Sizes, t: Topology, k: nat, u: Node, i: nat)
    requires Positive(z) && Generated(z, t) && k < Servers(z) && u >= Servers(z) && i == u - Servers(z)
    ensures k < |t.links|
    ensures Ends(t.links[k], u) == if z.perTor * i <= k < z.perTor * i + z.perTor then 1 else 0
  {
    ServerLinkAt(z, t, k);
    QuotientIs(k, z.perTor, i);
    hide Generated, Positive;
  }

  lemma UplinkTorEnds(z: Sizes, t: Topology, m: nat, i: nat)
    requires Positive(z) && Generated(z, t) && m < z.tors * z.spines && i < z.tors
    ensures Servers(z) + m < |t.links|
    ensures Ends(t.links[Servers(z) + m], Servers(z) + i) == if z.spines * i <= m < z.spines * i + z.spines then 1 else 0
  {
    UplinkOf(z, t, m);
    QuotientIs(m, z.spines, i);
    hide Generated, Positive;
  }

  lemma OwnLinkEnds(z: Sizes, t: Topology, k: nat, u: Node)
    requires Positive(z) && Generated(z, t) && k < Servers(z) && u < Servers(z)
    ensures k < |t.links| && Ends(t.links[k], u) == if k == u then 1 else 0
  {
    ServerLinkAt(z, t, k);
    hide Generated, Positive, Servers;
  }

  lemma {:induction false} ServerDevices(z: Sizes, t: Topology, n: nat, u: Node)
    requires Positive(z) && Generated(z, t) && n <= u < Servers(z)
    ensures n <= |t.links| && Devices(t.links, n, u) == 1
  {
    hide *;
    LinkCount(z, t);
    if n == 0 {
      NoDevices(t.links, u);
    } else {
      ServerDevices(z, t, n - 1, u);
      OwnLinkEnds(z, t, n - 1, u);
      DevicesNext(t.links, n - 1, u);
    }
  }

  // A ToR has a device for each of its servers ...
  lemma {:induction false} TorDevicesDown(z: Sizes, t: Topology, n: nat, i: nat)
    requires Positive(z) && Generated(z, t) && n <= Servers(z) <= |t.links|
    ensures Devices(t.links, n, Servers(z) + i) == 1 + Clamp(n, z.perTor * i, z.perTor)
  {
    hide *;
    if n == 0 {
      NoDevices(t.links, Servers(z) + i);
      ClampNext(0, z.perTor * i, z.perTor);
    } else {
      TorDevicesDown(z, t, n - 1, i);
      ServerLinkEnds(z, t, n - 1, Servers(z) + i, i);
      DevicesNext(t.links, n - 1, Servers(z) + i);
      ClampNext(n - 1, z.perTor * i, z.perTor);
    }
  }

  lemma NoDevices(links: seq<Link>, u: Node)
    ensures Devices(links, 0, u) == 1
  {
  }

  lemma AllServersAbove(z: Sizes, i: nat)
    ensures i < z.tors ==> Clamp(Servers(z), z.perTor * i, z.perTor) == z.perTor
    ensures i >= z.tors ==> Clamp(Servers(z), z.perTor * i, z.perTor) == 0
  {
    if i < z.tors {
      TimesMono(z.perTor, i + 1, z.tors);
      assert z.perTor * (i + 1) == z.perTor * i + z.perTor;
    } else {
      TimesMono(z.perTor, z.tors, i);
    }
  }

  // ... and then one for each spine.
  lemma {:induction false} TorDevicesUp(z: Sizes, t: Topology, m: nat, i: nat)
    requires Positive(z) && Generated(z, t) && m <= z.tors * z.spines && Servers(z) + m <= |t.links| && i < z.tors
    ensures Devices(t.links, Servers(z) + m, Servers(z) + i) == 1 + z.perTor + Clamp(m, z.spines * i, z.spines)
  {
    hide *;
    if m == 0 {
      TorDevicesDown(z, t, Servers(z), i);
      AllServersAbove(z, i);
      ClampNext(0, z.spines * i, z.spines);
    } else {
      TorDevicesUp(z, t, m - 1, i);
      UplinkTorEnds(z, t, m - 1, i);
      DevicesNext(t.links, Servers(z) + (m - 1), Servers(z) + i);
      ClampNext(m - 1, z.spines * i, z.spines);
    }
  }

  lemma SpineDevicesDown(z: Sizes, t: Topology, u: Node)
    requires Positive(z) && Generated(z, t) && u >= Servers(z) + z.tors
    ensures Servers(z) <= |t.links| && Devices(t.links, Servers(z), u) == 1
  {
    hide *;
    LinkCount(z, t);
    TorDevicesDown(z, t, Servers(z), u - Servers(z));
    AllServersAbove(z, u - Servers(z));
  }

  // The position of the uplink from ToR i to spine j (or of the next ToR's first, when j is the spine count).
  function UplinkIndex(z: Sizes, i: nat, j: nat): nat { Servers(z) + (z.spines * i + j) }

  lemma UplinkIndexes(z: Sizes, t: Topology, i: nat, j: nat)
    requires Positive(z) && Generated(z, t) && j <= z.spines && (i < z.tors || (i == z.tors && j == 0))
    ensures UplinkIndex(z, i, j) <= |t.links|
    ensures UplinkIndex(z, i, z.spines) == UplinkIndex(z, i + 1, 0) && UplinkIndex(z, 0, 0) == Servers(z)
    ensures j > 0 ==> UplinkIndex(z, i, j) == UplinkIndex(z, i, j - 1) + 1
  {
    TimesMono(z.spines, if j == 0 then i else i + 1, z.tors);
    Commute(z.spines, z.tors);
    assert z.spines * (i + 1) == z.spines * i + z.spines;
  }

  lemma UplinkNumber(z: Sizes, i: nat, j: nat)
    requires Positive(z) && i < z.tors && j < z.spines
    ensures z.spines * i + j < z.tors * z.spines
    ensures Uplink(z, z.spines * i + j).src == Servers(z) + i
    ensures Uplink(z, z.spines * i + j).dst == Servers(z) + z.tors + j
  {
    TimesMono(z.spines, i + 1, z.tors);
    Commute(z.tors, z.spines);
    assert z.spines * (i + 1) == z.spines * i + z.spines;
    Row(i, j, z.spines);
    hide Servers;
  }

  lemma UplinkEnds(z: Sizes, t: Topology, i: nat, j: nat, s: nat)
    requires Positive(z) && Generated(z, t) && i < z.tors && j < z.spines && s < z.spines
    ensures UplinkIndex(z, i, j) < |t.links|
    ensures Ends(t.links[UplinkIndex(z, i, j)], Servers(z) + z.tors + s) == if j == s then 1 else 0
  {
    hide *;
    var m := z.spines * i + j;
    UplinkNumber(z, i, j);
    UplinkOf(z, t, m);
    IndexOfUplink(z, i, j);
    EndsAtDestination(Uplink(z, m), Servers(z) + z.tors + s);
  }

  lemma IndexOfUplink(z: Sizes, i: nat, j: nat)
    ensures UplinkIndex(z, i, j) == Servers(z) + (z.spines * i + j)
  {
  }

  lemma EndsAtDestination(l: Link, u: Node)
    requires l.src != u
    ensures Ends(l, u) == if l.dst == u then 1 else 0
  {
  }

  // A spine has a device for each ToR, in their order.
  lemma {:induction false} SpineDevices(z: Sizes, t: Topology, i: nat, j: nat, s: nat)
    requires Positive(z) && Generated(z, t) && s < z.spines && j <= z.spines && (i < z.tors || (i == z.tors && j == 0))
    ensures UplinkIndex(z, i, j) <= |t.links|
    ensures Devices(t.links, UplinkIndex(z, i, j), Servers(z) + z.tors + s) == 1 + i + if j > s then 1 else 0
    decreases i, j
  {
    hide *;
    UplinkIndexes(z, t, i, j);
    if j > 0 {
      SpineDevices(z, t, i, j - 1, s);
      UplinkEnds(z, t, i, j - 1, s);
      DevicesNext(t.links, UplinkIndex(z, i, j - 1), Servers(z) + z.tors + s);
    } else if i > 0 {
      SpineDevices(z, t, i - 1, z.spines, s);
      UplinkIndexes(z, t, i - 1, z.spines);
    } else {
      SpineDevicesDown(z, t, Servers(z) + z.tors + s);
    }
  }

  // The number of u's interface towards its neighbour v.
  function PortNumber(z: Sizes, u: Node, v: Node): nat
    requires Positive(z)
  {
    if u < Servers(z) then 1
    else if v < Servers(z) then 1 + v % z.perTor
    else if v < Servers(z) + z.tors then 1 + (v - Servers(z))
    else 1 + z.perTor + (v - Servers(z) - z.tors)
  }

  lemma ClampRow(k: nat, n: nat)
    requires n > 0
    ensures Clamp(k, n * (k / n), n) == k % n
  {
    DivMod(k, n);
  }

  lemma OneEnd(links: seq<Link>, k: nat, u: Node)
    requires k < |links| && links[k].src != links[k].dst
    ensures Port(links, k, u) == Devices(links, k, u)
  {
    hide Devices;
  }

  lemma ServerPortNumbers(z: Sizes, k: nat)
    requires Positive(z) && k < Servers(z)
    ensures TorOf(z, k) == Servers(z) + k / z.perTor
    ensures PortNumber(z, k, TorOf(z, k)) == 1 && PortNumber(z, TorOf(z, k), k) == 1 + k % z.perTor
  {
    hide Servers;
  }

  lemma ServerLinkPorts(z: Sizes, t: Topology, k: nat)
    requires Positive(z) && Generated(z, t) && k < Servers(z)
    ensures k < |t.links| && Port(t.links, k, k) == PortNumber(z, k, TorOf(z, k))
    ensures Port(t.links, k, TorOf(z, k)) == PortNumber(z, TorOf(z, k), k)
  {
    assert z.perTor > 0;
    hide *;
    LinkCount(z, t);
    ServerLinkAt(z, t, k);
    ServerPortNumbers(z, k);
    ServerDevices(z, t, k, k);
    TorDevicesDown(z, t, k, k / z.perTor);
    ClampRow(k, z.perTor);
    OneEnd(t.links, k, k);
    OneEnd(t.links, k, TorOf(z, k));
  }

  lemma UplinkPorts(z: Sizes, t: Topology, m: nat)
    requires Positive(z) && Generated(z, t) && m < z.tors * z.spines
    ensures var k, l := Servers(z) + m, Uplink(z, m);
      && k < |t.links| && Port(t.links, k, l.src) == PortNumber(z, l.src, l.dst)
      && Port(t.links, k, l.dst) == PortNumber(z, l.dst, l.src)
  {
    assert z.spines > 0;
    hide Generated, Positive, Devices, Servers, Clamp;
    var i, j := m / z.spines, m % z.spines;
    DivMod(m, z.spines);
    Commute(z.tors, z.spines);
    DivLess(m, z.spines, z.tors);
    UplinkOf(z, t, m);
    TorDevicesUp(z, t, m, i);
    ClampRow(m, z.spines);
    SpineDevices(z, t, i, j, j);
  }

  ghost predicate Ported(z: Sizes, net: Net)
    requires Positive(z)
  {
    forall u: Node, v: Node :: Up(net, u, v) ==> net.nbr2if[u][v].idx == PortNumber(z, u, v)
  }

  // All interface numbers of the generated graph, in closed form.
  lemma GeneratedPorts(z: Sizes, t: Topology, net: Net)
    requires Positive(z) && Generated(z, t) && BuiltFrom(net, t)
    ensures Ported(z, net)
  {
    forall u: Node, v: Node | Up(net, u, v) ensures net.nbr2if[u][v].idx == PortNumber(z, u, v) {
      var k := JoiningLink(net, t, u, v);
      PortOfLink(z, t, k, u, v);
    }
  }

  lemma PortOfLink(z: Sizes, t: Topology, k: nat, u: Node, v: Node)
    requires Positive(z) && Generated(z, t) && k < |t.links| && Joins(t.links[k], u, v)
    ensures Port(t.links, k, u) == PortNumber(z, u, v)
  {
    if k < Servers(z) {
      ServerLinkAt(z, t, k);
      ServerLinkPorts(z, t, k);
    } else {
      assert k - Servers(z) < z.tors * z.spines;
      UplinkOf(z, t, k - Servers(z));
      UplinkPorts(z, t, k - Servers(z));
    }
    hide Generated, Port, PortNumber, Uplink, TorOf;
  }

  // Every printed link: those of the servers, and those between the two layers of switches.
  lemma FiguresOfLink(z: Sizes, t: Topology, k: nat)
    requires Positive(z) && Generated(z, t) && k < |t.links|
    ensures var l := t.links[k];
      && l.errorRate == z.errorRate
      && (if l.src < z.perTor * z.tors then l.rate == z.serverRate && l.delay == z.serverDelay
          else l.rate == z.spineRate && l.delay == z.spineDelay)
      && l.dst >= z.perTor * z.tors
  {
    hide *;
    ServersIs(z);
    if k < Servers(z) {
      ServerLinkAt(z, t, k);
      PrintedFigures(z, k);
    } else {
      var m := k - Servers(z);
      LinkCount(z, t);
      UplinkOf(z, t, m);
      PrintedFigures(z, m);
    }
  }

  lemma ServersIs(z: Sizes)
    ensures Servers(z) == z.perTor * z.tors
  {
  }

  lemma PrintedFigures(z: Sizes, k: nat)
    requires Positive(z)
    ensures var l := ServerLink(z, k); l.rate == z.serverRate && l.delay == z.serverDelay && l.errorRate == z.errorRate
    ensures var l := Uplink(z, k); l.rate == z.spineRate && l.delay == z.spineDelay && l.errorRate == z.errorRate
    ensures z.perTor > 0 && z.spines > 0
  {
  }

  // In the generated graph a link with a server at either end has the servers' rate and delay, any other
  // the spines'.
  lemma GeneratedFigures(z: Sizes, t: Topology, net: Net, u: Node, v: Node)
    requires Positive(z) && Generated(z, t) && BuiltFrom(net, t) && Up(net, u, v)
    ensures var i := net.nbr2if[u][v];
      if u < z.perTor * z.tors || v < z.perTor * z.tors then i.bw == z.serverRate && i.delay == z.serverDelay
      else i.bw == z.spineRate && i.delay == z.spineDelay
  {
    hide Generated, BuiltFrom;
    var k := JoiningLink(net, t, u, v);
    FiguresOfLink(z, t, k);
  }
}
