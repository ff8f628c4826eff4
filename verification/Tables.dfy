/** The nested maps that hold routes and forwarding tables, and what they hold after each step of
    CalculateRoute, CalculateRoutes, SetRoutingEntries, TakeDownLink and TraceActualPath. */
module Tables {
  import opened Network
  import opened Bfs
  import opened Routes
  import opened Trace
  import opened LinkDown
  import opened Addresses
  import EcmpHash

  // ---- The nested maps: a missing key reads as an empty list ----

  type HopTable = map<Node, map<Node, seq<Node>>>
  type PortTable = map<Node, map<Word, seq<nat>>>

  function HopsIn(t: HopTable, v: Node, dst: Node): seq<Node> {
    if v in t && dst in t[v] then t[v][dst] else []
  }

  function PushHop(t: HopTable, v: Node, dst: Node, u: Node): HopTable {
    var row: map<Node, seq<Node>> := if v in t then t[v] else map[];
    t[v := row[dst := HopsIn(t, v, dst) + [u]]]
  }

  function PortsIn(t: PortTable, v: Node, addr: Word): seq<nat> {
    if v in t && addr in t[v] then t[v][addr] else []
  }

  function PushPort(t: PortTable, v: Node, addr: Word, port: nat): PortTable {
    var row: map<Word, seq<nat>> := if v in t then t[v] else map[];
    t[v := row[addr := PortsIn(t, v, addr) + [port]]]
  }

  // ---- The local variables of CalculateRoute ----

  datatype Locals = Locals(q: seq<Node>, dis: map<Node, nat>, delay: map<Node, nat>, txDelay: map<Node, nat>,
                           bw: map<Node, nat>, predecessor: map<Node, Node>)

  ghost predicate Matches(st: Search, host: Node, s: Locals) {
    && s.q == st.q
    && s.dis == DisOf(st.labels) && s.delay == DelayOf(st.labels) && s.txDelay == TxDelayOf(st.labels)
    && s.bw == BwOf(st.labels) && s.predecessor == PredecessorOf(st.labels, host)
  }

  ghost function Project<T>(labels: map<Node, Label>, f: Label -> T): map<Node, T> {
    map v | v in labels :: f(labels[v])
  }

  ghost function DisOf(labels: map<Node, Label>): map<Node, nat> { Project(labels, (l: Label) => l.dis) }
  ghost function DelayOf(labels: map<Node, Label>): map<Node, nat> { Project(labels, (l: Label) => l.delay) }
  ghost function TxDelayOf(labels: map<Node, Label>): map<Node, nat> { Project(labels, (l: Label) => l.txDelay) }
  ghost function BwOf(labels: map<Node, Label>): map<Node, nat> { Project(labels, (l: Label) => l.bw) }

  ghost function PredecessorOf(labels: map<Node, Label>, host: Node): map<Node, Node> {
    Project(labels - {host}, (l: Label) => l.predecessor)
  }

  lemma MatchesStart(host: Node)
    ensures Matches(Start(host), host, Locals([host], map[host := 0], map[host := 0], map[host := 0], map[host := MAX_BW], map[]))
    ensures Start(host).hops == map[]
  {
  }

  lemma MatchesMaps(st: Search, host: Node, s: Locals)
    requires Matches(st, host, s)
    ensures s.delay == DelayOf(st.labels) && s.txDelay == TxDelayOf(st.labels) && s.bw == BwOf(st.labels)
  {
  }

  lemma MatchesAt(labels: map<Node, Label>, v: Node)
    ensures v in labels <==> v in DisOf(labels)
    ensures v in labels ==> v in DelayOf(labels) && v in TxDelayOf(labels) && v in BwOf(labels)
    ensures v in labels ==> labels[v].dis == DisOf(labels)[v] && labels[v].delay == DelayOf(labels)[v]
    ensures v in labels ==> labels[v].txDelay == TxDelayOf(labels)[v] && labels[v].bw == BwOf(labels)[v]
  {
  }

  lemma ProjectAdd<T>(labels: map<Node, Label>, f: Label -> T, v: Node, l: Label)
    ensures Project(labels[v := l], f) == Project(labels, f)[v := f(l)]
  {
  }

  lemma MatchesAdd(labels: map<Node, Label>, host: Node, v: Node, l: Label)
    requires v != host
    ensures DisOf(labels[v := l]) == DisOf(labels)[v := l.dis] && DelayOf(labels[v := l]) == DelayOf(labels)[v := l.delay]
    ensures TxDelayOf(labels[v := l]) == TxDelayOf(labels)[v := l.txDelay] && BwOf(labels[v := l]) == BwOf(labels)[v := l.bw]
    ensures PredecessorOf(labels[v := l], host) == PredecessorOf(labels, host)[v := l.predecessor]
  {
    hide Project;
    ProjectAdd(labels, (l: Label) => l.dis, v, l);
    ProjectAdd(labels, (l: Label) => l.delay, v, l);
    ProjectAdd(labels, (l: Label) => l.txDelay, v, l);
    ProjectAdd(labels, (l: Label) => l.bw, v, l);
    assert labels[v := l] - {host} == (labels - {host})[v := l];
    ProjectAdd(labels - {host}, (l: Label) => l.predecessor, v, l);
  }

  // nextHop holds what it held at the start, with st's hops appended at destination host.
  ghost predicate Grown(before: HopTable, after: HopTable, host: Node, hops: map<Node, seq<Node>>) {
    forall v: Node, dst: Node :: HopsIn(after, v, dst) ==
      if dst == host then HopsIn(before, v, dst) + HopsAt(hops, v) else HopsIn(before, v, dst)
  }

  lemma GrownPush(before: HopTable, after: HopTable, host: Node, hops: map<Node, seq<Node>>, v: Node, u: Node)
    requires Grown(before, after, host, hops)
    ensures Grown(before, PushHop(after, v, host, u), host, hops[v := HopsAt(hops, v) + [u]])
  {
    var after', hops' := PushHop(after, v, host, u), hops[v := HopsAt(hops, v) + [u]];
    forall w: Node, dst: Node ensures HopsIn(after', w, dst) ==
      if dst == host then HopsIn(before, w, dst) + HopsAt(hops', w) else HopsIn(before, w, dst)
    {
      PushHopAt(after, v, host, u, w, dst);
      assert HopsIn(after, w, dst) == if dst == host then HopsIn(before, w, dst) + HopsAt(hops, w) else HopsIn(before, w, dst);
    }
  }

  lemma PushHopAt(t: HopTable, v: Node, host: Node, u: Node, w: Node, dst: Node)
    ensures HopsIn(PushHop(t, v, host, u), w, dst) == if w == v && dst == host then HopsIn(t, w, dst) + [u] else HopsIn(t, w, dst)
  {
  }

  lemma GrownStart(t: HopTable, host: Node)
    ensures Grown(t, t, host, map[])
  {
  }

  // The same for the first n hosts as destinations.
  ghost predicate AllGrown(net: Net, before: HopTable, after: HopTable, n: nat)
    requires Valid(net) && n <= |net.kind|
  {
    forall v: Node, dst: Node :: HopsIn(after, v, dst) ==
      HopsIn(before, v, dst) + if dst < n then NextHops(net, v, dst) else []
  }

  lemma AllGrownStart(net: Net, t: HopTable)
    requires Valid(net)
    ensures AllGrown(net, t, t, 0)
  {
  }

  lemma AllGrownNext(net: Net, before: HopTable, was: HopTable, after: HopTable, n: nat)
    requires Valid(net) && n < |net.kind| && AllGrown(net, before, was, n)
    requires if net.kind[n].Host? then Grown(was, after, n, Route(net, n).hops) else after == was
    ensures AllGrown(net, before, after, n + 1)
  {
    hide Valid, Route, HopsIn;
    forall v: Node, dst: Node
      ensures HopsIn(after, v, dst) == HopsIn(before, v, dst) + if dst < n + 1 then NextHops(net, v, dst) else []
    {
      assert HopsIn(was, v, dst) == HopsIn(before, v, dst) + if dst < n then NextHops(net, v, dst) else [];
    }
  }

  // ---- One round of each loop of CalculateRoute ----

  // What the body of the inner loop does to each map.
  lemma RelaxMaps(net: Net, was: Search, host: Node, now: Node, next: Node)
    requires now in was.labels && host in was.labels && next < |net.kind| && (Up(net, now, next) ==> net.nbr2if[now][next].bw > 0)
    ensures var st := Relax(net, was, now, next); var l := was.labels[now];
      && now in st.labels && host in st.labels && st.labels[now] == l
      && (!Up(net, now, next) ==> st == was)
      && (Up(net, now, next) && next in was.labels ==> st.q == was.q && st.labels == was.labels)
      && (Up(net, now, next) && next !in was.labels ==>
            var it := net.nbr2if[now][next];
            && st.q == (if net.kind[next].Switch? then was.q + [next] else was.q)
            && DisOf(st.labels) == DisOf(was.labels)[next := l.dis + 1]
            && DelayOf(st.labels) == DelayOf(was.labels)[next := (l.delay + it.delay) % U64]
            && TxDelayOf(st.labels) == TxDelayOf(was.labels)[next := (l.txDelay + TxTime(net.payload, it.bw)) % U64]
            && BwOf(st.labels) == BwOf(was.labels)[next := if it.bw < l.bw then it.bw else l.bw]
            && PredecessorOf(st.labels, host) == PredecessorOf(was.labels, host)[next := now])
      && (Up(net, now, next) ==> (next in st.labels && st.hops ==
            if l.dis + 1 == st.labels[next].dis then was.hops[next := HopsAt(was.hops, next) + [now]] else was.hops))
  {
    hide DisOf, DelayOf, TxDelayOf, BwOf, PredecessorOf;
    if Up(net, now, next) && next !in was.labels {
      MatchesAdd(was.labels, host, next, Onward(net, was.labels[now], now, next));
    }
  }

  lemma RelaxKeeps(net: Net, was: Search, host: Node, now: Node, next: Node)
    requires now in was.labels && host in was.labels && next < |net.kind| && (Up(net, now, next) ==> net.nbr2if[now][next].bw > 0)
    ensures now in Relax(net, was, now, next).labels && host in Relax(net, was, now, next).labels
  {
  }

  // The outer loop, at queue entry i in state st, is on its way to Route(net, host).
  ghost predicate Heading(net: Net, host: Node, st: Search, i: nat) {
    && Valid(net) && host < |net.kind|
    && Inv(net, host, st, i) && Loop(net, host, st, i) == Route(net, host)
  }

  lemma HeadingStart(net: Net, host: Node)
    requires Valid(net) && host < |net.kind|
    ensures Heading(net, host, Start(host), 0) && Start(host).q == [host]
  {
    InvStart(net, host);
  }

  lemma HeadingNext(net: Net, host: Node, st: Search, i: nat)
    requires Heading(net, host, st, i) && i < |st.q|
    ensures i < |net.kind| == |net.nbr2if| && st.q[i] in st.labels && st.q[i] < |net.kind| && host in st.labels
    ensures Scan(net, st, st.q[i], 0) == st
    ensures Heading(net, host, Scan(net, st, st.q[i], |net.pointerOrder|), i + 1)
  {
    QueueBound(net, host, st);
    InvStep(net, host, st, i);
  }

  lemma HeadingEnd(net: Net, host: Node, st: Search, i: nat)
    requires Heading(net, host, st, i) && i >= |st.q|
    ensures st == Route(net, host)
  {
  }

  // ---- pairDelay, pairTxDelay and pairBw ----

  type PairTable = map<(Node, Node), nat>

  // table[v][host] := value[v] for every v with a value.
  function Record(t: PairTable, host: Node, value: map<Node, nat>): PairTable {
    t + map v | v in value :: (v, host) := value[v]
  }

  // t holds field f of the labels of the first n hosts' searches.
  ghost predicate Holds(net: Net, t: PairTable, f: Label -> nat, n: nat)
    requires Valid(net) && n <= |net.kind|
  {
    forall v: Node, host: Node :: host < n && net.kind[host].Host? && Visited(net, host, v) ==>
      (v, host) in t && t[(v, host)] == f(Route(net, host).labels[v])
  }

  // No other entry of t differs from before.
  ghost predicate Kept(net: Net, before: PairTable, t: PairTable, n: nat)
    requires Valid(net) && n <= |net.kind|
  {
    forall v: Node, host: Node :: !(host < n && net.kind[host].Host? && Visited(net, host, v)) ==>
      ((v, host) in t <==> (v, host) in before) && ((v, host) in before ==> t[(v, host)] == before[(v, host)])
  }

  ghost predicate Recorded(net: Net, pairDelay: PairTable, pairTxDelay: PairTable, pairBw: PairTable, n: nat)
    requires Valid(net) && n <= |net.kind|
  {
    && Holds(net, pairDelay, (l: Label) => l.delay, n)
    && Holds(net, pairTxDelay, (l: Label) => l.txDelay, n)
    && Holds(net, pairBw, (l: Label) => l.bw, n)
  }

  lemma RecordAt(t: PairTable, host: Node, labels: map<Node, Label>, f: Label -> nat, v: Node, h: Node)
    ensures var t' := Record(t, host, Project(labels, f));
      && ((v, h) in t' <==> (v, h) in t || (h == host && v in labels))
      && (h == host && v in labels ==> t'[(v, h)] == f(labels[v]))
      && (h != host && (v, h) in t ==> t'[(v, h)] == t[(v, h)])
  {
  }

  lemma HoldsNext(net: Net, t: PairTable, f: Label -> nat, n: nat)
    requires Valid(net) && n < |net.kind| && Holds(net, t, f, n)
    ensures net.kind[n].Switch? ==> Holds(net, t, f, n + 1)
    ensures Holds(net, Record(t, n, Project(Route(net, n).labels, f)), f, n + 1)
  {
    hide Valid, Record, Project;
    var l := Route(net, n).labels;
    forall v: Node, host: Node | host <= n && net.kind[host].Host? && Visited(net, host, v)
      ensures var t' := Record(t, n, Project(l, f)); (v, host) in t' && t'[(v, host)] == f(Route(net, host).labels[v])
    {
      RecordAt(t, n, l, f, v, host);
    }
  }

  lemma KeptStart(net: Net, t: PairTable)
    requires Valid(net)
    ensures Kept(net, t, t, 0)
  {
  }

  lemma KeptNext(net: Net, before: PairTable, t: PairTable, f: Label -> nat, n: nat)
    requires Valid(net) && n < |net.kind| && Kept(net, before, t, n)
    ensures net.kind[n].Switch? ==> Kept(net, before, t, n + 1)
    ensures net.kind[n].Host? ==> Kept(net, before, Record(t, n, Project(Route(net, n).labels, f)), n + 1)
  {
    hide Valid, Record, Project, Route;
    var l := Route(net, n).labels;
    var t' := Record(t, n, Project(l, f));
    if net.kind[n].Host? {
      forall v: Node, host: Node | !(host <= n && net.kind[host].Host? && Visited(net, host, v))
        ensures ((v, host) in t' <==> (v, host) in before) && ((v, host) in before ==> t'[(v, host)] == before[(v, host)])
      {
        RecordKeeps(t, n, l, f, v, host);
        assert (v, host) in t <==> (v, host) in before;
      }
    }
  }

  lemma RecordKeeps(t: PairTable, host: Node, labels: map<Node, Label>, f: Label -> nat, v: Node, h: Node)
    requires h != host || v !in labels
    ensures var t' := Record(t, host, Project(labels, f));
      ((v, h) in t' <==> (v, h) in t) && ((v, h) in t ==> t'[(v, h)] == t[(v, h)])
  {
  }

  // The same for the three tables.
  ghost predicate AllKept(net: Net, d: PairTable, t: PairTable, b: PairTable, d': PairTable, t': PairTable, b': PairTable, n: nat)
    requires Valid(net) && n <= |net.kind|
  {
    Kept(net, d, d', n) && Kept(net, t, t', n) && Kept(net, b, b', n)
  }

  lemma AllKeptStart(net: Net, d: PairTable, t: PairTable, b: PairTable)
    requires Valid(net)
    ensures AllKept(net, d, t, b, d, t, b, 0)
  {
    KeptStart(net, d);
    KeptStart(net, t);
    KeptStart(net, b);
  }

  lemma AllKeptNext(net: Net, d: PairTable, t: PairTable, b: PairTable, d': PairTable, t': PairTable, b': PairTable, n: nat)
    requires Valid(net) && n < |net.kind| && AllKept(net, d, t, b, d', t', b', n)
    ensures net.kind[n].Switch? ==> AllKept(net, d, t, b, d', t', b', n + 1)
    ensures var l := Route(net, n).labels;
      net.kind[n].Host? ==>
        AllKept(net, d, t, b, Record(d', n, DelayOf(l)), Record(t', n, TxDelayOf(l)), Record(b', n, BwOf(l)), n + 1)
  {
    hide Valid, Kept, Record, Project, Route;
    KeptNext(net, d, d', (l: Label) => l.delay, n);
    KeptNext(net, t, t', (l: Label) => l.txDelay, n);
    KeptNext(net, b, b', (l: Label) => l.bw, n);
  }

  lemma RecordedStart(net: Net, d: PairTable, t: PairTable, b: PairTable)
    requires Valid(net)
    ensures Recorded(net, d, t, b, 0)
  {
  }

  lemma RecordedNext(net: Net, d: PairTable, t: PairTable, b: PairTable, n: nat)
    requires Valid(net) && n < |net.kind| && Recorded(net, d, t, b, n)
    ensures net.kind[n].Switch? ==> Recorded(net, d, t, b, n + 1)
    ensures var l := Route(net, n).labels;
      Recorded(net, Record(d, n, DelayOf(l)), Record(t, n, TxDelayOf(l)), Record(b, n, BwOf(l)), n + 1)
  {
    hide Valid, Holds, Record, Project;
    HoldsNext(net, d, (l: Label) => l.delay, n);
    HoldsNext(net, t, (l: Label) => l.txDelay, n);
    HoldsNext(net, b, (l: Label) => l.bw, n);
  }

  // ---- Forwarding tables ----

  // nbr2if[v][u].idx, with the default of a missing entry.
  function PortOf(net: Net, v: Node, u: Node): nat {
    if v < |net.nbr2if| && u in net.nbr2if[v] then net.nbr2if[v][u].idx else 0
  }

  function PortsOf(net: Net, v: Node, us: seq<Node>): (ports: seq<nat>)
    ensures |ports| == |us|
  {
    seq(|us|, i requires 0 <= i < |us| => PortOf(net, v, us[i]))
  }

  // What SetRoutingEntries installs at v under addr: the ports towards every destination with
  // that address, over the first k destinations.
  ghost function Entries(net: Net, t: HopTable, v: Node, addr: Word, k: nat): seq<nat>
    requires Valid(net) && k <= |net.pointerOrder|
  {
    if k == 0 then [] else
      var dst := net.pointerOrder[k - 1];
      Entries(net, t, v, addr, k - 1) + if NodeIdToIp(dst) == addr then PortsOf(net, v, HopsIn(t, v, dst)) else []
  }

  // The tables after the first a nodes, and the first b destinations of the next one.
  ghost predicate Installed(net: Net, t: HopTable, before: PortTable, after: PortTable, a: nat, b: nat)
    requires Valid(net) && b <= |net.pointerOrder|
  {
    forall v: Node, addr: Word | v < |net.kind| ::
      PortsIn(after, v, addr) == PortsIn(before, v, addr) + EntriesSoFar(net, t, v, addr, a, b)
  }

  ghost function EntriesSoFar(net: Net, t: HopTable, v: Node, addr: Word, a: nat, b: nat): seq<nat>
    requires Valid(net) && b <= |net.pointerOrder| && v < |net.kind|
  {
    if net.rank[v] < a then Entries(net, t, v, addr, |net.pointerOrder|)
    else if net.rank[v] == a then Entries(net, t, v, addr, b)
    else []
  }

  // ports was appended at (v, addr), and nothing else changed.
  ghost predicate Pushed(before: PortTable, after: PortTable, v: Node, addr: Word, ports: seq<nat>) {
    forall w: Node, ad: Word :: PortsIn(after, w, ad) == PortsIn(before, w, ad) + if w == v && ad == addr then ports else []
  }

  lemma PushedStart(t: PortTable, v: Node, addr: Word)
    ensures Pushed(t, t, v, addr, [])
  {
  }

  lemma PushedNext(net: Net, before: PortTable, t: PortTable, v: Node, addr: Word, us: seq<Node>, k: nat)
    requires k < |us| && Pushed(before, t, v, addr, PortsOf(net, v, us[..k]))
    ensures Pushed(before, PushPort(t, v, addr, PortOf(net, v, us[k])), v, addr, PortsOf(net, v, us[..k + 1]))
  {
    assert PortsOf(net, v, us[..k + 1]) == PortsOf(net, v, us[..k]) + [PortOf(net, v, us[k])];
    var t' := PushPort(t, v, addr, PortOf(net, v, us[k]));
    forall w: Node, ad: Word ensures PortsIn(t', w, ad) ==
      PortsIn(before, w, ad) + if w == v && ad == addr then PortsOf(net, v, us[..k + 1]) else []
    {
      PushPortAt(t, v, addr, PortOf(net, v, us[k]), w, ad);
      assert PortsIn(t, w, ad) == PortsIn(before, w, ad) + if w == v && ad == addr then PortsOf(net, v, us[..k]) else [];
    }
  }

  lemma PushPortAt(t: PortTable, v: Node, addr: Word, port: nat, w: Node, ad: Word)
    ensures PortsIn(PushPort(t, v, addr, port), w, ad) == if w == v && ad == addr then PortsIn(t, w, ad) + [port] else PortsIn(t, w, ad)
  {
  }

  lemma InstalledStart(net: Net, t: HopTable, p: PortTable)
    requires Valid(net)
    ensures Installed(net, t, p, p, 0, 0)
  {
  }

  // One destination done, after all its ports (none, if it has no row) were pushed.
  lemma InstalledDst(net: Net, t: HopTable, before: PortTable, was: PortTable, after: PortTable, a: nat, b: nat)
    requires Valid(net) && a < |net.pointerOrder| && b < |net.pointerOrder|
    requires Installed(net, t, before, was, a, b)
    requires var v, dst := net.pointerOrder[a], net.pointerOrder[b];
      Pushed(was, after, v, NodeIdToIp(dst), PortsOf(net, v, HopsIn(t, v, dst)))
    ensures Installed(net, t, before, after, a, b + 1)
  {
    PointerOrderInRange(net, b);
    hide Valid, PortsIn, HopsIn, PortsOf, NodeIdToIp, EntriesSoFar, Entries;
    var node, dst := net.pointerOrder[a], net.pointerOrder[b];
    var ip := NodeIdToIp(dst);
    var ports := PortsOf(net, node, HopsIn(t, node, dst));
    forall v: Node, addr: Word | v < |net.kind|
      ensures PortsIn(after, v, addr) == PortsIn(before, v, addr) + EntriesSoFar(net, t, v, addr, a, b + 1)
    {
      EntriesSoFarNext(net, t, v, addr, a, b);
      AppendTwice(PortsIn(before, v, addr), EntriesSoFar(net, t, v, addr, a, b), if v == node && addr == ip then ports else []);
    }
  }

  lemma AppendTwice(x: seq<nat>, y: seq<nat>, z: seq<nat>)
    ensures (x + y) + z == x + (y + z)
  {
  }

  lemma EntriesSoFarNext(net: Net, t: HopTable, v: Node, addr: Word, a: nat, b: nat)
    requires Valid(net) && v < |net.kind| && a < |net.pointerOrder| && b < |net.pointerOrder|
    ensures var node, dst := net.pointerOrder[a], net.pointerOrder[b];
      EntriesSoFar(net, t, v, addr, a, b + 1) == EntriesSoFar(net, t, v, addr, a, b) +
        if v == node && addr == NodeIdToIp(dst) then PortsOf(net, node, HopsIn(t, node, dst)) else []
  {
    hide HopsIn, PortsOf, NodeIdToIp;
  }

  lemma PushedNone(net: Net, t: HopTable, p: PortTable, v: Node, dst: Node, addr: Word)
    requires HopsIn(t, v, dst) == []
    ensures Pushed(p, p, v, addr, PortsOf(net, v, HopsIn(t, v, dst)))
  {
    assert PortsOf(net, v, []) == [];
  }

  lemma PointerOrderInRange(net: Net, k: nat)
    requires Valid(net) && k < |net.pointerOrder|
    ensures net.pointerOrder[k] < 0x1_0000_0000
  {
  }

  lemma HopsInRow(t: HopTable, v: Node, dst: Node)
    ensures v in t && dst in t[v] ==> HopsIn(t, v, dst) == t[v][dst]
    ensures !(v in t && dst in t[v]) ==> HopsIn(t, v, dst) == []
  {
  }

  lemma PortsOfNone(net: Net, v: Node, us: seq<Node>)
    ensures PortsOf(net, v, us[..0]) == []
  {
  }

  lemma InstalledNode(net: Net, t: HopTable, before: PortTable, after: PortTable, a: nat)
    requires Valid(net) && a < |net.pointerOrder|
    requires Installed(net, t, before, after, a, |net.pointerOrder|)
    ensures Installed(net, t, before, after, a + 1, 0)
  {
    hide PortsIn;
  }

  // ---- What the routing state holds once it is set up ----

  // The port lists towards addr that the graph alone determines.
  ghost function TableFor(net: Net, v: Node, addr: Word, k: nat): seq<nat>
    requires Valid(net) && k <= |net.pointerOrder|
  {
    if k == 0 then [] else
      var dst := net.pointerOrder[k - 1];
      TableFor(net, v, addr, k - 1) + if NodeIdToIp(dst) == addr then PortsOf(net, v, NextHops(net, v, dst)) else []
  }

  ghost predicate HopsRouted(net: Net, t: HopTable)
    requires Valid(net)
  {
    forall v: Node, dst: Node :: HopsIn(t, v, dst) == if dst < |net.kind| then NextHops(net, v, dst) else []
  }

  ghost predicate TablesRouted(net: Net, p: PortTable)
    requires Valid(net)
  {
    forall v: Node, addr: Word | v < |net.kind| :: PortsIn(p, v, addr) == TableFor(net, v, addr, |net.pointerOrder|)
  }

  lemma HopsFromScratch(net: Net, t: HopTable)
    requires Valid(net) && AllGrown(net, map[], t, |net.kind|)
    ensures HopsRouted(net, t)
  {
    hide Valid;
    forall v: Node, dst: Node ensures HopsIn(t, v, dst) == if dst < |net.kind| then NextHops(net, v, dst) else [] {
      assert HopsIn(map[], v, dst) == [];
    }
  }

  lemma {:induction false} EntriesAreTable(net: Net, t: HopTable, v: Node, addr: Word, k: nat)
    requires Valid(net) && HopsRouted(net, t) && k <= |net.pointerOrder|
    ensures Entries(net, t, v, addr, k) == TableFor(net, v, addr, k)
  {
    hide NodeIdToIp, PortsOf, HopsIn, NextHops;
    if k > 0 {
      EntriesAreTable(net, t, v, addr, k - 1);
    }
  }

  lemma TablesFromScratch(net: Net, t: HopTable, cleared: PortTable, p: PortTable)
    requires Valid(net) && HopsRouted(net, t) && Installed(net, t, cleared, p, |net.pointerOrder|, 0)
    requires forall v: Node :: v < |net.kind| ==> v !in cleared
    ensures TablesRouted(net, p)
  {
    hide NodeIdToIp, HopsIn, NextHops, TableFor, Entries;
    forall v: Node, addr: Word | v < |net.kind|
      ensures PortsIn(p, v, addr) == TableFor(net, v, addr, |net.pointerOrder|)
    {
      EntriesAreTable(net, t, v, addr, |net.pointerOrder|);
      assert PortsIn(cleared, v, addr) == [];
    }
  }

  lemma TableNext(net: Net, v: Node, addr: Word, k: nat)
    requires Valid(net) && k <= |net.pointerOrder|
    ensures TableFor(net, v, addr, 0) == []
    ensures k > 0 ==> var dst := net.pointerOrder[k - 1];
      && dst < |net.kind| <= 0x1_0000_0000
      && TableFor(net, v, addr, k) ==
           TableFor(net, v, addr, k - 1) + if NodeIdToIp(dst) == addr then PortsOf(net, v, NextHops(net, v, dst)) else []
  {
  }

  lemma RankOrder(net: Net, h: Node, k: nat)
    requires Valid(net) && h < |net.kind| && k <= |net.pointerOrder|
    ensures h < |net.rank|
    ensures k > 0 ==> (net.rank[h] < k <==> net.rank[h] < k - 1 || net.pointerOrder[k - 1] == h)
    ensures k > 0 && net.pointerOrder[k - 1] == h ==> net.rank[h] == k - 1
  {
  }

  // With fewer than 2^24 nodes, the table of v lists under a host's address exactly the interfaces
  // of its next hops towards that host.
  lemma {:induction false} TableLists(net: Net, v: Node, h: Node, k: nat)
    requires Valid(net) && |net.kind| <= 0x100_0000 && h < |net.kind| && k <= |net.pointerOrder|
    ensures TableFor(net, v, NodeIdToIp(h), k) == if net.rank[h] < k then PortsOf(net, v, NextHops(net, v, h)) else []
  {
    hide Valid, TableFor, PortsOf, NextHops, NodeIdToIp;
    TableNext(net, v, NodeIdToIp(h), k);
    RankOrder(net, h, k);
    if k > 0 {
      TableLists(net, v, h, k - 1);
      AddressesDistinct(h, net.pointerOrder[k - 1]);
      var ports := PortsOf(net, v, NextHops(net, v, h));
      var before := TableFor(net, v, NodeIdToIp(h), k - 1);
      assert before + [] == before && [] + ports == ports;
    }
  }

  // ---- A change that leaves the up links alone leaves the routing state right ----

  lemma PortsSame(m: Net, n: Net, v: Node, us: seq<Node>)
    requires SameUp(m, n) && forall i :: 0 <= i < |us| ==> Up(m, v, us[i])
    ensures PortsOf(m, v, us) == PortsOf(n, v, us)
  {
    forall i | 0 <= i < |us| ensures PortOf(m, v, us[i]) == PortOf(n, v, us[i]) {
      assert Up(n, v, us[i]);
    }
  }

  lemma NextHopsSame(m: Net, n: Net, v: Node, dst: Node)
    requires Valid(m) && Valid(n) && SameUp(m, n) && dst < |m.kind|
    ensures NextHops(m, v, dst) == NextHops(n, v, dst)
    ensures PortsOf(m, v, NextHops(m, v, dst)) == PortsOf(n, v, NextHops(n, v, dst))
  {
    RouteSame(m, n, dst);
    HopsAreNearer(m, dst, v);
    hide Valid, Route, PortsOf;
    var us := NextHops(m, v, dst);
    forall i | 0 <= i < |us| ensures Up(m, v, us[i]) { assert us[i] in us; }
    PortsSame(m, n, v, us);
  }

  lemma {:induction false} TableSame(m: Net, n: Net, v: Node, addr: Word, k: nat)
    requires Valid(m) && Valid(n) && SameUp(m, n) && k <= |m.pointerOrder| && |m.pointerOrder| == |n.pointerOrder|
    ensures TableFor(m, v, addr, k) == TableFor(n, v, addr, k)
  {
    hide *;
    TableNext(m, v, addr, k);
    TableNext(n, v, addr, k);
    if k > 0 {
      TableSame(m, n, v, addr, k - 1);
      SameLink(m, n, v, v);
      NextHopsSame(m, n, v, m.pointerOrder[k - 1]);
    }
  }

  lemma RoutedSame(m: Net, n: Net, t: HopTable, p: PortTable)
    requires Valid(m) && Valid(n) && SameUp(m, n) && HopsRouted(m, t) && TablesRouted(m, p)
    ensures HopsRouted(n, t) && TablesRouted(n, p)
  {
    hide HopsIn, PortsIn, NextHops, TableFor;
    forall v: Node, dst: Node | dst < |m.kind| ensures NextHops(m, v, dst) == NextHops(n, v, dst) {
      NextHopsSame(m, n, v, dst);
    }
    forall v: Node, addr: Word ensures TableFor(m, v, addr, |m.pointerOrder|) == TableFor(n, v, addr, |n.pointerOrder|) {
      TableSame(m, n, v, addr, |m.pointerOrder|);
    }
  }

  lemma TakeDownReady(net: Net, a: Node, b: Node)
    requires Valid(net) && a < |net.kind| && b < |net.kind|
    ensures a < |net.nbr2if| && b < |net.nbr2if| && (Up(net, a, b) ==> Up(net, b, a))
  {
  }

  lemma TakeDownNothing(net: Net, a: Node, b: Node)
    requires Valid(net) && a < |net.kind| && b < |net.kind| && !Up(net, a, b)
    requires a < |net.nbr2if| && b < |net.nbr2if|
    ensures SameUp(net, TakeDown(net, a, b))
  {
    TakeDownEffect(net, a, b);
    assert !Up(net, b, a);
  }

  // Main result for failures: after any sequence of downed links, tables and next hops computed from
  // scratch agree with those of the graph that never had these links.
  lemma TablesAfterDowns(net: Net, downs: seq<(Node, Node)>, v: Node, addr: Word)
    requires Valid(net) && NodesExist(net, downs)
    ensures TableFor(TakeDownAll(net, downs), v, addr, |net.pointerOrder|) == TableFor(Without(net, downs), v, addr, |net.pointerOrder|)
  {
    TakeDownAllIsWithout(net, downs);
    TableSame(TakeDownAll(net, downs), Without(net, downs), v, addr, |net.pointerOrder|);
  }

  // ---- Paths of flows ----

  // A node id as the 32-bit word that is hashed.
  function Bits(v: Node): bv32 { EcmpHash.WordOf(v) }

  // The hash of one flow, as a function of the node that forwards it.
  function FlowHashes(src: Node, dst: Node, sport: bv16, dport: bv16): Hash {
    (v: Node) => EcmpHash.FlowHashNumber(Bits(src), Bits(dst), sport, dport, Bits(v))
  }

  lemma FlowHashesAt(src: Node, dst: Node, sport: bv16, dport: bv16, v: Node)
    ensures FlowHashes(src, dst, sport, dport)(v) ==
      EcmpHash.Number(EcmpHash.FlowHash(Bits(src), Bits(dst), sport, dport, Bits(v)))
  {
    hide EcmpHash.FlowHash, EcmpHash.Number;
  }

  // nextHop[v][dst], as an lvalue: inserts an empty list if there is none.
  function Touch(t: HopTable, v: Node, dst: Node): HopTable {
    var row: map<Node, seq<Node>> := if v in t then t[v] else map[];
    t[v := row[dst := HopsIn(t, v, dst)]]
  }

  lemma TouchSame(t: HopTable, v: Node, dst: Node, w: Node, d: Node)
    ensures HopsIn(Touch(t, v, dst), w, d) == HopsIn(t, w, d)
  {
  }

  lemma TouchRouted(net: Net, t: HopTable, v: Node, dst: Node)
    requires Valid(net) && HopsRouted(net, t)
    ensures HopsRouted(net, Touch(t, v, dst))
  {
    hide Valid, HopsIn, Touch, NextHops;
    forall w: Node, d: Node ensures HopsIn(Touch(t, v, dst), w, d) == HopsIn(t, w, d) {
      TouchSame(t, v, dst, w, d);
    }
  }

  // The number of hops still ahead of a flow.
  ghost function Remaining(net: Net, dst: Node, v: Node): nat
    requires Query(net, dst)
  {
    if Visited(net, dst, v) then Dis(net, dst, v) else 0
  }

  // One round of the loop of TraceActualPath.
  lemma WalkRound(net: Net, t: HopTable, current: Node, dst: Node, h: Hash)
    requires Query(net, dst) && HopsRouted(net, t) && current != dst
    ensures var hops := HopsIn(t, current, dst);
      && (hops == [] ==> Walk(net, current, dst, h) == [])
      && (hops != [] ==> (var next := hops[h(current) % |hops|];
            && Walk(net, current, dst, h) == [(current, PortOf(net, current, next))] + Walk(net, next, dst, h)
            && Remaining(net, dst, next) < Remaining(net, dst, current)))
  {
    hide Valid, Route, HopsIn;
    var hops := HopsIn(t, current, dst);
    assert hops == NextHops(net, current, dst);
    if hops != [] {
      assert Step(net, current, dst, h) == hops[h(current) % |hops|];
    }
  }

  lemma WalkOn(path: seq<(Node, nat)>, x: (Node, nat), rest: seq<(Node, nat)>)
    ensures path + ([x] + rest) == (path + [x]) + rest
  {
  }

  lemma WalkEnd(net: Net, src: Node, dst: Node, h: Hash)
    requires Query(net, dst)
    ensures Walk(net, dst, dst, h) == [] && Traced(net, src, dst, h) == Walk(net, src, dst, h) + [(dst, 0)]
  {
  }

  // The pairs executeFlow writes: all but the source's and the destination's.
  function Inner<T>(path: seq<T>): seq<T> {
    if |path| < 2 then [] else path[1..|path| - 1]
  }
}
