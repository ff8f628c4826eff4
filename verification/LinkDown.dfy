/** Taking links down: the graph after any sequence of TakeDownLink calls. */
module LinkDown {
  import opened Network
  import opened Bfs
  import opened Routes
  import opened Trace

  function SetUp(net: Net, a: Node, b: Node, iface: Interface): Net
    requires a < |net.nbr2if|
  {
    var row: map<Node, Interface> := net.nbr2if[a][b := iface];
    net.(nbr2if := net.nbr2if[a := row])
  }

  // What TakeDownLink(a, b) does to nbr2if.  Looking up a missing entry inserts a default one, which is down.
  function TakeDown(net: Net, a: Node, b: Node): Net
    requires a < |net.nbr2if| && b < |net.nbr2if| && (Up(net, a, b) ==> Up(net, b, a))
  {
    if Up(net, a, b) then
      var once := SetUp(net, b, a, net.nbr2if[b][a].(up := false));
      SetUp(once, a, b, once.nbr2if[a][b].(up := false))
    else if b in net.nbr2if[a] then net
    else SetUp(net, a, b, Interface(0, false, 0, 0))
  }

  // Two graphs with the same nodes, the same order and the same up links.
  ghost predicate SameUp(m: Net, n: Net) {
    && m.kind == n.kind && m.pointerOrder == n.pointerOrder && m.rank == n.rank && m.payload == n.payload
    && (forall u: Node, v: Node :: Up(m, u, v) <==> Up(n, u, v))
    && (forall u: Node, v: Node :: Up(m, u, v) ==> m.nbr2if[u][v] == n.nbr2if[u][v])
  }

  // ---- Routes depend on the up links only ----

  lemma SameLink(m: Net, n: Net, u: Node, v: Node)
    requires SameUp(m, n)
    ensures m.kind == n.kind && m.pointerOrder == n.pointerOrder && m.payload == n.payload
    ensures Up(m, u, v) <==> Up(n, u, v)
    ensures Up(m, u, v) ==> m.nbr2if[u][v] == n.nbr2if[u][v]
  {
  }

  lemma RelaxSame(m: Net, n: Net, st: Search, now: Node, next: Node)
    requires Valid(m) && Valid(n) && SameUp(m, n) && now in st.labels && next < |m.kind|
    requires Up(m, now, next) ==> m.nbr2if[now][next].bw > 0
    requires next < |n.kind| && (Up(n, now, next) ==> n.nbr2if[now][next].bw > 0)
    ensures Relax(m, st, now, next) == Relax(n, st, now, next)
  {
    hide Valid, SameUp, Up, TxTime;
    SameLink(m, n, now, next);
  }

  lemma {:induction false} ScanSame(m: Net, n: Net, st: Search, now: Node, k: nat)
    requires Valid(m) && Valid(n) && SameUp(m, n) && now in st.labels && k <= |m.pointerOrder|
    ensures k <= |n.pointerOrder| && Scan(m, st, now, k) == Scan(n, st, now, k)
  {
    hide *;
    ScanNone(m, st, now);
    ScanNone(n, st, now);
    SameLink(m, n, now, now);
    if k > 0 {
      ScanSame(m, n, st, now, k - 1);
      NextKey(m, st, now, k - 1);
      NextKey(n, st, now, k - 1);
      RelaxSame(m, n, Scan(m, st, now, k - 1), now, m.pointerOrder[k - 1]);
    }
  }

  lemma LoopNext(net: Net, host: Node, st: Search, i: nat)
    requires Valid(net) && Inv(net, host, st, i)
    ensures i <= |net.kind|
    ensures i >= |st.q| ==> Loop(net, host, st, i) == st
    ensures i < |st.q| ==> i < |net.kind| && st.q[i] in st.labels && Inv(net, host, Expand(net, st, i), i + 1)
    ensures i < |st.q| ==> Expand(net, st, i) == Scan(net, st, st.q[i], |net.pointerOrder|)
    ensures i < |st.q| ==> Loop(net, host, st, i) == Loop(net, host, Expand(net, st, i), i + 1)
  {
    QueueBound(net, host, st);
    if i < |st.q| { InvStep(net, host, st, i); }
  }

  lemma {:induction false} LoopSame(m: Net, n: Net, host: Node, st: Search, i: nat)
    requires Valid(m) && Valid(n) && SameUp(m, n) && Inv(m, host, st, i) && Inv(n, host, st, i)
    ensures Loop(m, host, st, i) == Loop(n, host, st, i)
    decreases |m.kind| - i
  {
    hide *;
    LoopNext(m, host, st, i);
    LoopNext(n, host, st, i);
    if i < |st.q| {
      ScanSame(m, n, st, st.q[i], |m.pointerOrder|);
      SameLink(m, n, host, host);
      LoopSame(m, n, host, Expand(m, st, i), i + 1);
    }
  }

  lemma RouteSame(m: Net, n: Net, host: Node)
    requires Valid(m) && Valid(n) && SameUp(m, n) && host < |m.kind|
    ensures Route(m, host) == Route(n, host)
  {
    InvStart(m, host);
    InvStart(n, host);
    LoopSame(m, n, host, Start(host), 0);
  }

  // ---- One link ----

  ghost predicate Between(d: (Node, Node), u: Node, v: Node) {
    d == (u, v) || d == (v, u)
  }

  lemma TakeDownEffect(net: Net, a: Node, b: Node)
    requires Valid(net) && a < |net.kind| && b < |net.kind|
    ensures var net' := TakeDown(net, a, b);
      && net'.kind == net.kind && net'.pointerOrder == net.pointerOrder && net'.rank == net.rank
      && net'.payload == net.payload && |net'.nbr2if| == |net.nbr2if|
      && (forall u: Node, v: Node :: Up(net', u, v) <==> Up(net, u, v) && !Between((a, b), u, v))
      && (forall u: Node, v: Node :: Up(net', u, v) ==> net'.nbr2if[u][v] == net.nbr2if[u][v])
  {
  }

  lemma TakeDownValid(net: Net, a: Node, b: Node)
    requires Valid(net) && a < |net.kind| && b < |net.kind|
    ensures Valid(TakeDown(net, a, b))
  {
    TakeDownEffect(net, a, b);
  }

  // ---- Any sequence of links ----

  ghost predicate NodesExist(net: Net, downs: seq<(Node, Node)>) {
    forall i :: 0 <= i < |downs| ==> downs[i].0 < |net.kind| && downs[i].1 < |net.kind|
  }

  ghost predicate Downed(downs: seq<(Node, Node)>, u: Node, v: Node) {
    (u, v) in downs || (v, u) in downs
  }

  ghost function TakeDownAll(net: Net, downs: seq<(Node, Node)>): (net': Net)
    requires Valid(net) && NodesExist(net, downs)
    ensures Valid(net') && net'.kind == net.kind
  {
    if downs == [] then net else
      var k := |downs| - 1;
      var before := TakeDownAll(net, downs[..k]);
      TakeDownEffect(before, downs[k].0, downs[k].1);
      TakeDownValid(before, downs[k].0, downs[k].1);
      TakeDown(before, downs[k].0, downs[k].1)
  }

  lemma DownsNone(net: Net, downs: seq<(Node, Node)>)
    requires Valid(net)
    ensures NodesExist(net, downs[..0]) && TakeDownAll(net, downs[..0]) == net
  {
  }

  // One more link of a sequence.
  lemma DownsNext(net: Net, downs: seq<(Node, Node)>, i: nat)
    requires Valid(net) && NodesExist(net, downs) && i < |downs|
    ensures NodesExist(net, downs[..i]) && NodesExist(net, downs[..i + 1])
    ensures var before := TakeDownAll(net, downs[..i]);
      && downs[i].0 < |before.kind| && downs[i].1 < |before.kind|
      && downs[i].0 < |before.nbr2if| && downs[i].1 < |before.nbr2if|
      && (Up(before, downs[i].0, downs[i].1) ==> Up(before, downs[i].1, downs[i].0))
      && TakeDownAll(net, downs[..i + 1]) == TakeDown(before, downs[i].0, downs[i].1)
  {
    var more := downs[..i + 1];
    assert more[..|more| - 1] == downs[..i] && more[|more| - 1] == downs[i];
    hide TakeDown;
  }

  // The same graph with the links of downs deleted from nbr2if, instead of marked down one by one.
  ghost function Without(net: Net, downs: seq<(Node, Node)>): (net': Net)
    requires Valid(net)
    ensures Valid(net')
    ensures forall u: Node, v: Node :: Up(net', u, v) <==> Up(net, u, v) && !Downed(downs, u, v)
  {
    net.(nbr2if := seq(|net.nbr2if|, u requires 0 <= u < |net.nbr2if| =>
      map v | v in net.nbr2if[u] && !Downed(downs, u, v) :: net.nbr2if[u][v]))
  }

  lemma {:induction false} TakeDownAllIsWithout(net: Net, downs: seq<(Node, Node)>)
    requires Valid(net) && NodesExist(net, downs)
    ensures SameUp(TakeDownAll(net, downs), Without(net, downs))
  {
    hide TakeDown, Valid;
    if downs != [] {
      var k := |downs| - 1;
      TakeDownAllIsWithout(net, downs[..k]);
      TakeDownEffect(TakeDownAll(net, downs[..k]), downs[k].0, downs[k].1);
      forall u: Node, v: Node ensures Downed(downs, u, v) <==> Downed(downs[..k], u, v) || Between(downs[k], u, v) {
        assert downs == downs[..k] + [downs[k]];
      }
    }
  }

  // After any sequence of downed links, the next hops are those of the graph without these links.
  lemma NextHopsAfterDowns(net: Net, downs: seq<(Node, Node)>, v: Node, host: Node)
    requires Valid(net) && NodesExist(net, downs) && host < |net.kind|
    ensures NextHops(TakeDownAll(net, downs), v, host) == NextHops(Without(net, downs), v, host)
    ensures forall u :: u in NextHops(TakeDownAll(net, downs), v, host) ==> Up(net, v, u) && !Downed(downs, v, u)
  {
    TakeDownAllIsWithout(net, downs);
    RouteSame(TakeDownAll(net, downs), Without(net, downs), host);
    HopsAreNearer(TakeDownAll(net, downs), host, v);
  }

  lemma TracesOnSame(m: Net, n: Net, src: Node, dst: Node, hash: Hash)
    requires SameUp(m, n) && Query(m, dst) && m.kind[dst].Host? && Reachable(n, src, dst)
    ensures var t := Traced(m, src, dst, hash);
      && IsShortest(n, NodesOf(t), src, dst) && NoDup(NodesOf(t))
      && forall i :: 0 <= i < |t| - 1 ==> Up(n, t[i].0, t[i + 1].0)
  {
    hide *;
    SameShortest(m, n, src, dst);
    DistanceIsShortest(m, dst, src);
    TraceLoopFree(m, src, dst, hash);
    var p := NodesOf(Traced(m, src, dst, hash));
    TracesAreShortestPaths(m, src, dst, p);
    ShortestLinks(n, p, src, dst);
    assert forall i :: 0 <= i < |p| - 1 ==> Up(n, p[i], p[i + 1]);
  }

  // Forwarding after any sequence of downed links: loop-free, and over links that were never taken down.
  lemma TracesAfterDowns(net: Net, downs: seq<(Node, Node)>, src: Node, dst: Node, hash: Hash)
    requires Valid(net) && NodesExist(net, downs) && dst < |net.kind| && net.kind[dst].Host?
    requires Reachable(Without(net, downs), src, dst)
    ensures var t := Traced(TakeDownAll(net, downs), src, dst, hash);
      && IsShortest(Without(net, downs), NodesOf(t), src, dst) && NoDup(NodesOf(t))
      && forall i :: 0 <= i < |t| - 1 ==> Up(net, t[i].0, t[i + 1].0) && !Downed(downs, t[i].0, t[i + 1].0)
  {
    var m, n := TakeDownAll(net, downs), Without(net, downs);
    TakeDownAllIsWithout(net, downs);
    hide Valid, TakeDownAll, Without, SameUp, Reachable, IsShortest, NoDup, Traced, Up, Downed;
    TracesOnSame(m, n, src, dst, hash);
  }

  lemma ShortestLinks(net: Net, p: seq<Node>, src: Node, dst: Node)
    requires IsShortest(net, p, src, dst)
    ensures forall i :: 0 <= i < |p| - 1 ==> Up(net, p[i], p[i + 1])
  {
  }

  lemma SameShortest(m: Net, n: Net, src: Node, dst: Node)
    requires SameUp(m, n)
    ensures Reachable(m, src, dst) <==> Reachable(n, src, dst)
    ensures forall p :: IsShortest(m, p, src, dst) <==> IsShortest(n, p, src, dst)
  {
    SamePaths(m, n, src, dst);
    SamePaths(n, m, src, dst);
    hide IsPath, SameUp;
    if Reachable(m, src, dst) {
      var p :| IsPath(m, p, src, dst);
      assert IsPath(n, p, src, dst);
    }
    if Reachable(n, src, dst) {
      var p :| IsPath(n, p, src, dst);
      assert IsPath(m, p, src, dst);
    }
  }

  lemma SamePaths(m: Net, n: Net, src: Node, dst: Node)
    requires SameUp(m, n)
    ensures forall p :: IsPath(m, p, src, dst) ==> IsPath(n, p, src, dst)
  {
    forall p | IsPath(m, p, src, dst) ensures IsPath(n, p, src, dst) {
      forall i | 0 <= i < |p| - 1 ensures Up(n, p[i], p[i + 1]) {
        assert Up(m, p[i], p[i + 1]);
      }
    }
  }
}
