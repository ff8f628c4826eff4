/** The graph that main builds in nbr2if, and what a forwarding path in it is. */
module Network {
  type Node = nat
  type Word = w: nat | w < 0x1_0000_0000

  const U64: nat := 0x1_0000_0000_0000_0000

  datatype Kind = Host | Switch

  datatype Interface = Interface(idx: nat, up: bool, delay: nat, bw: nat)

  // nbr2if[u][v] is the interface of u towards v.  The C++ maps are keyed by node pointers, so loops
  // over them follow the order of the addresses, which is arbitrary but fixed: pointerOrder lists the
  // nodes in that order and rank is its inverse.
  datatype Net = Net(kind: seq<Kind>, pointerOrder: seq<Node>, rank: seq<nat>, nbr2if: seq<map<Node, Interface>>,
                     payload: Word)

  ghost predicate NoDup<T(!new)>(s: seq<T>) {
    forall i, j :: 0 <= i < j < |s| ==> s[i] != s[j]
  }

  predicate Up(net: Net, u: Node, v: Node) {
    u < |net.nbr2if| && v in net.nbr2if[u] && net.nbr2if[u][v].up
  }

  ghost predicate Valid(net: Net) {
    && |net.nbr2if| == |net.kind| <= 0x1_0000_0000
    && |net.pointerOrder| == |net.rank| == |net.kind|
    && (forall v :: 0 <= v < |net.kind| ==> net.rank[v] < |net.kind| && net.pointerOrder[net.rank[v]] == v)
    && (forall k :: 0 <= k < |net.kind| ==> net.pointerOrder[k] < |net.kind| && net.rank[net.pointerOrder[k]] == k)
    && (forall u: Node, v: Node :: Up(net, u, v) ==>
          && v < |net.kind|
          && Up(net, v, u)
          && 0 < net.nbr2if[u][v].bw < U64
          && net.nbr2if[u][v].delay < U64)
  }

  // The interfaces of a node are numbered from 1 on, and distinctly.
  ghost predicate Numbered(net: Net) {
    forall u: Node, v: Node, w: Node :: Up(net, u, v) && Up(net, u, w) ==>
      net.nbr2if[u][v].idx > 0 && (v != w ==> net.nbr2if[u][v].idx != net.nbr2if[u][w].idx)
  }

  // A path over up links on which only the two end nodes may be hosts.
  ghost predicate IsPath(net: Net, p: seq<Node>, src: Node, dst: Node) {
    && |p| > 0 && p[0] == src && p[|p| - 1] == dst
    && (forall i :: 0 <= i < |p| ==> p[i] < |net.kind|)
    && (forall i :: 0 <= i < |p| - 1 ==> Up(net, p[i], p[i + 1]))
    && (forall i :: 0 < i < |p| - 1 ==> net.kind[p[i]].Switch?)
  }

  ghost predicate IsShortest(net: Net, p: seq<Node>, src: Node, dst: Node) {
    IsPath(net, p, src, dst) && forall p' :: IsPath(net, p', src, dst) ==> |p| <= |p'|
  }

  ghost predicate Reachable(net: Net, src: Node, dst: Node) {
    exists p :: IsPath(net, p, src, dst)
  }

  lemma PathTail(net: Net, p: seq<Node>, src: Node, dst: Node)
    requires IsPath(net, p, src, dst) && |p| > 1
    ensures IsPath(net, p[1..], p[1], dst)
  {
    forall i | 0 <= i < |p[1..]| - 1 ensures Up(net, p[1..][i], p[1..][i + 1]) {
      assert Up(net, p[i + 1], p[i + 2]);
    }
  }

  lemma PathExtend(net: Net, p: seq<Node>, v: Node, u: Node, dst: Node)
    requires IsPath(net, p, u, dst) && v < |net.kind| && Up(net, v, u)
    requires |p| == 1 || net.kind[u].Switch?
    ensures IsPath(net, [v] + p, v, dst)
  {
    var e := [v] + p;
    forall i | 0 <= i < |e| - 1 ensures Up(net, e[i], e[i + 1]) {
      if i > 0 { assert Up(net, p[i - 1], p[i]); }
    }
    forall i | 0 < i < |e| - 1 ensures net.kind[e[i]].Switch? {
      if i > 1 { assert net.kind[p[i - 1]].Switch?; }
    }
  }

  // Distinct numbers below n: at most n of them.
  lemma {:induction false} NoDupBound(s: seq<nat>, n: nat)
    requires NoDup(s) && forall i :: 0 <= i < |s| ==> s[i] < n
    ensures |s| <= n
  {
    NoDupCard(s);
    BoundedCard(Elements(s), n);
  }

  lemma {:induction false} BoundedCard(s: set<nat>, n: nat)
    requires forall x :: x in s ==> x < n
    ensures |s| <= n
  {
    if n == 0 {
      assert s == {};
    } else {
      BoundedCard(s - {n - 1}, n - 1);
    }
  }

  ghost function Elements<T>(s: seq<T>): set<T> {
    set x | x in s
  }

  lemma {:induction false} NoDupCard<T(!new)>(s: seq<T>)
    requires NoDup(s)
    ensures |Elements(s)| == |s|
  {
    if s != [] {
      NoDupCard(s[1..]);
      assert Elements(s) == Elements(s[1..]) + {s[0]};
      assert s[0] !in s[1..];
    }
  }
}
