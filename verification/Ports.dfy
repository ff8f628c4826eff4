/** Interface numbers of traces and tables, on a graph that numbers the interfaces of a node distinctly. */
module Ports {
  import opened Network
  import opened Bfs
  import opened Routes
  import opened Trace
  import opened LinkDown
  import opened Tables

  // Taking a link down leaves the interface numbers alone.
  lemma NumberedDown(net: Net, a: Node, b: Node)
    requires Valid(net) && Numbered(net) && a < |net.kind| && b < |net.kind|
    ensures Numbered(TakeDown(net, a, b))
  {
    TakeDownEffect(net, a, b);
    hide TakeDown, Valid;
  }

  // A host's table entry names each of its next hops once.
  lemma TablePortsDistinct(net: Net, v: Node, host: Node)
    requires Query(net, host) && Numbered(net)
    ensures NoDup(PortsOf(net, v, NextHops(net, v, host)))
  {
    HopsAreNearer(net, host, v);
    hide Valid, Route;
    var us := NextHops(net, v, host);
    forall i, j | 0 <= i < j < |us| ensures PortOf(net, v, us[i]) != PortOf(net, v, us[j]) {
      assert us[i] in us && us[j] in us;
      assert Up(net, v, us[i]) && Up(net, v, us[j]) && us[i] != us[j];
    }
  }

  // Both paths cross the same link in the same direction.
  ghost predicate ShareLink(s: seq<(Node, nat)>, t: seq<(Node, nat)>) {
    exists i, j :: SameHop(s, i, t, j)
  }

  ghost predicate SameHop(s: seq<(Node, nat)>, i: nat, t: seq<(Node, nat)>, j: nat) {
    i + 1 < |s| && j + 1 < |t| && s[i].0 == t[j].0 && s[i + 1].0 == t[j + 1].0
  }

  // A path as TraceActualPath returns it: hops over up links, and a final pair.
  ghost predicate IsTrace(net: Net, t: seq<(Node, nat)>, dst: Node) {
    && |t| > 0 && t[|t| - 1] == (dst, 0)
    && forall i :: 0 <= i < |t| - 1 ==> Forwards(net, t[i], t[i + 1])
  }

  lemma SamePair(net: Net, s: seq<(Node, nat)>, d: Node, i: nat, t: seq<(Node, nat)>, e: Node, j: nat)
    requires Numbered(net) && IsTrace(net, s, d) && IsTrace(net, t, e) && i < |s| && j < |t| && s[i] == t[j]
    ensures i + 1 < |s| <==> j + 1 < |t|
    ensures i + 1 < |s| ==> SameHop(s, i, t, j)
    ensures i + 1 == |s| ==> d == e
  {
    hide Up;
    if i + 1 < |s| { assert Forwards(net, s[i], s[i + 1]); }
    if j + 1 < |t| { assert Forwards(net, t[j], t[j + 1]); }
  }

  lemma SameHopPair(net: Net, s: seq<(Node, nat)>, d: Node, i: nat, t: seq<(Node, nat)>, e: Node, j: nat)
    requires IsTrace(net, s, d) && IsTrace(net, t, e) && SameHop(s, i, t, j)
    ensures s[i] == t[j]
  {
    assert Forwards(net, s[i], s[i + 1]) && Forwards(net, t[j], t[j + 1]);
  }

  lemma PairsOfTraces(net: Net, s: seq<(Node, nat)>, d: Node, t: seq<(Node, nat)>, e: Node)
    requires Numbered(net) && IsTrace(net, s, d) && IsTrace(net, t, e)
    ensures (exists x :: x in s && x in t) <==> ShareLink(s, t) || d == e
  {
    if x :| x in s && x in t {
      var i :| 0 <= i < |s| && s[i] == x;
      var j :| 0 <= j < |t| && t[j] == x;
      SamePair(net, s, d, i, t, e, j);
    }
    if ShareLink(s, t) {
      var i: nat, j: nat :| SameHop(s, i, t, j);
      SameHopPair(net, s, d, i, t, e, j);
      assert s[i] in s && s[i] in t;
    }
    if d == e { assert s[|s| - 1] in s && s[|s| - 1] in t; }
  }

  lemma TraceIsTrace(net: Net, src: Node, dst: Node, hash: Hash)
    requires Query(net, dst)
    ensures IsTrace(net, Traced(net, src, dst, hash), dst)
  {
    TracePorts(net, src, dst, hash);
    hide Walk, Valid, Route, Forwards;
  }

  /**
   * What CheckPathIntersection answers for the traces of two flows: they cross a common link in the
   * same direction, or end at the same node (whose final pair both paths hold).
   */
  lemma IntersectionIsSharedLink(net: Net, src: Node, dst: Node, hash: Hash, src': Node, dst': Node, hash': Hash)
    requires Query(net, dst) && Query(net, dst') && Numbered(net)
    ensures var s, t := Traced(net, src, dst, hash), Traced(net, src', dst', hash');
      (exists x :: x in s && x in t) <==> ShareLink(s, t) || dst == dst'
  {
    TraceIsTrace(net, src, dst, hash);
    TraceIsTrace(net, src', dst', hash');
    hide Traced, Valid, Route, IsTrace, Numbered;
    PairsOfTraces(net, Traced(net, src, dst, hash), dst, Traced(net, src', dst', hash'), dst');
  }
}
