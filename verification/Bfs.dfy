/** CalculateRoute's breadth-first search, as a function of the graph. */
module Bfs {
  import opened Network

  // What the search records about a visited node: the entries of dis, delay, txDelay, bw and predecessor.
  // (The host itself has no predecessor entry; its label names the host.)
  datatype Label = Label(dis: nat, delay: nat, txDelay: nat, bw: nat, predecessor: Node)

  // The search state: its queue, the labels, and what has been appended to nextHop[.][host].
  datatype Search = Search(q: seq<Node>, labels: map<Node, Label>, hops: map<Node, seq<Node>>)

  const MAX_BW: nat := 0xffff_ffff_ffff_ffff

  function HopsAt(hops: map<Node, seq<Node>>, v: Node): seq<Node> {
    if v in hops then hops[v] else []
  }

  // Time to serialise one payload on a link, in the 64-bit arithmetic of the source.
  function TxTime(payload: Word, bw: nat): nat
    requires bw > 0
  {
    (payload * 1000000000 * 8 % U64) / bw
  }

  lemma TxTimeRaw(payload: Word, bw: nat)
    requires bw > 0
    ensures TxTime(payload, bw) == (payload * 1000000000 * 8 % U64) / bw
  {
  }

  function Start(host: Node): Search {
    Search([host], map[host := Label(0, 0, 0, MAX_BW, host)], map[])
  }

  // The label of a node first visited over the up link now -> next.
  function Onward(net: Net, l: Label, now: Node, next: Node): Label
    requires Up(net, now, next) && net.nbr2if[now][next].bw > 0
  {
    var link := net.nbr2if[now][next];
    Label(l.dis + 1, (l.delay + link.delay) % U64, (l.txDelay + TxTime(net.payload, link.bw)) % U64,
          if link.bw < l.bw then link.bw else l.bw, now)
  }

  // The loop body for one key of nbr2if[now].
  function Relax(net: Net, st: Search, now: Node, next: Node): (s: Search)
    requires now in st.labels && next < |net.kind|
    requires Up(net, now, next) ==> net.nbr2if[now][next].bw > 0
    ensures now in s.labels && st.labels.Keys <= s.labels.Keys
  {
    if !Up(net, now, next) then st else
      var s := if next in st.labels then st else
        Search(if net.kind[next].Switch? then st.q + [next] else st.q,
               st.labels[next := Onward(net, st.labels[now], now, next)],
               st.hops);
      if st.labels[now].dis + 1 == s.labels[next].dis then s.(hops := s.hops[next := HopsAt(s.hops, next) + [now]]) else s
  }

  // The inner loop over the first k keys of nbr2if[now].
  ghost function Scan(net: Net, st: Search, now: Node, k: nat): (s: Search)
    requires Valid(net) && now in st.labels && k <= |net.pointerOrder|
    ensures now in s.labels
  {
    if k == 0 then st else Relax(net, Scan(net, st, now, k - 1), now, net.pointerOrder[k - 1])
  }

  lemma ScanNone(net: Net, st: Search, now: Node)
    requires Valid(net) && now in st.labels
    ensures Scan(net, st, now, 0) == st
  {
  }

  lemma NextKey(net: Net, st: Search, now: Node, k: nat)
    requires Valid(net) && now in st.labels && k < |net.pointerOrder|
    ensures var next := net.pointerOrder[k];
      && next < |net.kind| && |net.nbr2if| == |net.kind|
      && (Up(net, now, next) ==> net.nbr2if[now][next].bw > 0)
      && Scan(net, st, now, k + 1) == Relax(net, Scan(net, st, now, k), now, next)
  {
  }

  ghost function UpNeighbours(net: Net, u: Node): (vs: set<Node>)
    ensures forall v :: v in vs <==> Up(net, u, v)
  {
    if u < |net.nbr2if| then set v | v in net.nbr2if[u] && net.nbr2if[u][v].up else {}
  }

  ghost predicate Links(net: Net, u: Node) {
    forall v: Node :: Up(net, u, v) ==> net.nbr2if[u][v].bw > 0 && v < |net.kind|
  }

  lemma ValidLinks(net: Net, u: Node)
    requires Valid(net)
    ensures Links(net, u)
  {
  }

  // The up-neighbours of u among the first k keys.
  ghost function Near(net: Net, u: Node, k: nat): set<Node> {
    set v | v in UpNeighbours(net, u) && v < |net.rank| && net.rank[v] < k
  }

  lemma NearNext(net: Net, u: Node, k: nat)
    requires Valid(net) && 0 < k <= |net.pointerOrder|
    ensures Grows(net, u, net.pointerOrder[k - 1], Near(net, u, k - 1), Near(net, u, k))
  {
  }

  lemma NearAll(net: Net, u: Node)
    requires Valid(net)
    ensures Near(net, u, |net.pointerOrder|) == UpNeighbours(net, u)
  {
  }

  // What one inner loop does, once it has seen the up-neighbours in near.  Every new one is labelled ...
  ghost predicate Labelled(net: Net, st: Search, s: Search, now: Node, near: set<Node>)
    requires now in st.labels && Links(net, now) && forall v :: v in near ==> Up(net, now, v)
  {
    && (forall v :: v in s.labels <==> v in st.labels || v in near)
    && (forall v :: v in st.labels ==> s.labels[v] == st.labels[v])
    && (forall v :: v in near && v !in st.labels ==> s.labels[v] == Onward(net, st.labels[now], now, v))
  }

  // ... now is appended to the hops of every one at distance d ...
  ghost predicate Appended(st: Search, s: Search, now: Node, d: nat, near: set<Node>) {
    forall v: Node :: HopsAt(s.hops, v) ==
      if v in near && v in s.labels && s.labels[v].dis == d then HopsAt(st.hops, v) + [now] else HopsAt(st.hops, v)
  }

  // ... and the new switches are enqueued, once each.
  ghost predicate Enqueued(net: Net, st: Search, s: Search) {
    && |st.q| <= |s.q| && s.q == st.q + s.q[|st.q|..]
    && NoDup(s.q[|st.q|..])
    && forall v: Node :: v in s.q[|st.q|..] <==> v in s.labels && v !in st.labels && v < |net.kind| && net.kind[v].Switch?
  }

  // near' is near with next added, if the link to next is up.
  ghost predicate Grows(net: Net, now: Node, next: Node, near: set<Node>, near': set<Node>) {
    && next !in near
    && forall v: Node :: v in near' <==> v in near || (v == next && Up(net, now, next))
  }

  lemma RelaxLabels(net: Net, st: Search, s: Search, r: Search, now: Node, next: Node, near: set<Node>, near': set<Node>)
    requires now in st.labels && now in s.labels && next < |net.kind| && Links(net, now) && Grows(net, now, next, near, near')
    requires (forall v :: v in near ==> Up(net, now, v)) && Labelled(net, st, s, now, near)
    requires r == Relax(net, s, now, next)
    ensures (forall v :: v in near' ==> Up(net, now, v)) && Labelled(net, st, r, now, near')
  {
  }

  lemma RelaxHops(net: Net, st: Search, s: Search, r: Search, now: Node, next: Node, near: set<Node>, near': set<Node>)
    requires now in st.labels && now in s.labels && s.labels[now] == st.labels[now]
    requires next < |net.kind| && Links(net, now) && Grows(net, now, next, near, near')
    requires (forall v :: v in near ==> v in s.labels) && Appended(st, s, now, st.labels[now].dis + 1, near)
    requires r == Relax(net, s, now, next)
    ensures Appended(st, r, now, st.labels[now].dis + 1, near')
  {
  }

  // The queue and the visited nodes after one key.
  lemma RelaxVisits(net: Net, s: Search, now: Node, next: Node)
    requires now in s.labels && next < |net.kind| && (Up(net, now, next) ==> net.nbr2if[now][next].bw > 0)
    ensures var r := Relax(net, s, now, next);
      && r.labels.Keys == (if Up(net, now, next) then s.labels.Keys + {next} else s.labels.Keys)
      && r.q == (if Up(net, now, next) && next !in s.labels && net.kind[next].Switch? then s.q + [next] else s.q)
  {
    hide Up, TxTime;
  }

  lemma RelaxQueue(net: Net, st: Search, s: Search, now: Node, next: Node)
    requires now in s.labels && next < |net.kind| && (Up(net, now, next) ==> net.nbr2if[now][next].bw > 0)
    requires st.labels.Keys <= s.labels.Keys && Enqueued(net, st, s)
    ensures Enqueued(net, st, Relax(net, s, now, next))
  {
    hide Relax, Up;
    var r := Relax(net, s, now, next);
    RelaxVisits(net, s, now, next);
    assert forall v :: v in r.labels <==> v in r.labels.Keys;
    if r.q != s.q {
      DropAppend(s.q, next, |st.q|);
      assert r.q == st.q + r.q[|st.q|..];
    }
  }

  lemma DropAppend(q: seq<Node>, v: Node, m: nat)
    requires m <= |q|
    ensures (q + [v])[m..] == q[m..] + [v]
  {
  }

  // Before the first key, nothing has been done.
  lemma NothingDone(net: Net, st: Search, now: Node)
    requires now in st.labels && Links(net, now)
    ensures (forall v :: v in Near(net, now, 0) ==> Up(net, now, v)) && Labelled(net, st, st, now, Near(net, now, 0))
    ensures Appended(st, st, now, st.labels[now].dis + 1, Near(net, now, 0))
    ensures Enqueued(net, st, st)
  {
  }

  lemma {:induction false} ScanLabels(net: Net, st: Search, now: Node, k: nat)
    requires Valid(net) && now in st.labels && k <= |net.pointerOrder|
    ensures Links(net, now) && (forall v :: v in Near(net, now, k) ==> Up(net, now, v))
    ensures Labelled(net, st, Scan(net, st, now, k), now, Near(net, now, k))
  {
    hide *;
    ValidLinks(net, now);
    if k == 0 {
      ScanNone(net, st, now);
      NothingDone(net, st, now);
    } else {
      ScanLabels(net, st, now, k - 1);
      NextKey(net, st, now, k - 1);
      NearNext(net, now, k);
      RelaxLabels(net, st, Scan(net, st, now, k - 1), Scan(net, st, now, k), now, net.pointerOrder[k - 1],
                  Near(net, now, k - 1), Near(net, now, k));
    }
  }

  lemma ScanLabelsAt(net: Net, st: Search, now: Node, k: nat)
    requires Valid(net) && now in st.labels && k <= |net.pointerOrder|
    ensures Scan(net, st, now, k).labels[now] == st.labels[now]
    ensures forall v :: v in Near(net, now, k) ==> v in Scan(net, st, now, k).labels
    ensures st.labels.Keys <= Scan(net, st, now, k).labels.Keys
  {
    ScanLabels(net, st, now, k);
    hide Valid, Links, Near, Scan;
  }

  lemma {:induction false} ScanHops(net: Net, st: Search, now: Node, k: nat)
    requires Valid(net) && now in st.labels && k <= |net.pointerOrder|
    ensures Appended(st, Scan(net, st, now, k), now, st.labels[now].dis + 1, Near(net, now, k))
  {
    hide *;
    ValidLinks(net, now);
    if k == 0 {
      ScanNone(net, st, now);
      NothingDone(net, st, now);
    } else {
      ScanHops(net, st, now, k - 1);
      ScanLabelsAt(net, st, now, k - 1);
      NextKey(net, st, now, k - 1);
      NearNext(net, now, k);
      RelaxHops(net, st, Scan(net, st, now, k - 1), Scan(net, st, now, k), now, net.pointerOrder[k - 1],
                Near(net, now, k - 1), Near(net, now, k));
    }
  }

  lemma {:induction false} ScanQueue(net: Net, st: Search, now: Node, k: nat)
    requires Valid(net) && now in st.labels && k <= |net.pointerOrder|
    ensures Enqueued(net, st, Scan(net, st, now, k))
  {
    hide *;
    ValidLinks(net, now);
    if k == 0 {
      ScanNone(net, st, now);
      NothingDone(net, st, now);
    } else {
      ScanQueue(net, st, now, k - 1);
      ScanLabelsAt(net, st, now, k - 1);
      NextKey(net, st, now, k - 1);
      RelaxQueue(net, st, Scan(net, st, now, k - 1), now, net.pointerOrder[k - 1]);
    }
  }

  // The same about queue positions.
  ghost predicate Extends(net: Net, st: Search, s: Search) {
    && |st.q| <= |s.q| && NoDup(s.q)
    && (forall j :: 0 <= j < |st.q| ==> s.q[j] == st.q[j])
    && (forall j :: |st.q| <= j < |s.q| ==>
          s.q[j] in s.labels && s.q[j] !in st.labels && s.q[j] < |net.kind| && net.kind[s.q[j]].Switch?)
  }

  lemma EnqueuedAt(net: Net, st: Search, s: Search, j: nat)
    requires Enqueued(net, st, s) && j < |s.q|
    ensures j < |st.q| ==> s.q[j] == st.q[j]
    ensures j >= |st.q| ==> s.q[j] == s.q[|st.q|..][j - |st.q|]
    ensures j >= |st.q| ==> s.q[j] in s.labels && s.q[j] !in st.labels && s.q[j] < |net.kind| && net.kind[s.q[j]].Switch?
  {
    if j >= |st.q| {
      assert s.q[j] in s.q[|st.q|..];
    } else {
      assert s.q[j] == (st.q + s.q[|st.q|..])[j];
    }
  }

  lemma EnqueuedExtends(net: Net, st: Search, s: Search)
    requires Enqueued(net, st, s) && NoDup(st.q) && forall j :: 0 <= j < |st.q| ==> st.q[j] in st.labels
    ensures Extends(net, st, s)
  {
    forall j | 0 <= j < |s.q|
      ensures j < |st.q| ==> s.q[j] == st.q[j]
      ensures j >= |st.q| ==> s.q[j] in s.labels && s.q[j] !in st.labels && s.q[j] < |net.kind| && net.kind[s.q[j]].Switch?
    {
      EnqueuedAt(net, st, s, j);
    }
    forall a, b | 0 <= a < b < |s.q| ensures s.q[a] != s.q[b] {
      EnqueuedAt(net, st, s, a);
      EnqueuedAt(net, st, s, b);
    }
  }

  // ---- Invariant of the outer loop, before queue entry i is expanded ----

  ghost predicate Rooted(net: Net, host: Node, st: Search) {
    && host in st.labels && st.labels[host] == Label(0, 0, 0, MAX_BW, host)
    && forall v :: v in st.labels ==> v < |net.kind|
  }

  ghost predicate Queued(net: Net, host: Node, st: Search) {
    && |st.q| > 0 && st.q[0] == host && NoDup(st.q)
    && (forall j :: 0 <= j < |st.q| ==> st.q[j] in st.labels && st.q[j] < |net.kind|)
    && (forall j :: 0 < j < |st.q| ==> net.kind[st.q[j]].Switch?)
  }

  ghost predicate SwitchesQueued(net: Net, st: Search) {
    forall v :: v in st.labels && v < |net.kind| && net.kind[v].Switch? ==> v in st.q
  }

  // Queue entries are in order of distance, and nothing is labelled beyond the next level.
  ghost predicate Levels(st: Search, i: nat)
    requires forall j :: 0 <= j < |st.q| ==> st.q[j] in st.labels
  {
    && i <= |st.q|
    && (forall a, b :: 0 <= a <= b < |st.q| ==> st.labels[st.q[a]].dis <= st.labels[st.q[b]].dis)
    && (i < |st.q| ==> forall v :: v in st.labels ==> st.labels[v].dis <= st.labels[st.q[i]].dis + 1)
  }

  ghost predicate Closed(net: Net, st: Search, i: nat)
    requires i <= |st.q| && forall j :: 0 <= j < |st.q| ==> st.q[j] in st.labels
  {
    forall a, v :: 0 <= a < i && Up(net, st.q[a], v) ==>
      v in st.labels && st.labels[v].dis <= st.labels[st.q[a]].dis + 1
  }

  // Every node but the host was labelled over an up link from the host or a switch.
  ghost predicate Tree(net: Net, host: Node, st: Search) {
    forall v :: v in st.labels && v != host ==> TreeEdge(net, host, st, st.labels[v].predecessor, v)
  }

  ghost predicate TreeEdge(net: Net, host: Node, st: Search, u: Node, v: Node)
    requires v in st.labels
  {
    && u in st.labels && u < |net.kind| && (u == host || net.kind[u].Switch?)
    && Up(net, u, v) && net.nbr2if[u][v].bw > 0
    && st.labels[v] == Onward(net, st.labels[u], u, v)
  }

  // u is one hop nearer to the host than its up-neighbour v.
  ghost predicate Nearer(net: Net, labels: map<Node, Label>, u: Node, v: Node) {
    u in labels && v in labels && Up(net, u, v) && labels[u].dis + 1 == labels[v].dis
  }

  // The members of us that are nearer than v, in their order.
  ghost function Parents(net: Net, labels: map<Node, Label>, us: seq<Node>, v: Node): seq<Node> {
    if us == [] then [] else
      var rest := Parents(net, labels, us[..|us| - 1], v);
      if Nearer(net, labels, us[|us| - 1], v) then rest + [us[|us| - 1]] else rest
  }

  ghost predicate HopsExact(net: Net, st: Search, i: nat)
    requires i <= |st.q|
  {
    forall v: Node :: HopsAt(st.hops, v) == Parents(net, st.labels, st.q[..i], v)
  }

  ghost predicate Inv(net: Net, host: Node, st: Search, i: nat) {
    && Rooted(net, host, st) && Queued(net, host, st) && SwitchesQueued(net, st)
    && Levels(st, i) && Closed(net, st, i) && Tree(net, host, st) && HopsExact(net, st, i)
  }

  // One expansion of queue entry i.
  ghost function Expand(net: Net, st: Search, i: nat): Search
    requires Valid(net) && i < |st.q| && st.q[i] in st.labels
  {
    Scan(net, st, st.q[i], |net.pointerOrder|)
  }

  lemma ExpandRooted(net: Net, host: Node, st: Search, s: Search, now: Node)
    requires now in st.labels && Links(net, now) && Labelled(net, st, s, now, UpNeighbours(net, now))
    requires Rooted(net, host, st)
    ensures Rooted(net, host, s)
  {
  }

  lemma ExpandQueued(net: Net, host: Node, st: Search, s: Search, now: Node)
    requires now in st.labels && Links(net, now) && Labelled(net, st, s, now, UpNeighbours(net, now))
    requires Queued(net, host, st) && Extends(net, st, s)
    ensures Queued(net, host, s)
  {
  }

  lemma ExpandSwitches(net: Net, st: Search, s: Search)
    requires Enqueued(net, st, s) && SwitchesQueued(net, st)
    ensures SwitchesQueued(net, s)
  {
    forall v | v in s.labels && v < |net.kind| && net.kind[v].Switch? ensures v in s.q {
      assert v in st.q || v in s.q[|st.q|..];
    }
  }

  lemma ExpandLevels(net: Net, host: Node, st: Search, s: Search, i: nat)
    requires i < |st.q| && Queued(net, host, st) && Queued(net, host, s) && Links(net, st.q[i])
    requires Labelled(net, st, s, st.q[i], UpNeighbours(net, st.q[i])) && Extends(net, st, s)
    requires Levels(st, i)
    ensures Levels(s, i + 1)
  {
    var d := st.labels[st.q[i]].dis;
    forall j | 0 <= j < |s.q|
      ensures d <= s.labels[s.q[j]].dis || j < i
      ensures j < |st.q| ==> s.labels[s.q[j]] == st.labels[st.q[j]]
      ensures j >= |st.q| ==> s.labels[s.q[j]].dis == d + 1
    {
    }
  }

  lemma ExpandClosed(net: Net, host: Node, st: Search, s: Search, i: nat)
    requires i < |st.q| && Queued(net, host, st) && Queued(net, host, s) && Links(net, st.q[i])
    requires Labelled(net, st, s, st.q[i], UpNeighbours(net, st.q[i])) && Extends(net, st, s)
    requires Levels(st, i) && Closed(net, st, i)
    ensures Closed(net, s, i + 1)
  {
  }

  lemma ExpandTree(net: Net, host: Node, st: Search, s: Search, now: Node)
    requires now in st.labels && Links(net, now) && Labelled(net, st, s, now, UpNeighbours(net, now))
    requires now < |net.kind| && (now == host || net.kind[now].Switch?) && Tree(net, host, st)
    ensures Tree(net, host, s)
  {
    forall v | v in s.labels && v != host ensures TreeEdge(net, host, s, s.labels[v].predecessor, v) {
      if v in st.labels {
        assert TreeEdge(net, host, st, st.labels[v].predecessor, v);
      }
    }
  }

  lemma {:induction false} ParentsStable(net: Net, l: map<Node, Label>, l': map<Node, Label>, us: seq<Node>, v: Node)
    requires forall j :: 0 <= j < |us| ==> (Nearer(net, l, us[j], v) <==> Nearer(net, l', us[j], v))
    ensures Parents(net, l, us, v) == Parents(net, l', us, v)
  {
    if us != [] {
      ParentsStable(net, l, l', us[..|us| - 1], v);
    }
  }

  lemma NearerStable(net: Net, host: Node, st: Search, s: Search, i: nat, v: Node, j: nat)
    requires j < i < |st.q| && Queued(net, host, st) && Links(net, st.q[i])
    requires Labelled(net, st, s, st.q[i], UpNeighbours(net, st.q[i])) && Closed(net, st, i)
    ensures Nearer(net, st.labels, st.q[j], v) <==> Nearer(net, s.labels, st.q[j], v)
  {
    assert st.q[j] in st.labels;
  }

  lemma HopAdded(net: Net, st: Search, s: Search, now: Node, v: Node)
    requires now in st.labels && Links(net, now) && Labelled(net, st, s, now, UpNeighbours(net, now))
    requires Appended(st, s, now, st.labels[now].dis + 1, UpNeighbours(net, now))
    ensures HopsAt(s.hops, v) == if Nearer(net, s.labels, now, v) then HopsAt(st.hops, v) + [now] else HopsAt(st.hops, v)
  {
  }

  lemma ParentsNext(net: Net, labels: map<Node, Label>, q: seq<Node>, i: nat, v: Node)
    requires i < |q|
    ensures var rest := Parents(net, labels, q[..i], v);
      Parents(net, labels, q[..i + 1], v) == if Nearer(net, labels, q[i], v) then rest + [q[i]] else rest
  {
    hide Nearer;
    var us := q[..i + 1];
    assert us[..|us| - 1] == q[..i];
  }

  lemma ExpandHops(net: Net, host: Node, st: Search, s: Search, i: nat, v: Node)
    requires i < |st.q| && Queued(net, host, st) && Links(net, st.q[i])
    requires Labelled(net, st, s, st.q[i], UpNeighbours(net, st.q[i])) && Extends(net, st, s)
    requires Appended(st, s, st.q[i], st.labels[st.q[i]].dis + 1, UpNeighbours(net, st.q[i]))
    requires Closed(net, st, i) && HopsAt(st.hops, v) == Parents(net, st.labels, st.q[..i], v)
    ensures HopsAt(s.hops, v) == Parents(net, s.labels, s.q[..i + 1], v)
  {
    assert s.q[..i] == st.q[..i] && s.q[i] == st.q[i] && i < |s.q|;
    hide Nearer, Labelled, Appended, Closed, Extends, HopsAt, Links, UpNeighbours;
    forall j | 0 <= j < i ensures Nearer(net, st.labels, st.q[j], v) <==> Nearer(net, s.labels, st.q[j], v) {
      NearerStable(net, host, st, s, i, v, j);
    }
    ParentsStable(net, st.labels, s.labels, st.q[..i], v);
    HopAdded(net, st, s, st.q[i], v);
    ParentsNext(net, s.labels, s.q, i, v);
  }

  // What one expansion of now does: the labels, the appended hops and the queue.
  ghost predicate Expanded(net: Net, st: Search, s: Search, now: Node) {
    && now in st.labels && Links(net, now) && Labelled(net, st, s, now, UpNeighbours(net, now))
    && Appended(st, s, now, st.labels[now].dis + 1, UpNeighbours(net, now)) && Enqueued(net, st, s)
  }

  lemma ExpandedIs(net: Net, st: Search, s: Search, now: Node)
    requires now in st.labels && Links(net, now) && Labelled(net, st, s, now, UpNeighbours(net, now))
    requires Appended(st, s, now, st.labels[now].dis + 1, UpNeighbours(net, now)) && Enqueued(net, st, s)
    ensures Expanded(net, st, s, now)
  {
  }

  lemma ScanExpands(net: Net, st: Search, now: Node)
    requires Valid(net) && now in st.labels
    ensures Expanded(net, st, Scan(net, st, now, |net.pointerOrder|), now)
  {
    hide *;
    NearAll(net, now);
    ScanLabels(net, st, now, |net.pointerOrder|);
    ScanHops(net, st, now, |net.pointerOrder|);
    ScanQueue(net, st, now, |net.pointerOrder|);
    ExpandedIs(net, st, Scan(net, st, now, |net.pointerOrder|), now);
  }

  lemma HopsNext(net: Net, host: Node, st: Search, s: Search, i: nat)
    requires i < |st.q| && Queued(net, host, st) && Expanded(net, st, s, st.q[i]) && Extends(net, st, s)
    requires Closed(net, st, i) && HopsExact(net, st, i)
    ensures i + 1 <= |s.q| && HopsExact(net, s, i + 1)
  {
    assert i + 1 <= |s.q|;
    hide Links, Labelled, Appended, Enqueued, Closed, UpNeighbours, HopsAt, Nearer;
    forall v: Node ensures HopsAt(s.hops, v) == Parents(net, s.labels, s.q[..i + 1], v) {
      ExpandHops(net, host, st, s, i, v);
    }
  }

  lemma InvNext(net: Net, host: Node, st: Search, s: Search, i: nat)
    requires i < |st.q| && Inv(net, host, st, i) && Expanded(net, st, s, st.q[i])
    ensures Inv(net, host, s, i + 1)
  {
    var now := st.q[i];
    hide Links, Rooted, SwitchesQueued, Levels, Closed, Tree, Labelled, Appended, Enqueued, UpNeighbours, HopsExact, Extends;
    EnqueuedExtends(net, st, s);
    ExpandRooted(net, host, st, s, now);
    ExpandQueued(net, host, st, s, now);
    ExpandSwitches(net, st, s);
    ExpandLevels(net, host, st, s, i);
    ExpandClosed(net, host, st, s, i);
    ExpandTree(net, host, st, s, now);
    HopsNext(net, host, st, s, i);
  }

  lemma InvStep(net: Net, host: Node, st: Search, i: nat)
    requires Valid(net) && i < |st.q| && Inv(net, host, st, i)
    ensures Inv(net, host, Expand(net, st, i), i + 1)
  {
    assert st.q[i] in st.labels;
    hide Valid, Inv, Scan, Expanded;
    ScanExpands(net, st, st.q[i]);
    InvNext(net, host, st, Expand(net, st, i), i);
  }

  lemma InvStart(net: Net, host: Node)
    requires host < |net.kind|
    ensures Inv(net, host, Start(host), 0)
  {
  }

  lemma QueueBound(net: Net, host: Node, st: Search)
    requires Queued(net, host, st)
    ensures |st.q| <= |net.kind|
  {
    NoDupBound(st.q, |net.kind|);
  }

  // The outer loop from queue entry i on.
  ghost function Loop(net: Net, host: Node, st: Search, i: nat): Search
    requires Valid(net) && Inv(net, host, st, i)
    decreases |net.kind| - i
  {
    QueueBound(net, host, st);
    if i >= |st.q| then st else
      InvStep(net, host, st, i);
      Loop(net, host, Expand(net, st, i), i + 1)
  }

  ghost predicate Finished(net: Net, host: Node, st: Search) {
    Inv(net, host, st, |st.q|)
  }

  lemma {:induction false} LoopInv(net: Net, host: Node, st: Search, i: nat)
    requires Valid(net) && Inv(net, host, st, i)
    ensures Finished(net, host, Loop(net, host, st, i))
    decreases |net.kind| - i
  {
    QueueBound(net, host, st);
    if i >= |st.q| {
      assert i == |st.q| && Finished(net, host, st);
    } else {
      InvStep(net, host, st, i);
      LoopInv(net, host, Expand(net, st, i), i + 1);
    }
  }

  // The state in which CalculateRoute(host) leaves the search.
  ghost function Route(net: Net, host: Node): Search
    requires Valid(net) && host < |net.kind|
  {
    InvStart(net, host);
    Loop(net, host, Start(host), 0)
  }

  lemma RouteInv(net: Net, host: Node)
    requires Valid(net) && host < |net.kind|
    ensures Finished(net, host, Route(net, host))
  {
    InvStart(net, host);
    LoopInv(net, host, Start(host), 0);
  }
}
