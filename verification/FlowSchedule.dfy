/** Launching the flows of a flow file in virtual time, each from the next port of its host pair. */
module FlowSchedule {
  import opened Wrappers

  const FIRST_PORT := 10000
  const PORTS := 0x1_0000
  const WORD := 0x1_0000_0000

  // One line of the flow file; the start time is in simulator ticks.
  datatype Flow = Flow(src: nat, dst: nat, pg: nat, dport: nat, maxPacketCount: nat, start: int)

  datatype Launch = Launch(flow: Flow, time: int, port: nat)

  // ---- What is to be launched ----

  // The port table is keyed by 32-bit words.
  function Pair(f: Flow): (nat, nat) { (f.src % WORD, f.dst % WORD) }

  // The latest start time among the first `n` flows.
  function Latest(flows: seq<Flow>, n: nat): int
    requires 0 < n <= |flows|
  {
    if n == 1 || Latest(flows, n - 1) < flows[n - 1].start then flows[n - 1].start else Latest(flows, n - 1)
  }

  // How many of the first `n` flows go between this pair.
  function Uses(flows: seq<Flow>, pair: (nat, nat), n: nat): nat
    requires n <= |flows|
  {
    if n == 0 then 0 else Uses(flows, pair, n - 1) + if Pair(flows[n - 1]) == pair then 1 else 0
  }

  predicate IsHost(types: seq<nat>, id: nat) { id < |types| && types[id] == 0 }

  // Host pairs count their ports from 10000; any other pair gets a zero-initialised counter.
  function FirstPort(types: seq<nat>, pair: (nat, nat)): nat {
    if IsHost(types, pair.0) && IsHost(types, pair.1) then FIRST_PORT else 0
  }

  // The counters are 16 bits wide.
  function Port(n: nat): nat { n % PORTS }

  // The next port of a pair once the first `n` flows have been launched.
  function NextPort(types: seq<nat>, flows: seq<Flow>, pair: (nat, nat), n: nat): nat
    requires n <= |flows|
  {
    Port(FirstPort(types, pair) + Uses(flows, pair, n))
  }

  function Launches(types: seq<nat>, flows: seq<Flow>, n: nat): seq<Launch>
    requires n <= |flows|
  {
    if n == 0 then [] else
      Launches(types, flows, n - 1) +
      [Launch(flows[n - 1], Latest(flows, n), NextPort(types, flows, Pair(flows[n - 1]), n - 1))]
  }

  // ---- What that means ----

  /** Every flow is launched exactly once, in file order. */
  lemma {:induction false} LaunchedInOrder(types: seq<nat>, flows: seq<Flow>, n: nat, i: nat)
    requires i < n <= |flows|
    ensures |Launches(types, flows, n)| == n
    ensures Launches(types, flows, n)[i] ==
              Launch(flows[i], Latest(flows, i + 1), NextPort(types, flows, Pair(flows[i]), i))
  {
    if n == 1 {
      assert Launches(types, flows, 0) == [];
    } else if i < n - 1 {
      LaunchedInOrder(types, flows, n - 1, i);
    } else {
      LaunchedInOrder(types, flows, n - 1, 0);
    }
  }

  /** A flow's launch time is the least time that no flow up to it would start after, so it is never early. */
  lemma {:induction false} LatestIsMaximum(flows: seq<Flow>, n: nat)
    requires 0 < n <= |flows|
    ensures forall i :: 0 <= i < n ==> flows[i].start <= Latest(flows, n)
    ensures exists i :: 0 <= i < n && flows[i].start == Latest(flows, n)
  {
    if n > 1 { LatestIsMaximum(flows, n - 1); }
    if Latest(flows, n) == flows[n - 1].start {
      assert 0 <= n - 1 < n && flows[n - 1].start == Latest(flows, n);
    }
  }

  lemma {:induction false} UsesRises(flows: seq<Flow>, pair: (nat, nat), i: nat, j: nat)
    requires i <= j <= |flows|
    ensures Uses(flows, pair, i) <= Uses(flows, pair, j) <= Uses(flows, pair, i) + (j - i)
  {
    if i < j { UsesRises(flows, pair, i, j - 1); }
  }

  lemma SamePorts(first: nat, a: nat, b: nat)
    requires a <= b
    ensures Port(first + a) == Port(first + b) <==> Port(b - a) == 0
  {
    var x, y := first + a, first + b;
    assert x == x / PORTS * PORTS + Port(x) && y == y / PORTS * PORTS + Port(y);
    assert b - a == (y / PORTS - x / PORTS) * PORTS + (Port(y) - Port(x));
  }

  /**
   * Two flows of the same pair get the same source port exactly when the number of flows of that
   * pair from the first up to the second is a multiple of 65536.
   */
  lemma PortsRepeat(types: seq<nat>, flows: seq<Flow>, i: nat, j: nat)
    requires i < j < |flows| && Pair(flows[i]) == Pair(flows[j])
    ensures var pair := Pair(flows[i]);
            && Uses(flows, pair, i) < Uses(flows, pair, j)
            && (NextPort(types, flows, pair, i) == NextPort(types, flows, pair, j) <==>
                Port(Uses(flows, pair, j) - Uses(flows, pair, i)) == 0)
  {
    hide *;
    var pair := Pair(flows[i]);
    UsesNext(flows, i);
    UsesRises(flows, pair, i + 1, j);
    SamePorts(FirstPort(types, pair), Uses(flows, pair, i), Uses(flows, pair, j));
    NextPortIs(types, flows, pair, i);
    NextPortIs(types, flows, pair, j);
  }

  lemma UsesNext(flows: seq<Flow>, i: nat)
    requires i < |flows|
    ensures Uses(flows, Pair(flows[i]), i + 1) == Uses(flows, Pair(flows[i]), i) + 1
  {
  }

  lemma NextPortIs(types: seq<nat>, flows: seq<Flow>, pair: (nat, nat), n: nat)
    requires n <= |flows|
    ensures NextPort(types, flows, pair, n) == Port(FirstPort(types, pair) + Uses(flows, pair, n))
  {
  }

  /** So no two of them share (source, destination, source port) as long as no pair has more than 65536 flows. */
  lemma PortsDistinct(types: seq<nat>, flows: seq<Flow>, i: nat, j: nat)
    requires i < j < |flows| && Pair(flows[i]) == Pair(flows[j])
    requires Uses(flows, Pair(flows[i]), |flows|) <= PORTS
    ensures NextPort(types, flows, Pair(flows[i]), i) != NextPort(types, flows, Pair(flows[i]), j)
  {
    var pair := Pair(flows[i]);
    PortsRepeat(types, flows, i, j);
    UsesRises(flows, pair, 0, i);
    UsesRises(flows, pair, i + 1, j);
    UsesRises(flows, pair, j + 1, |flows|);
  }

  // Node ids are kept in 32 bits.
  predicate SameEnds(f: Flow, g: Flow) {
    f.src % 0x1_0000_0000 == g.src % 0x1_0000_0000 && f.dst % 0x1_0000_0000 == g.dst % 0x1_0000_0000
  }

  // The flows before the n-th between the same nodes as the i-th.
  function Earlier(flows: seq<Flow>, i: nat, n: nat): set<nat>
    requires i < |flows| && n <= |flows|
  {
    set k: nat | k < n && SameEnds(flows[k], flows[i])
  }

  lemma {:induction false} UsesAre(flows: seq<Flow>, i: nat, n: nat)
    requires i < |flows| && n <= |flows|
    ensures Uses(flows, Pair(flows[i]), n) == |Earlier(flows, i, n)|
  {
    if n == 0 {
      assert Earlier(flows, i, 0) == {};
    } else {
      var m := n - 1;
      UsesAre(flows, i, m);
      EarlierNext(flows, i, m);
      hide Earlier;
    }
  }

  lemma SamePair(f: Flow, g: Flow)
    ensures Pair(f) == Pair(g) <==> SameEnds(f, g)
  {
  }

  lemma EarlierNext(flows: seq<Flow>, i: nat, m: nat)
    requires i < |flows| && m < |flows|
    ensures |Earlier(flows, i, m + 1)| == |Earlier(flows, i, m)| + if Pair(flows[m]) == Pair(flows[i]) then 1 else 0
  {
    var before, after := Earlier(flows, i, m), Earlier(flows, i, m + 1);
    SamePair(flows[m], flows[i]);
    hide SameEnds, Pair;
    if Pair(flows[m]) == Pair(flows[i]) {
      assert after == before + {m};
    } else {
      assert after == before;
    }
  }

  /**
   * The flow launched i-th is flow i.  Between two hosts, the k-th flow of a pair, from 0, gets port 10000 + k in
   * 16 bits; between any other nodes it gets k in 16 bits.
   */
  lemma PortOfLaunch(types: seq<nat>, flows: seq<Flow>, i: nat)
    requires i < |flows|
    ensures |Launches(types, flows, |flows|)| == |flows|
    ensures var l := Launches(types, flows, |flows|)[i];
            var src, dst := flows[i].src % 0x1_0000_0000, flows[i].dst % 0x1_0000_0000;
            var k := |Earlier(flows, i, i)|;
            && l.flow == flows[i]
            && l.port == if src < |types| && dst < |types| && types[src] == 0 && types[dst] == 0
                         then (10000 + k) % 65536 else k % 65536
  {
    LaunchedInOrder(types, flows, |flows|, i);
    UsesAre(flows, i, i);
    hide Launches, Uses, Earlier;
  }

  // ---- The scheduler ----

  type Ports = map<(nat, nat), nat>

  function PortOf(ports: Ports, pair: (nat, nat)): nat { if pair in ports then ports[pair] else 0 }

  ghost predicate PortsAre(types: seq<nat>, flows: seq<Flow>, n: nat, ports: Ports)
    requires n <= |flows|
  {
    forall pair :: PortOf(ports, pair) == NextPort(types, flows, pair, n)
  }

  // The port table while it is being set up: rows before `i`, and row `i` before column `j`.
  ghost predicate PortsSet(types: seq<nat>, i: nat, j: nat, ports: Ports) {
    forall pair: (nat, nat) :: PortOf(ports, pair) ==
      if pair.0 < i || (pair.0 == i && pair.1 < j) then FirstPort(types, pair) else 0
  }

  class FlowScheduler {
    const types: seq<nat>
    const flows: seq<Flow>
    var now: int
    var pending: Option<int>
    var ports: Ports
    var idx: nat
    var input: Flow
    var launched: seq<Launch>

    // Between two events: flow `idx` waits for its start time, which is later than all before it.
    ghost predicate Waiting()
      reads this
    {
      && idx < |flows| && Ready() && pending == Some(input.start) && now <= input.start
      && (idx > 0 ==> Latest(flows, idx) < input.start)
    }

    ghost predicate Ready()
      reads this
    {
      && idx <= |flows| && (idx < |flows| ==> input == flows[idx])
      && launched == Launches(types, flows, idx) && PortsAre(types, flows, idx, ports)
    }

    ghost predicate Finished()
      reads this
    {
      pending == None && idx == |flows| && launched == Launches(types, flows, |flows|)
    }

    constructor (types: seq<nat>, flows: seq<Flow>)
      requires flows != [] ==> flows[0].start >= 0
      ensures this.types == types && this.flows == flows && now == 0
      ensures if flows == [] then Finished() else Waiting()
    {
      this.types, this.flows := types, flows;
      now, pending, launched := 0, None, [];
      ports := map[];
      idx := 0;
      input := Flow(0, 0, 0, 0, 0, 0);
      new;
      SetUpPorts();
      if |flows| > 0 {
        ReadFlowInput();
        Schedule(input.start - now);
      }
    }

    // Host pairs count from 10000.
    method SetUpPorts()
      requires ports == map[]
      modifies this`ports
      ensures PortsAre(types, flows, 0, ports)
    {
      hide PortsSet, PortsAre, PortOf, FirstPort;
      SetStart(types);
      var i := 0;
      while i < |types|
        invariant i <= |types| && PortsSet(types, i, 0, ports)
      {
        var j := 0;
        while j < |types|
          invariant j <= |types| && PortsSet(types, i, j, ports)
        {
          SetNext(types, i, j, ports);
          if types[i] == 0 && types[j] == 0 {
            ports := ports[(i, j) := FIRST_PORT];
          }
          j := j + 1;
        }
        SetRow(types, i, ports);
        i := i + 1;
      }
      SetEnd(types, flows, ports);
    }

    method ReadFlowInput()
      modifies this`input
      ensures input == if idx < |flows| then flows[idx] else old(input)
    {
      if idx < |flows| {
        input := flows[idx];
      }
    }

    // The simulator accepts no negative delay.
    method Schedule(delay: int)
      requires delay >= 0
      modifies this`pending
      ensures pending == Some(now + delay)
    {
      pending := Some(now + delay);
    }

    // The event handler: launches every flow that is due and waits for the next.
    method ScheduleFlowInputs()
      requires idx < |flows| && Ready() && pending == None && now == input.start
      requires idx > 0 ==> Latest(flows, idx) < now
      modifies this
      ensures now == old(now) && idx > old(idx)
      ensures if idx < |flows| then Waiting() else Finished()
    {
      ghost var first := idx;
      hide PortsAre, Launches, NextPort;
      while idx < |flows| && input.start <= now
        invariant first <= idx <= |flows| && Ready() && pending == None && now == old(now)
        invariant if idx == first then idx < |flows| && input.start == now && (idx > 0 ==> Latest(flows, idx) < now)
                  else Latest(flows, idx) == now
        decreases |flows| - idx
      {
        LaunchNext(types, flows, idx, ports);
        var pair := (input.src % WORD, input.dst % WORD);
        var port := if pair in ports then ports[pair] else 0;
        ports := ports[pair := (port + 1) % PORTS];
        launched := launched + [Launch(input, now, port)];
        idx := idx + 1;
        ReadFlowInput();
      }
      if idx < |flows| {
        Schedule(input.start - now);
      }
    }

    /** The whole run: events fire in turn until none is pending. */
    method Run()
      requires Waiting() || Finished()
      modifies this
      ensures Finished()
    {
      while pending.Some?
        invariant if pending.Some? then Waiting() else Finished()
        decreases |flows| - idx
      {
        now, pending := pending.value, None;
        ScheduleFlowInputs();
      }
    }
  }

  lemma SetStart(types: seq<nat>)
    ensures PortsSet(types, 0, 0, map[])
  {
  }

  lemma SetNext(types: seq<nat>, i: nat, j: nat, ports: Ports)
    requires i < |types| && j < |types| && PortsSet(types, i, j, ports)
    ensures types[i] == 0 && types[j] == 0 ==> PortsSet(types, i, j + 1, ports[(i, j) := FIRST_PORT])
    ensures !(types[i] == 0 && types[j] == 0) ==> PortsSet(types, i, j + 1, ports)
  {
    assert FirstPort(types, (i, j)) == if types[i] == 0 && types[j] == 0 then FIRST_PORT else 0;
    assert PortOf(ports, (i, j)) == 0;
  }

  lemma SetRow(types: seq<nat>, i: nat, ports: Ports)
    requires PortsSet(types, i, |types|, ports)
    ensures PortsSet(types, i + 1, 0, ports)
  {
    forall pair: (nat, nat) | pair.0 == i && pair.1 >= |types| ensures FirstPort(types, pair) == 0 {
    }
  }

  lemma SetEnd(types: seq<nat>, flows: seq<Flow>, ports: Ports)
    requires PortsSet(types, |types|, 0, ports)
    ensures PortsAre(types, flows, 0, ports)
  {
    forall pair ensures PortOf(ports, pair) == NextPort(types, flows, pair, 0) {
      assert Uses(flows, pair, 0) == 0 && FirstPort(types, pair) < PORTS;
    }
  }

  lemma LaunchNext(types: seq<nat>, flows: seq<Flow>, n: nat, ports: Ports)
    requires n < |flows| && PortsAre(types, flows, n, ports)
    ensures var pair := Pair(flows[n]); var port := PortOf(ports, pair);
            && PortsAre(types, flows, n + 1, ports[pair := (port + 1) % PORTS])
            && Launches(types, flows, n + 1) == Launches(types, flows, n) + [Launch(flows[n], Latest(flows, n + 1), port)]
  {
    var pair := Pair(flows[n]);
    var more := ports[pair := (PortOf(ports, pair) + 1) % PORTS];
    forall p ensures PortOf(more, p) == NextPort(types, flows, p, n + 1) {
      assert PortOf(ports, p) == NextPort(types, flows, p, n);
    }
  }
}
