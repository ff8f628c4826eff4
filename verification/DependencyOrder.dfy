/** The level-by-level load order of the Python bindings. */
module DependencyOrder {
  import opened Network

  type Library = string
  type Dependencies = map<Library, seq<Library>>

  // Not loaded before step k.  A dependency that is no library is never loaded.
  ghost predicate Pending(deps: Dependencies, m: Library, k: nat)
    decreases k
  {
    k == 0 || m !in deps || exists d :: d in deps[m] && Pending(deps, d, k - 1)
  }

  // The members of s that are in keep, in order.
  ghost function Select(s: seq<Library>, keep: iset<Library>): seq<Library> {
    if s == [] then [] else
      Select(s[..|s| - 1], keep) + if s[|s| - 1] in keep then [s[|s| - 1]] else []
  }

  ghost function PendingSet(deps: Dependencies, k: nat): iset<Library> {
    iset m | Pending(deps, m, k)
  }

  ghost function StepSet(deps: Dependencies, k: nat): iset<Library> {
    iset m | Pending(deps, m, k) && !Pending(deps, m, k + 1)
  }

  ghost function Members(s: seq<Library>): iset<Library> {
    iset m | m in s
  }

  ghost function PendingAt(deps: Dependencies, order: seq<Library>, k: nat): seq<Library> {
    Select(order, PendingSet(deps, k))
  }

  // The libraries loaded in step k.
  ghost function StepOf(deps: Dependencies, order: seq<Library>, k: nat): seq<Library> {
    Select(order, StepSet(deps, k))
  }

  // The libraries loaded in the first k steps, step after step.
  ghost function Loaded(deps: Dependencies, order: seq<Library>, k: nat): seq<Library> {
    if k == 0 then [] else Loaded(deps, order, k - 1) + StepOf(deps, order, k - 1)
  }

  // order lists the keys of deps, as list(deps.keys()) does.
  ghost predicate KeysOf(deps: Dependencies, order: seq<Library>) {
    NoDup(order) && forall m :: m in order <==> m in deps
  }

  // ---- Selecting ----

  lemma {:induction false} SelectExact(s: seq<Library>, keep: iset<Library>)
    ensures forall m :: m in Select(s, keep) <==> m in s && m in keep
    ensures NoDup(s) ==> NoDup(Select(s, keep))
  {
    if s != [] {
      var rest := s[..|s| - 1];
      SelectExact(rest, keep);
      assert s == rest + [s[|s| - 1]];
    }
  }

  lemma {:induction false} SelectAll(s: seq<Library>, keep: iset<Library>)
    requires forall i :: 0 <= i < |s| ==> s[i] in keep
    ensures Select(s, keep) == s
  {
    if s != [] { SelectAll(s[..|s| - 1], keep); }
  }

  lemma {:induction false} SelectTwice(s: seq<Library>, a: iset<Library>, b: iset<Library>)
    ensures Select(Select(s, a), b) == Select(s, a * b)
  {
    if s != [] {
      SelectTwice(s[..|s| - 1], a, b);
      var t := Select(s[..|s| - 1], a);
      var x := s[|s| - 1];
      if x in a {
        assert Select(s, a) == t + [x] && (t + [x])[..|t|] == t;
      } else {
        assert Select(s, a) == t && x !in a * b;
      }
    }
  }

  lemma {:induction false} SelectSame(s: seq<Library>, a: iset<Library>, b: iset<Library>)
    requires forall m :: m in s ==> (m in a <==> m in b)
    ensures Select(s, a) == Select(s, b)
  {
    if s != [] { SelectSame(s[..|s| - 1], a, b); }
  }

  // pending_modules.remove(m)
  function Remove(s: seq<Library>, m: Library): seq<Library> {
    if s == [] then [] else if s[0] == m then s[1..] else [s[0]] + Remove(s[1..], m)
  }

  lemma {:induction false} RemoveAbsent(s: seq<Library>, m: Library)
    requires m !in s
    ensures Remove(s, m) == s
  {
    if s != [] { RemoveAbsent(s[1..], m); }
  }

  lemma {:induction false} RemoveAppend(s: seq<Library>, x: Library, m: Library)
    ensures Remove(s + [x], m) == if m in s then Remove(s, m) + [x] else if x == m then s else s + [x]
  {
    if s != [] {
      RemoveAppend(s[1..], x, m);
      assert (s + [x])[1..] == s[1..] + [x];
    }
  }

  lemma LastIsNew(s: seq<Library>, m: Library)
    requires NoDup(s) && s != [] && m in s[..|s| - 1]
    ensures m != s[|s| - 1]
  {
    var i :| 0 <= i < |s| - 1 && s[i] == m;
  }

  lemma NoDupConcat(a: seq<Library>, b: seq<Library>)
    requires NoDup(a) && NoDup(b) && forall m :: m in a ==> m !in b
    ensures NoDup(a + b)
  {
    forall i, j | 0 <= i < j < |a + b| ensures (a + b)[i] != (a + b)[j] {
      if i < |a| <= j {
        assert (a + b)[i] in a && (a + b)[j] in b;
      }
    }
  }

  lemma {:induction false} RemoveSelected(s: seq<Library>, keep: iset<Library>, m: Library)
    requires NoDup(s)
    ensures Remove(Select(s, keep), m) == Select(s, keep - iset{m})
  {
    if s != [] {
      var rest, x := s[..|s| - 1], s[|s| - 1];
      RemoveSelected(rest, keep, m);
      SelectExact(rest, keep);
      SelectExact(rest, keep - iset{m});
      if m in rest { LastIsNew(s, m); }
      var chosen := Select(rest, keep);
      RemoveAppend(chosen, x, m);
      if m !in chosen { RemoveAbsent(chosen, m); }
      assert Select(s, keep) == if x in keep then chosen + [x] else chosen;
    }
  }

  // ---- The steps ----

  lemma {:induction false} PendingAntitone(deps: Dependencies, m: Library, k: nat)
    ensures Pending(deps, m, k + 1) ==> Pending(deps, m, k)
    decreases k
  {
    if k > 0 && m in deps && Pending(deps, m, k + 1) {
      var d :| d in deps[m] && Pending(deps, d, k);
      PendingAntitone(deps, d, k - 1);
    }
  }

  lemma {:induction false} LoadedExact(deps: Dependencies, order: seq<Library>, k: nat)
    requires NoDup(order)
    ensures forall m :: m in Loaded(deps, order, k) <==> m in order && !Pending(deps, m, k)
    ensures NoDup(Loaded(deps, order, k))
  {
    if k > 0 {
      LoadedExact(deps, order, k - 1);
      SelectExact(order, StepSet(deps, k - 1));
      forall m ensures Pending(deps, m, k) ==> Pending(deps, m, k - 1) { PendingAntitone(deps, m, k - 1); }
      NoDupConcat(Loaded(deps, order, k - 1), StepOf(deps, order, k - 1));
    }
  }

  predicate CanLoad(deps: Dependencies, current: seq<Library>, m: Library) {
    m in deps && forall d :: d in deps[m] ==> d in current
  }

  ghost function CanLoadSet(deps: Dependencies, current: seq<Library>): iset<Library> {
    iset m | CanLoad(deps, current, m)
  }

  // What can be loaded after k steps is exactly step k.
  lemma LoadableIsStep(deps: Dependencies, order: seq<Library>, k: nat)
    requires KeysOf(deps, order)
    ensures Select(PendingAt(deps, order, k), CanLoadSet(deps, Loaded(deps, order, k))) == StepOf(deps, order, k)
  {
    var current := Loaded(deps, order, k);
    LoadedExact(deps, order, k);
    SelectTwice(order, PendingSet(deps, k), CanLoadSet(deps, current));
    forall m | m in order
      ensures m in PendingSet(deps, k) * CanLoadSet(deps, current) <==> m in StepSet(deps, k)
    {
      if CanLoad(deps, current, m) {
        forall d | d in deps[m] ensures !Pending(deps, d, k) {}
      } else {
        var d :| d in deps[m] && d !in current;
        assert Pending(deps, d, k);
      }
    }
    SelectSame(order, PendingSet(deps, k) * CanLoadSet(deps, current), StepSet(deps, k));
  }

  // ---- The code ----

  method ModulesThatCanBeLoaded(deps: Dependencies, pending: seq<Library>, current: seq<Library>)
    returns (modules: seq<Library>)
    requires forall m :: m in pending ==> m in deps
    ensures modules == Select(pending, CanLoadSet(deps, current))
  {
    modules := [];
    for i := 0 to |pending|
      invariant modules == Select(pending[..i], CanLoadSet(deps, current))
    {
      assert pending[..i + 1][..i] == pending[..i];
      var m := pending[i];
      var canBeLoaded := true;
      for j := 0 to |deps[m]|
        invariant canBeLoaded && forall d :: d in deps[m][..j] ==> d in current
      {
        if deps[m][j] !in current {
          canBeLoaded := false;
          break;
        }
      }
      if canBeLoaded {
        assert deps[m][..|deps[m]|] == deps[m];
        modules := modules + [m];
      }
    }
    assert pending[..|pending|] == pending;
  }

  // Every library is loaded by step n.
  ghost predicate AllLoadedBy(deps: Dependencies, n: nat) {
    forall m :: m in deps ==> !Pending(deps, m, n)
  }

  lemma RemoveNone(order: seq<Library>, keep: iset<Library>, modules: seq<Library>)
    ensures Select(order, keep) == Select(order, keep - Members(modules[..0]))
  {
    assert keep - Members(modules[..0]) == keep;
  }

  lemma RemoveNext(order: seq<Library>, keep: iset<Library>, modules: seq<Library>, i: nat)
    requires NoDup(order) && i < |modules|
    ensures Remove(Select(order, keep - Members(modules[..i])), modules[i]) == Select(order, keep - Members(modules[..i + 1]))
  {
    RemoveSelected(order, keep - Members(modules[..i]), modules[i]);
    assert (keep - Members(modules[..i])) - iset{modules[i]} == keep - Members(modules[..i + 1]);
  }

  // The state in which step k begins.
  ghost predicate AtStep(deps: Dependencies, order: seq<Library>, k: nat, pending: seq<Library>, current: seq<Library>,
                         steps: map<nat, seq<Library>>) {
    && pending == PendingAt(deps, order, k) && current == Loaded(deps, order, k)
    && (forall j: nat :: j in steps <==> j < k)
    && (forall j: nat :: j < k ==> steps[j] == StepOf(deps, order, j))
  }

  lemma AtStart(deps: Dependencies, order: seq<Library>)
    ensures AtStep(deps, order, 0, order, [], map[])
  {
    SelectAll(order, PendingSet(deps, 0));
  }

  lemma AtStepFacts(deps: Dependencies, order: seq<Library>, k: nat, n: nat, pending: seq<Library>,
                    current: seq<Library>, steps: map<nat, seq<Library>>)
    requires KeysOf(deps, order) && AllLoadedBy(deps, n) && k <= n && AtStep(deps, order, k, pending, current, steps)
    ensures NoDup(order) && (forall m :: m in pending ==> m in deps) && k !in steps
    ensures pending == PendingAt(deps, order, k) == Select(order, PendingSet(deps, k))
    ensures pending != [] ==> k < n
    ensures Select(pending, CanLoadSet(deps, current)) == StepOf(deps, order, k)
  {
    SelectExact(order, PendingSet(deps, k));
    LoadableIsStep(deps, order, k);
    if pending != [] { assert pending[0] in order && Pending(deps, pending[0], k); }
  }

  lemma AtNextStep(deps: Dependencies, order: seq<Library>, k: nat, pending: seq<Library>, current: seq<Library>,
                   steps: map<nat, seq<Library>>)
    requires AtStep(deps, order, k, pending, current, steps)
    ensures AtStep(deps, order, k + 1, Select(order, PendingSet(deps, k) - Members(StepOf(deps, order, k))),
                   current + StepOf(deps, order, k), steps[k := StepOf(deps, order, k)])
  {
    StepLeavesNext(deps, order, k, PendingSet(deps, k) - Members(StepOf(deps, order, k)));
  }

  class Sorter {
    var pending: seq<Library>
    var current: seq<Library>
    var steps: map<nat, seq<Library>>

    constructor (order: seq<Library>)
      ensures pending == order && current == [] && steps == map[]
    {
      pending, current, steps := order, [], map[];
    }

    // The loop of one step.
    method LoadStep(modules: seq<Library>, step: nat, ghost order: seq<Library>, ghost keep: iset<Library>)
      requires NoDup(order) && pending == Select(order, keep) && step in steps && steps[step] == []
      modifies this
      ensures pending == Select(order, keep - Members(modules))
      ensures current == old(current) + modules && steps == old(steps)[step := modules]
    {
      RemoveNone(order, keep, modules);
      assert NoDup(order);
      hide Select, Members, Remove, NoDup;
      for i := 0 to |modules|
        invariant pending == Select(order, keep - Members(modules[..i]))
        invariant current == old(current) + modules[..i]
        invariant steps == old(steps)[step := modules[..i]]
      {
        var m := modules[i];
        RemoveNext(order, keep, modules, i);
        assert modules[..i] + [m] == modules[..i + 1];
        steps := steps[step := steps[step] + [m]];
        pending := Remove(pending, m);
        current := current + [m];
      }
      assert modules[..|modules|] == modules;
    }

    // n bounds the number of steps; the source recurses without one.
    method DependencyOrder(deps: Dependencies, order: seq<Library>, step: nat, ghost n: nat) returns (last: nat)
      requires KeysOf(deps, order) && AllLoadedBy(deps, n) && step <= n
      requires AtStep(deps, order, step, pending, current, steps)
      modifies this
      ensures AtStep(deps, order, last, pending, current, steps) && pending == []
      ensures step <= last <= n && forall k :: step <= k < last ==> PendingAt(deps, order, k) != []
      decreases n - step
    {
      hide *;
      AtStepFacts(deps, order, step, n, pending, current, steps);
      AtNextStep(deps, order, step, pending, current, steps);
      if |pending| == 0 {
        return step;
      }
      if step !in steps {
        steps := steps[step := []];
      }
      var modules := ModulesThatCanBeLoaded(deps, pending, current);
      LoadStep(modules, step, order, PendingSet(deps, step));
      assert steps == old(steps)[step := modules];
      last := DependencyOrder(deps, order, step + 1, n);
    }
  }

  lemma StepLeavesNext(deps: Dependencies, order: seq<Library>, k: nat, left: iset<Library>)
    requires left == PendingSet(deps, k) - Members(StepOf(deps, order, k))
    ensures Select(order, left) == PendingAt(deps, order, k + 1)
  {
    SelectExact(order, StepSet(deps, k));
    forall m | m in order ensures m in left <==> m in PendingSet(deps, k + 1) {
      PendingAntitone(deps, m, k);
    }
    SelectSame(order, left, PendingSet(deps, k + 1));
  }

  // ---- The result ----

  // The load order is a permutation of the libraries.
  lemma LoadedIsPermutation(deps: Dependencies, order: seq<Library>, last: nat)
    requires KeysOf(deps, order) && PendingAt(deps, order, last) == []
    ensures NoDup(Loaded(deps, order, last))
    ensures forall m :: m in Loaded(deps, order, last) <==> m in deps
  {
    LoadedExact(deps, order, last);
    SelectExact(order, PendingSet(deps, last));
    forall m | m in order ensures !Pending(deps, m, last) {
      assert Pending(deps, m, last) ==> m in PendingAt(deps, order, last);
    }
  }

  // Every library comes after all its dependencies.
  lemma {:induction false} DependenciesFirst(deps: Dependencies, order: seq<Library>, k: nat, i: nat, d: Library)
    requires KeysOf(deps, order) && i < |Loaded(deps, order, k)|
    requires d in deps.Keys && Loaded(deps, order, k)[i] in deps && d in deps[Loaded(deps, order, k)[i]]
    ensures exists j :: 0 <= j < i && Loaded(deps, order, k)[j] == d
  {
    var before := Loaded(deps, order, k - 1);
    if i < |before| {
      DependenciesFirst(deps, order, k - 1, i, d);
      var j :| 0 <= j < i && before[j] == d;
      assert Loaded(deps, order, k)[j] == d;
    } else {
      var m := Loaded(deps, order, k)[i];
      assert m == StepOf(deps, order, k - 1)[i - |before|];
      SelectExact(order, StepSet(deps, k - 1));
      assert m in StepOf(deps, order, k - 1);
      assert !Pending(deps, d, k - 1);
      LoadedExact(deps, order, k - 1);
      var j :| 0 <= j < |before| && before[j] == d;
      assert Loaded(deps, order, k)[j] == d;
    }
  }

  // ---- Steps are longest chains ----

  // c[i + 1] is a dependency of c[i], and all are libraries.
  ghost predicate IsChain(deps: Dependencies, c: seq<Library>) {
    && |c| > 0 && (forall i :: 0 <= i < |c| ==> c[i] in deps)
    && forall i :: 0 <= i < |c| - 1 ==> c[i + 1] in deps[c[i]]
  }

  ghost predicate ClosedRelation(deps: Dependencies) {
    forall m, d :: m in deps && d in deps[m] ==> d in deps
  }

  ghost predicate Acyclic(deps: Dependencies) {
    forall c :: IsChain(deps, c) && |c| > 1 ==> c[0] != c[|c| - 1]
  }

  // On a closed relation, a library is pending at step k iff a chain of k + 1 libraries starts with it.
  lemma {:induction false} PendingIsChain(deps: Dependencies, m: Library, k: nat)
    requires ClosedRelation(deps) && m in deps
    ensures Pending(deps, m, k) <==> exists c :: IsChain(deps, c) && |c| == k + 1 && c[0] == m
    decreases k
  {
    if k == 0 {
      assert IsChain(deps, [m]) && |[m]| == 1 && [m][0] == m;
    } else {
      if Pending(deps, m, k) {
        var d :| d in deps[m] && Pending(deps, d, k - 1);
        PendingIsChain(deps, d, k - 1);
        var c :| IsChain(deps, c) && |c| == k && c[0] == d;
        var e := [m] + c;
        assert IsChain(deps, e) && |e| == k + 1 && e[0] == m;
      }
      if c :| IsChain(deps, c) && |c| == k + 1 && c[0] == m {
        ChainTail(deps, c);
        PendingIsChain(deps, c[1], k - 1);
        assert Pending(deps, c[1], k - 1) && c[1] in deps[m];
      }
    }
  }

  lemma ChainTail(deps: Dependencies, c: seq<Library>)
    requires IsChain(deps, c) && |c| > 1
    ensures IsChain(deps, c[1..]) && c[1] in deps[c[0]]
  {
    var t := c[1..];
    forall i | 0 <= i < |t| - 1 ensures t[i + 1] in deps[t[i]] { assert c[i + 2] in deps[c[i + 1]]; }
  }

  // Step k holds exactly the libraries whose longest dependency chain has k links.
  lemma StepIsHeight(deps: Dependencies, order: seq<Library>, k: nat, m: Library)
    requires KeysOf(deps, order) && ClosedRelation(deps) && m in deps
    ensures m in StepOf(deps, order, k) <==>
      (exists c :: IsChain(deps, c) && |c| == k + 1 && c[0] == m) && !(exists c :: IsChain(deps, c) && |c| == k + 2 && c[0] == m)
  {
    SelectExact(order, StepSet(deps, k));
    PendingIsChain(deps, m, k);
    PendingIsChain(deps, m, k + 1);
  }

  // ---- Exactly when the recursion ends ----

  lemma {:induction false} MissingIsNeverLoaded(deps: Dependencies, m: Library, d: Library, k: nat)
    requires m in deps && d in deps[m] && d !in deps
    ensures Pending(deps, m, k)
  {
    if k > 0 { assert Pending(deps, d, k - 1); }
  }

  lemma {:induction false} CycleIsNeverLoaded(deps: Dependencies, c: seq<Library>, i: nat, k: nat)
    requires IsChain(deps, c) && |c| > 1 && c[0] == c[|c| - 1] && i < |c|
    ensures Pending(deps, c[i], k)
    decreases k
  {
    if k > 0 {
      var j := if i == |c| - 1 then 0 else i;
      assert c[j] == c[i] && c[j + 1] in deps[c[j]];
      CycleIsNeverLoaded(deps, c, j + 1, k - 1);
    }
  }

  lemma AcyclicChainNoDup(deps: Dependencies, c: seq<Library>)
    requires Acyclic(deps) && IsChain(deps, c)
    ensures NoDup(c)
  {
    forall i, j | 0 <= i < j < |c| ensures c[i] != c[j] {
      var e := c[i..j + 1];
      forall k | 0 <= k < |e| - 1 ensures e[k + 1] in deps[e[k]] { assert c[i + k + 1] in deps[c[i + k]]; }
      assert IsChain(deps, e) && e[0] == c[i] && e[|e| - 1] == c[j];
    }
  }

  // Distinct libraries: at most as many as there are.
  lemma ChainBound(deps: Dependencies, c: seq<Library>)
    requires Acyclic(deps) && IsChain(deps, c)
    ensures |c| <= |deps|
  {
    AcyclicChainNoDup(deps, c);
    NoDupCard(c);
    assert Elements(c) <= deps.Keys;
    CardMonotone(Elements(c), deps.Keys);
  }

  lemma {:induction false} CardMonotone<T>(a: set<T>, b: set<T>)
    requires a <= b
    ensures |a| <= |b|
  {
    if a != {} {
      var x :| x in a;
      CardMonotone(a - {x}, b - {x});
    }
  }

  lemma AcyclicTerminates(deps: Dependencies)
    requires ClosedRelation(deps) && Acyclic(deps)
    ensures AllLoadedBy(deps, |deps|)
  {
    forall m | m in deps ensures !Pending(deps, m, |deps|) {
      PendingIsChain(deps, m, |deps|);
      forall c | IsChain(deps, c) && |c| == |deps| + 1 && c[0] == m ensures false { ChainBound(deps, c); }
    }
  }

  // The recursion reaches an empty pending list exactly for closed, acyclic relations; then |deps| steps suffice.
  lemma TerminatesIffAcyclic(deps: Dependencies)
    ensures (exists n: nat :: AllLoadedBy(deps, n)) <==> ClosedRelation(deps) && Acyclic(deps)
    ensures ClosedRelation(deps) && Acyclic(deps) ==> AllLoadedBy(deps, |deps|)
  {
    if n: nat :| AllLoadedBy(deps, n) {
      forall m, d | m in deps && d in deps[m] ensures d in deps {
        if d !in deps { MissingIsNeverLoaded(deps, m, d, n); }
      }
      forall c | IsChain(deps, c) && |c| > 1 ensures c[0] != c[|c| - 1] {
        if c[0] == c[|c| - 1] { CycleIsNeverLoaded(deps, c, 0, n); }
      }
    }
    if ClosedRelation(deps) && Acyclic(deps) { AcyclicTerminates(deps); }
  }

  // Whether every library of s comes after all its dependencies.
  ghost predicate DependenciesBefore(deps: Dependencies, s: seq<Library>) {
    forall i, d :: 0 <= i < |s| && s[i] in deps && d in deps[s[i]] ==> exists j :: 0 <= j < i && s[j] == d
  }

  lemma LoadedInOrder(deps: Dependencies, order: seq<Library>, k: nat)
    requires KeysOf(deps, order) && ClosedRelation(deps)
    ensures DependenciesBefore(deps, Loaded(deps, order, k))
  {
    var s := Loaded(deps, order, k);
    forall i, d | 0 <= i < |s| && s[i] in deps && d in deps[s[i]] ensures exists j :: 0 <= j < i && s[j] == d {
      DependenciesFirst(deps, order, k, i, d);
    }
  }

  // sorted_libraries.extend(step), for the steps in order.
  method SortToDependencies(deps: Dependencies, order: seq<Library>) returns (sorted: seq<Library>)
    requires KeysOf(deps, order) && ClosedRelation(deps) && Acyclic(deps)
    ensures NoDup(sorted) && forall m :: m in sorted <==> m in deps
    ensures DependenciesBefore(deps, sorted)
    ensures exists last: nat :: last <= |deps| && sorted == Loaded(deps, order, last)
  {
    AcyclicTerminates(deps);
    AtStart(deps, order);
    hide *;
    var sorter := new Sorter(order);
    var count := sorter.DependencyOrder(deps, order, 0, |deps|);
    sorted := [];
    LoadedNone(deps, order);
    for k := 0 to count
      invariant sorted == Loaded(deps, order, k) && AtStep(deps, order, count, sorter.pending, sorter.current, sorter.steps)
    {
      LoadedNext(deps, order, count, k, sorter.pending, sorter.current, sorter.steps);
      sorted := sorted + sorter.steps[k];
    }
    PendingAtEnd(deps, order, count, sorter.pending, sorter.current, sorter.steps);
    LoadedIsPermutation(deps, order, count);
    LoadedInOrder(deps, order, count);
  }

  lemma LoadedNone(deps: Dependencies, order: seq<Library>)
    ensures Loaded(deps, order, 0) == []
  {
  }

  lemma LoadedNext(deps: Dependencies, order: seq<Library>, count: nat, k: nat, pending: seq<Library>,
                   current: seq<Library>, steps: map<nat, seq<Library>>)
    requires AtStep(deps, order, count, pending, current, steps) && k < count
    ensures k in steps && Loaded(deps, order, k + 1) == Loaded(deps, order, k) + steps[k]
  {
  }

  lemma PendingAtEnd(deps: Dependencies, order: seq<Library>, count: nat, pending: seq<Library>,
                     current: seq<Library>, steps: map<nat, seq<Library>>)
    requires AtStep(deps, order, count, pending, current, steps) && pending == []
    ensures PendingAt(deps, order, count) == []
  {
  }
}
