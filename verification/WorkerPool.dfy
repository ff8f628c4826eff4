/** The worker pool of test.py as a transition system: the main thread, the workers and the interrupt flag. */
module WorkerPool {

  // ---- Jobs and what can become of them ----

  datatype Job = Job(name: string, isSkip: bool, skipReason: string, returnCode: int)

  datatype Outcome = Passed | Failed | Valgrind | Crashed | Skipped | Broken

  // A job on the input queue, by its index, or a job with is_break set.
  datatype Item = Work(id: nat) | Break

  // A job on the output queue; broken says that a worker set its is_break.
  datatype Report = Report(id: nat, broken: bool)

  datatype Worker =
    | Waiting               // in input_queue.get()
    | Got(item: Item)       // before the is_break and thread_exit tests
    | Running(id: nat)      // in run_job_synchronously
    | Putting(report: Report)
    | Exited

  datatype Main =
    | Dispatching(next: nat)  // putting jobs[next..] on the input queue
    | Breaking(sent: nat)     // putting one break per worker
    | Collecting              // in the loop over output_queue.get()
    | Joining(joined: nat)
    | Done

  datatype Config = Config(jobs: seq<Job>, processors: nat)

  datatype State = State(main: Main, input: seq<Item>, output: seq<Report>, workers: seq<Worker>,
                         collected: seq<Report>, threadExit: bool)

  datatype Action = MainStep | WorkerStep(w: nat) | Interrupt

  function Init(c: Config): State {
    State(Dispatching(0), [], [], seq(c.processors, i => Waiting), [], false)
  }

  // ---- Steps ----

  predicate MainEnabled(c: Config, s: State) {
    match s.main
    case Dispatching(_) => true
    case Breaking(_) => true
    case Collecting => |s.collected| >= |c.jobs| || s.output != []
    case Joining(k) => k >= |s.workers| || s.workers[k].Exited?
    case Done => false
  }

  predicate WorkerEnabled(c: Config, s: State, w: nat)
    requires w < |s.workers|
  {
    match s.workers[w]
    case Waiting => s.input != []
    case Got(item) => item.Work? ==> item.id < |c.jobs|
    case Exited => false
    case _ => true
  }

  predicate Enabled(c: Config, s: State, a: Action) {
    match a
    case MainStep => MainEnabled(c, s)
    case WorkerStep(w) => w < |s.workers| && WorkerEnabled(c, s, w)
    case Interrupt => !s.threadExit
  }

  function MainNext(c: Config, s: State): State
    requires MainEnabled(c, s)
  {
    match s.main
    case Dispatching(k) =>
      if k < |c.jobs| then s.(main := Dispatching(k + 1), input := s.input + [Work(k)]) else s.(main := Breaking(0))
    case Breaking(k) =>
      if k < c.processors then s.(main := Breaking(k + 1), input := s.input + [Break]) else s.(main := Collecting)
    case Collecting =>
      if |s.collected| < |c.jobs| then s.(output := s.output[1..], collected := s.collected + [s.output[0]])
      else s.(main := Joining(0))
    case Joining(k) => s.(main := if k < |s.workers| then Joining(k + 1) else Done)
  }

  function WorkerNext(c: Config, s: State, w: nat): State
    requires w < |s.workers| && WorkerEnabled(c, s, w)
  {
    match s.workers[w]
    case Waiting => s.(input := s.input[1..], workers := s.workers[w := Got(s.input[0])])
    case Got(Break) => s.(workers := s.workers[w := Exited])
    case Got(Work(id)) =>
      s.(workers := s.workers[w :=
        if s.threadExit then Putting(Report(id, true))
        else if c.jobs[id].isSkip then Putting(Report(id, false))
        else Running(id)])
    case Running(id) => s.(workers := s.workers[w := Putting(Report(id, false))])
    case Putting(r) => s.(output := s.output + [r], workers := s.workers[w := Waiting])
  }

  function Next(c: Config, s: State, a: Action): State
    requires Enabled(c, s, a)
  {
    match a
    case MainStep => MainNext(c, s)
    case WorkerStep(w) => WorkerNext(c, s, w)
    case Interrupt => s.(threadExit := true)
  }

  // Runs: b[0] is the initial state, and acts[i] leads from b[i] to b[i + 1].
  ghost predicate Behaviour(c: Config, b: seq<State>, acts: seq<Action>) {
    && |b| == |acts| + 1 && b[0] == Init(c)
    && forall i :: 0 <= i < |acts| ==> Enabled(c, b[i], acts[i]) && b[i + 1] == Next(c, b[i], acts[i])
  }

  // ---- Sums over queues and workers ----

  ghost function Total<T>(s: seq<T>, f: T -> nat): nat {
    if s == [] then 0 else Total(s[..|s| - 1], f) + f(s[|s| - 1])
  }

  lemma TotalAppend<T>(s: seq<T>, f: T -> nat, x: T)
    ensures Total(s + [x], f) == Total(s, f) + f(x)
  {
    assert (s + [x])[..|s|] == s;
  }

  lemma {:induction false} TotalHead<T>(s: seq<T>, f: T -> nat)
    requires s != []
    ensures Total(s, f) == f(s[0]) + Total(s[1..], f)
  {
    if |s| > 1 {
      TotalHead(s[..|s| - 1], f);
      assert s[..|s| - 1][1..] == s[1..][..|s| - 2];
    }
  }

  lemma {:induction false} TotalUpdate<T>(s: seq<T>, f: T -> nat, i: nat, x: T)
    requires i < |s|
    ensures Total(s[i := x], f) + f(s[i]) == Total(s, f) + f(x)
  {
    var k := |s| - 1;
    if i < k {
      TotalUpdate(s[..k], f, i, x);
      assert s[i := x][..k] == s[..k][i := x];
    } else {
      assert s[i := x][..k] == s[..k];
    }
  }

  // f is positive somewhere iff its sum is.
  lemma {:induction false} TotalPositive<T>(s: seq<T>, f: T -> nat)
    ensures Total(s, f) > 0 <==> exists i :: 0 <= i < |s| && f(s[i]) > 0
  {
    if s != [] {
      var r := s[..|s| - 1];
      TotalPositive(r, f);
      if i :| 0 <= i < |r| && f(r[i]) > 0 { assert f(s[i]) > 0; }
      if i :| 0 <= i < |s| && f(s[i]) > 0 { assert i == |s| - 1 || f(r[i]) > 0; }
    }
  }

  function ItemIs(id: nat): Item -> nat { (x: Item) => if x == Work(id) then 1 else 0 }

  function WorkerHas(id: nat): Worker -> nat { (x: Worker) => if JobOf(x) == [id] then 1 else 0 }

  function ReportOf(id: nat): Report -> nat { (x: Report) => if x.id == id then 1 else 0 }

  // The job a worker holds, if any.
  function JobOf(x: Worker): seq<nat> {
    match x
    case Got(Work(id)) => [id]
    case Running(id) => [id]
    case Putting(r) => [r.id]
    case _ => []
  }

  function ItemIsJob(x: Item): nat { if x.Work? then 1 else 0 }

  function WorkerHasJob(x: Worker): nat { |JobOf(x)| }

  function ItemBreaks(x: Item): nat { if x.Break? then 1 else 0 }

  function WorkerBreaks(x: Worker): nat { if x.Exited? || x == Got(Break) then 1 else 0 }

  // ---- The invariant ----

  function Dispatched(c: Config, s: State): nat {
    if s.main.Dispatching? then s.main.next else |c.jobs|
  }

  function BreaksSent(c: Config, s: State): nat {
    match s.main
    case Dispatching(_) => 0
    case Breaking(k) => k
    case _ => c.processors
  }

  // In how many places job id is.
  ghost function Places(s: State, id: nat): nat {
    Total(s.input, ItemIs(id)) + Total(s.workers, WorkerHas(id))
    + Total(s.output, ReportOf(id)) + Total(s.collected, ReportOf(id))
  }

  // Every dispatched job is in exactly one place, and no other job is anywhere.
  ghost predicate Placed(c: Config, s: State) {
    forall id: nat :: Places(s, id) == if id < Dispatched(c, s) then 1 else 0
  }

  // All in all there are as many jobs as were dispatched.
  ghost predicate Counted(c: Config, s: State) {
    && Dispatched(c, s) <= |c.jobs|
    && Total(s.input, ItemIsJob) + Total(s.workers, WorkerHasJob) + |s.output| + |s.collected| == Dispatched(c, s)
  }

  // Every break sent is queued, or was taken by a worker that exits or has exited.
  ghost predicate BreaksConserved(c: Config, s: State) {
    BreaksSent(c, s) <= c.processors
    && BreaksSent(c, s) == Total(s.input, ItemBreaks) + Total(s.workers, WorkerBreaks)
  }

  // Jobs come before breaks on the input queue, and no worker has taken a break while a job is queued.
  ghost predicate JobsFirst(s: State) {
    && (forall i, j :: 0 <= i < j < |s.input| && s.input[i].Break? ==> s.input[j].Break?)
    && (forall w, i :: 0 <= w < |s.workers| && WorkerBreaks(s.workers[w]) == 1 && 0 <= i < |s.input| ==> s.input[i].Break?)
    && (s.main.Dispatching? ==> forall i :: 0 <= i < |s.input| ==> s.input[i].Work?)
    && (s.main.Dispatching? ==> forall w :: 0 <= w < |s.workers| ==> WorkerBreaks(s.workers[w]) == 0)
  }

  ghost predicate Phases(c: Config, s: State) {
    && |s.workers| == c.processors
    && (s.main.Dispatching? || s.main.Breaking? ==> s.collected == [])
    && |s.collected| <= |c.jobs|
    && (s.main.Joining? || s.main.Done? ==> |s.collected| == |c.jobs|)
    && (s.main.Joining? ==> s.main.joined <= |s.workers| && forall w :: 0 <= w < s.main.joined ==> s.workers[w].Exited?)
    && (s.main.Done? ==> forall w :: 0 <= w < |s.workers| ==> s.workers[w].Exited?)
  }

  // Only an interrupt makes a worker break a job, and skipped jobs are never run.
  ghost predicate Honest(c: Config, s: State) {
    && (!s.threadExit ==>
          && (forall w :: 0 <= w < |s.workers| && s.workers[w].Putting? ==> !s.workers[w].report.broken)
          && (forall i :: 0 <= i < |s.output| ==> !s.output[i].broken)
          && (forall i :: 0 <= i < |s.collected| ==> !s.collected[i].broken))
    && (forall w :: 0 <= w < |s.workers| && s.workers[w].Running? ==>
          s.workers[w].id < |c.jobs| && !c.jobs[s.workers[w].id].isSkip)
  }

  ghost predicate Inv(c: Config, s: State) {
    Placed(c, s) && Counted(c, s) && BreaksConserved(c, s) && JobsFirst(s) && Phases(c, s) && Honest(c, s)
  }

  lemma {:induction false} AllWaiting(ws: seq<Worker>, f: Worker -> nat)
    requires f(Waiting) == 0 && forall w :: 0 <= w < |ws| ==> ws[w] == Waiting
    ensures Total(ws, f) == 0
  {
    if ws != [] { AllWaiting(ws[..|ws| - 1], f); }
  }

  lemma InvInit(c: Config)
    ensures Inv(c, Init(c))
  {
    var ws := Init(c).workers;
    forall id: nat ensures Places(Init(c), id) == 0 { AllWaiting(ws, WorkerHas(id)); }
    AllWaiting(ws, WorkerHasJob);
    AllWaiting(ws, WorkerBreaks);
  }

  // ---- Each step keeps it ----

  lemma PlacesByMain(c: Config, s: State, id: nat)
    requires MainEnabled(c, s)
    ensures Places(MainNext(c, s), id) ==
      Places(s, id) + if s.main.Dispatching? && s.main.next < |c.jobs| && s.main.next == id then 1 else 0
  {
    hide Total;
    match s.main
    case Dispatching(k) => TotalAppend(s.input, ItemIs(id), Work(k));
    case Breaking(k) => TotalAppend(s.input, ItemIs(id), Break);
    case Collecting =>
      if |s.collected| < |c.jobs| {
        TotalHead(s.output, ReportOf(id));
        TotalAppend(s.collected, ReportOf(id), s.output[0]);
      }
    case Joining(_) =>
  }

  lemma PlacesByWorker(c: Config, s: State, w: nat, id: nat)
    requires w < |s.workers| && WorkerEnabled(c, s, w)
    ensures Places(WorkerNext(c, s, w), id) == Places(s, id)
  {
    hide Total;
    TotalUpdate(s.workers, WorkerHas(id), w, WorkerNext(c, s, w).workers[w]);
    match s.workers[w]
    case Waiting => TotalHead(s.input, ItemIs(id));
    case Putting(r) => TotalAppend(s.output, ReportOf(id), r);
    case _ =>
  }

  lemma DispatchedByMain(c: Config, s: State)
    requires MainEnabled(c, s) && Dispatched(c, s) <= |c.jobs|
    ensures Dispatched(c, MainNext(c, s)) ==
      Dispatched(c, s) + if s.main.Dispatching? && s.main.next < |c.jobs| then 1 else 0
    ensures s.main.Dispatching? ==> Dispatched(c, s) == s.main.next
  {
  }

  lemma PlacedByMain(c: Config, s: State)
    requires MainEnabled(c, s) && Placed(c, s) && Dispatched(c, s) <= |c.jobs|
    ensures Placed(c, MainNext(c, s))
  {
    hide Places, MainNext, MainEnabled, Dispatched;
    DispatchedByMain(c, s);
    forall id: nat ensures Places(MainNext(c, s), id) == if id < Dispatched(c, MainNext(c, s)) then 1 else 0 {
      PlacesByMain(c, s, id);
    }
  }

  lemma PlacedByWorker(c: Config, s: State, w: nat)
    requires w < |s.workers| && WorkerEnabled(c, s, w) && Placed(c, s)
    ensures Placed(c, WorkerNext(c, s, w))
  {
    assert WorkerNext(c, s, w).main == s.main;
    hide Places, WorkerNext, WorkerEnabled;
    forall id: nat ensures Places(WorkerNext(c, s, w), id) == Places(s, id) {
      PlacesByWorker(c, s, w, id);
    }
  }

  lemma CountedByMain(c: Config, s: State)
    requires MainEnabled(c, s) && Counted(c, s)
    ensures Counted(c, MainNext(c, s))
  {
    hide Total;
    match s.main
    case Dispatching(k) => TotalAppend(s.input, ItemIsJob, Work(k));
    case Breaking(k) => TotalAppend(s.input, ItemIsJob, Break);
    case _ =>
  }

  lemma CountedByWorker(c: Config, s: State, w: nat)
    requires w < |s.workers| && WorkerEnabled(c, s, w) && Counted(c, s)
    ensures Counted(c, WorkerNext(c, s, w))
  {
    hide Total;
    TotalUpdate(s.workers, WorkerHasJob, w, WorkerNext(c, s, w).workers[w]);
    if s.workers[w].Waiting? { TotalHead(s.input, ItemIsJob); }
  }

  lemma BreaksByMain(c: Config, s: State)
    requires MainEnabled(c, s) && BreaksConserved(c, s)
    ensures BreaksConserved(c, MainNext(c, s))
  {
    hide Total;
    match s.main
    case Dispatching(k) => TotalAppend(s.input, ItemBreaks, Work(k));
    case Breaking(k) => TotalAppend(s.input, ItemBreaks, Break);
    case _ =>
  }

  lemma BreaksByWorker(c: Config, s: State, w: nat)
    requires BreaksConserved(c, s) && w < |s.workers| && WorkerEnabled(c, s, w)
    ensures BreaksConserved(c, WorkerNext(c, s, w))
  {
    hide Total;
    TotalUpdate(s.workers, WorkerBreaks, w, WorkerNext(c, s, w).workers[w]);
    if s.workers[w].Waiting? { TotalHead(s.input, ItemBreaks); }
  }

  lemma JobsFirstByMain(c: Config, s: State)
    requires MainEnabled(c, s) && JobsFirst(s)
    ensures JobsFirst(MainNext(c, s))
  {
  }

  // The queue is shorter by its first item, which the worker now holds.
  lemma JobsFirstTake(s: State, t: State, w: nat)
    requires JobsFirst(s) && s.input != [] && w < |s.workers|
    requires t.main == s.main && t.input == s.input[1..] && t.workers == s.workers[w := Got(s.input[0])]
    ensures JobsFirst(t)
  {
    assert forall i :: 0 <= i < |t.input| ==> t.input[i] == s.input[i + 1];
  }

  // The queue is the same, and so is what each worker has taken from it.
  lemma JobsFirstKeep(s: State, t: State)
    requires JobsFirst(s) && t.main == s.main && t.input == s.input && |t.workers| == |s.workers|
    requires forall w :: 0 <= w < |s.workers| ==> WorkerBreaks(t.workers[w]) == WorkerBreaks(s.workers[w])
    ensures JobsFirst(t)
  {
    hide WorkerBreaks;
  }

  lemma JobsFirstByWorker(c: Config, s: State, w: nat)
    requires JobsFirst(s) && w < |s.workers| && WorkerEnabled(c, s, w)
    ensures JobsFirst(WorkerNext(c, s, w))
  {
    hide JobsFirst;
    if s.workers[w].Waiting? {
      JobsFirstTake(s, WorkerNext(c, s, w), w);
    } else {
      JobsFirstKeep(s, WorkerNext(c, s, w));
    }
  }

  lemma PhasesByMain(c: Config, s: State)
    requires MainEnabled(c, s) && Phases(c, s)
    ensures Phases(c, MainNext(c, s))
  {
  }

  lemma HonestByMain(c: Config, s: State)
    requires MainEnabled(c, s) && Honest(c, s)
    ensures Honest(c, MainNext(c, s))
  {
  }

  lemma PhasesByWorker(c: Config, s: State, w: nat)
    requires Phases(c, s) && w < |s.workers| && WorkerEnabled(c, s, w)
    ensures Phases(c, WorkerNext(c, s, w))
  {
  }

  lemma HonestByWorker(c: Config, s: State, w: nat)
    requires Honest(c, s) && w < |s.workers| && WorkerEnabled(c, s, w)
    ensures Honest(c, WorkerNext(c, s, w))
  {
  }

  lemma InvInterrupt(c: Config, s: State)
    requires Inv(c, s)
    ensures Inv(c, s.(threadExit := true))
  {
    forall id: nat ensures Places(s.(threadExit := true), id) == Places(s, id) {}
  }

  lemma InvStep(c: Config, s: State, a: Action)
    requires Inv(c, s) && Enabled(c, s, a)
    ensures Inv(c, Next(c, s, a))
  {
    hide Placed, Counted, BreaksConserved, JobsFirst, Phases, Honest, MainEnabled, MainNext, WorkerEnabled, WorkerNext;
    match a
    case MainStep =>
      DispatchedInRange(c, s);
      PlacedByMain(c, s);
      CountedByMain(c, s);
      BreaksByMain(c, s);
      JobsFirstByMain(c, s);
      PhasesByMain(c, s);
      HonestByMain(c, s);
    case WorkerStep(w) =>
      PlacedByWorker(c, s, w);
      CountedByWorker(c, s, w);
      BreaksByWorker(c, s, w);
      JobsFirstByWorker(c, s, w);
      PhasesByWorker(c, s, w);
      HonestByWorker(c, s, w);
    case Interrupt => InvInterrupt(c, s);
  }

  lemma DispatchedInRange(c: Config, s: State)
    requires Counted(c, s)
    ensures Dispatched(c, s) <= |c.jobs|
  {
  }

  // Every state of every run satisfies the invariant.
  lemma {:induction false} AlwaysInv(c: Config, b: seq<State>, acts: seq<Action>, i: nat)
    requires Behaviour(c, b, acts) && i < |b|
    ensures Inv(c, b[i])
  {
    if i == 0 {
      InvInit(c);
    } else {
      AlwaysInv(c, b, acts, i - 1);
      InvStep(c, b[i - 1], acts[i - 1]);
    }
  }

  // ---- Safety: no worker leaves while a job is queued ----

  lemma NoWorkerExitsEarly(c: Config, b: seq<State>, acts: seq<Action>, i: nat, w: nat, k: nat)
    requires Behaviour(c, b, acts) && i < |b| && w < |b[i].workers| && k < |b[i].input|
    requires b[i].workers[w].Exited?
    ensures b[i].input[k] == Break
  {
    AlwaysInv(c, b, acts, i);
  }

  // ---- Progress: no reachable state is stuck ----

  // A job held somewhere is a dispatched one.
  lemma PlacedInRange(c: Config, s: State, id: nat)
    requires Placed(c, s) && Counted(c, s) && Places(s, id) > 0
    ensures id < |c.jobs|
  {
  }

  lemma HeldInRange(c: Config, s: State, w: nat, id: nat)
    requires Placed(c, s) && Counted(c, s) && w < |s.workers| && JobOf(s.workers[w]) == [id]
    ensures id < |c.jobs|
  {
    hide Placed, Counted;
    TotalPositive(s.workers, WorkerHas(id));
    assert WorkerHas(id)(s.workers[w]) > 0;
    PlacedInRange(c, s, id);
  }

  lemma NoneWaiting(c: Config, s: State)
    requires Counted(c, s) && BreaksConserved(c, s) && JobsFirst(s) && Phases(c, s) && c.processors > 0
    requires forall w :: 0 <= w < |s.workers| ==> s.workers[w].Waiting? || s.workers[w].Exited?
    requires s.input == [] || forall w :: 0 <= w < |s.workers| ==> s.workers[w].Exited?
    requires s.output == []
    ensures s.main.Collecting? ==> |s.collected| == |c.jobs|
    ensures !s.main.Dispatching? && !s.main.Breaking? ==> forall w :: 0 <= w < |s.workers| ==> s.workers[w].Exited?
  {
    forall w | 0 <= w < |s.workers| ensures WorkerHasJob(s.workers[w]) == 0 {}
    TotalPositive(s.workers, WorkerHasJob);
    TotalPositive(s.input, ItemIsJob);
    TotalPositive(s.input, ItemBreaks);
    if s.input != [] {
      assert WorkerBreaks(s.workers[0]) == 1;
    }
    if !s.main.Dispatching? && !s.main.Breaking? && s.input == [] {
      AllBreaks(s.workers);
    }
  }

  // If as many workers as there are have taken a break, all have.
  lemma {:induction false} AllBreaks(ws: seq<Worker>)
    ensures Total(ws, WorkerBreaks) <= |ws|
    ensures Total(ws, WorkerBreaks) == |ws| ==> forall w :: 0 <= w < |ws| ==> WorkerBreaks(ws[w]) == 1
  {
    if ws != [] { AllBreaks(ws[..|ws| - 1]); }
  }

  lemma NeverStuck(c: Config, s: State) returns (a: Action)
    requires Inv(c, s) && c.processors > 0 && !s.main.Done?
    ensures Enabled(c, s, a) && a != Interrupt
  {
    if w :| 0 <= w < |s.workers| && !s.workers[w].Waiting? && !s.workers[w].Exited? {
      a := WorkerStep(w);
      if s.workers[w].Got? && s.workers[w].item.Work? {
        HeldInRange(c, s, w, s.workers[w].item.id);
      }
    } else if w :| 0 <= w < |s.workers| && s.workers[w].Waiting? && s.input != [] {
      a := WorkerStep(w);
    } else {
      a := MainStep;
      if s.output == [] { NoneWaiting(c, s); }
    }
  }

  // ---- Termination: every step uses up some of a bounded amount of work ----

  function ItemWork(x: Item): nat { if x.Work? then 4 else 2 }

  function WorkerWork(x: Worker): nat {
    match x
    case Got(Work(_)) => 3
    case Got(Break) => 1
    case Running(_) => 2
    case Putting(_) => 1
    case _ => 0
  }

  function MainWork(c: Config, s: State): int {
    var n, p := |c.jobs|, c.processors;
    match s.main
    case Dispatching(k) => 5 * (n - k) + 3 * p + n + p + 4
    case Breaking(k) => 3 * (p - k) + n + p + 3
    case Collecting => (n - |s.collected|) + p + 2
    case Joining(k) => p - k + 1
    case Done => 0
  }

  ghost function Rank(c: Config, s: State): int {
    MainWork(c, s) + Total(s.input, ItemWork) + Total(s.workers, WorkerWork) + if s.threadExit then 0 else 1
  }

  lemma RankByMain(c: Config, s: State)
    requires Inv(c, s) && MainEnabled(c, s)
    ensures Rank(c, MainNext(c, s)) < Rank(c, s)
  {
    hide Total;
    hide Placed, JobsFirst, Honest;
    match s.main
    case Dispatching(k) => TotalAppend(s.input, ItemWork, Work(k));
    case Breaking(k) => TotalAppend(s.input, ItemWork, Break);
    case _ =>
  }

  lemma RankByWorker(c: Config, s: State, w: nat)
    requires w < |s.workers| && WorkerEnabled(c, s, w)
    ensures Rank(c, WorkerNext(c, s, w)) < Rank(c, s)
  {
    hide Total;
    TotalUpdate(s.workers, WorkerWork, w, WorkerNext(c, s, w).workers[w]);
    if s.workers[w].Waiting? { TotalHead(s.input, ItemWork); }
  }

  lemma RankDrops(c: Config, s: State, a: Action)
    requires Inv(c, s) && Enabled(c, s, a)
    ensures 0 <= Rank(c, Next(c, s, a)) < Rank(c, s)
  {
    InvStep(c, s, a);
    RankNonNegative(c, Next(c, s, a));
    match a
    case MainStep => RankByMain(c, s);
    case WorkerStep(w) => RankByWorker(c, s, w);
    case Interrupt =>
  }

  lemma RankNonNegative(c: Config, s: State)
    requires Inv(c, s)
    ensures Rank(c, s) >= 0
  {
    hide Placed, JobsFirst, Honest;
  }

  // No run, whatever the interleaving and the interrupt, is longer than the initial rank.
  lemma {:induction false} RunsAreBounded(c: Config, b: seq<State>, acts: seq<Action>)
    requires Behaviour(c, b, acts)
    ensures |acts| + Rank(c, b[|b| - 1]) <= 6 * |c.jobs| + 4 * c.processors + 5
    ensures Rank(c, b[|b| - 1]) >= 0
    decreases |acts|
  {
    hide Rank, Inv, Enabled, Next;
    if acts == [] {
      RankInit(c);
    } else {
      var k := |acts| - 1;
      RunsAreBounded(c, b[..k + 1], acts[..k]);
      AlwaysInv(c, b, acts, k);
      RankDrops(c, b[k], acts[k]);
    }
  }

  lemma RankInit(c: Config)
    ensures 0 <= Rank(c, Init(c)) <= 6 * |c.jobs| + 4 * c.processors + 5
  {
    AllWaiting(Init(c).workers, WorkerWork);
  }

  // ---- The end of a run ----

  // When main is done, all workers have returned, both queues are empty, and every job was collected once.
  lemma DoneMeansAllCollected(c: Config, s: State)
    requires Inv(c, s) && c.processors > 0 && s.main.Done?
    ensures forall w :: 0 <= w < |s.workers| ==> s.workers[w].Exited?
    ensures s.input == [] && s.output == [] && |s.collected| == |c.jobs|
    ensures forall id: nat :: Total(s.collected, ReportOf(id)) == if id < |c.jobs| then 1 else 0
  {
    AllExitedBreaks(s.workers);
    assert forall w :: 0 <= w < |s.workers| ==> WorkerBreaks(s.workers[w]) == 1;
    TotalPositive(s.input, ItemBreaks);
    assert s.input == [];
    forall id: nat ensures Total(s.collected, ReportOf(id)) == if id < |c.jobs| then 1 else 0 {
      assert Places(s, id) == if id < |c.jobs| then 1 else 0;
      forall w | 0 <= w < |s.workers| ensures WorkerHas(id)(s.workers[w]) == 0 {}
      TotalPositive(s.workers, WorkerHas(id));
    }
  }

  lemma {:induction false} AllExitedBreaks(ws: seq<Worker>)
    requires forall w :: 0 <= w < |ws| ==> ws[w].Exited?
    ensures Total(ws, WorkerBreaks) == |ws|
  {
    if ws != [] { AllExitedBreaks(ws[..|ws| - 1]); }
  }
}
