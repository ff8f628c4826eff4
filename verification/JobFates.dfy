/** What becomes of each job in a run of the worker pool: whether it was run, skipped or broken by the interrupt. */
module JobFates {
  import opened WorkerPool

  // Step i: worker w, which has taken the job from the queue, decides what to do with it.
  ghost predicate Decides(b: seq<State>, acts: seq<Action>, i: nat, w: nat, id: nat) {
    && i < |acts| && |b| == |acts| + 1 && acts[i] == WorkerStep(w)
    && w < |b[i].workers| && b[i].workers[w] == Got(Work(id))
  }

  // In state i, worker w runs the job.
  ghost predicate Runs(b: seq<State>, i: nat, w: nat, id: nat) {
    i < |b| && w < |b[i].workers| && b[i].workers[w] == Running(id)
  }

  /** The flag decides first, then the skip mark: a job is broken, passed on, or run. */
  lemma Decision(c: Config, b: seq<State>, acts: seq<Action>, i: nat, w: nat, id: nat)
    requires Behaviour(c, b, acts) && Decides(b, acts, i, w, id)
    ensures id < |c.jobs| && w < |b[i + 1].workers|
    ensures b[i].threadExit ==> b[i + 1].workers[w] == Putting(Report(id, true))
    ensures !b[i].threadExit && c.jobs[id].isSkip ==> b[i + 1].workers[w] == Putting(Report(id, false))
    ensures !b[i].threadExit && !c.jobs[id].isSkip ==> b[i + 1].workers[w] == Running(id)
  {
    assert Enabled(c, b[i], acts[i]) && b[i + 1] == Next(c, b[i], acts[i]);
  }

  // ---- Where a decided job can be ----

  // The job is being run, or its report is on the way; flag says whether the interrupt was seen.
  ghost predicate Fate(c: Config, s: State, id: nat, flag: bool) {
    || (!flag && exists w :: 0 <= w < |s.workers| && s.workers[w] == Running(id))
    || (exists w :: 0 <= w < |s.workers| && s.workers[w] == Putting(Report(id, flag)))
    || Report(id, flag) in s.output
    || Report(id, flag) in s.collected
  }

  lemma FateByMain(c: Config, s: State, id: nat, flag: bool)
    requires MainEnabled(c, s) && Fate(c, s, id, flag)
    ensures Fate(c, MainNext(c, s), id, flag)
  {
    var t := MainNext(c, s);
    assert t.workers == s.workers;
    if Report(id, flag) in s.collected {
      assert Report(id, flag) in t.collected;
    } else if Report(id, flag) in s.output && s.main.Collecting? && |s.collected| < |c.jobs| {
      assert s.output == [s.output[0]] + s.output[1..];
      assert Report(id, flag) in t.output || t.collected[|t.collected| - 1] == Report(id, flag);
    }
  }

  lemma FateByWorker(c: Config, s: State, v: nat, id: nat, flag: bool)
    requires v < |s.workers| && WorkerEnabled(c, s, v) && Fate(c, s, id, flag)
    ensures Fate(c, WorkerNext(c, s, v), id, flag)
  {
    var t := WorkerNext(c, s, v);
    if Report(id, flag) in s.output || Report(id, flag) in s.collected {
      assert Report(id, flag) in t.output || Report(id, flag) in t.collected;
    } else if w :| 0 <= w < |s.workers| && s.workers[w] == Putting(Report(id, flag)) {
      if w != v { assert t.workers[w] == s.workers[w]; }
    } else {
      var w :| 0 <= w < |s.workers| && s.workers[w] == Running(id);
      if w == v { assert t.workers[w] == Putting(Report(id, flag)); } else { assert t.workers[w] == s.workers[w]; }
    }
  }

  lemma {:induction false} FateKept(c: Config, b: seq<State>, acts: seq<Action>, i: nat, n: nat, id: nat, flag: bool)
    requires Behaviour(c, b, acts) && i <= n < |b| && Fate(c, b[i], id, flag)
    ensures Fate(c, b[n], id, flag)
    decreases n
  {
    if i < n {
      FateKept(c, b, acts, i, n - 1, id, flag);
      var s, a := b[n - 1], acts[n - 1];
      assert Enabled(c, s, a) && b[n] == Next(c, s, a);
      hide Behaviour, MainEnabled, MainNext, WorkerEnabled, WorkerNext;
      match a
      case MainStep => FateByMain(c, s, id, flag);
      case WorkerStep(v) => FateByWorker(c, s, v, id, flag);
      case Interrupt =>
    }
  }

  lemma DecisionFate(c: Config, b: seq<State>, acts: seq<Action>, i: nat, w: nat, id: nat)
    requires Behaviour(c, b, acts) && Decides(b, acts, i, w, id)
    ensures Fate(c, b[i + 1], id, b[i].threadExit)
  {
    Decision(c, b, acts, i, w, id);
  }

  lemma FateAtEnd(c: Config, s: State, id: nat, flag: bool)
    requires Inv(c, s) && c.processors > 0 && s.main.Done? && Fate(c, s, id, flag)
    ensures Report(id, flag) in s.collected
  {
    DoneMeansAllCollected(c, s);
  }

  // ---- Where each report came from ----

  // Every report there is was decided by one of the first n steps, with the flag it says; an unbroken
  // report of a job that is not skipped was run.
  ghost predicate Explained(c: Config, b: seq<State>, acts: seq<Action>, n: nat, r: Report) {
    && WasDecided(b, acts, n, r.id, r.broken)
    && (!r.broken && r.id < |c.jobs| && !c.jobs[r.id].isSkip ==> WasRun(b, n, r.id))
  }

  ghost predicate WasDecided(b: seq<State>, acts: seq<Action>, n: nat, id: nat, flag: bool) {
    exists i: nat, w: nat :: i < n && Decides(b, acts, i, w, id) && b[i].threadExit == flag
  }

  ghost predicate WasRun(b: seq<State>, n: nat, id: nat) {
    exists i: nat, w: nat :: i < n && Runs(b, i, w, id)
  }

  ghost predicate AllExplained(c: Config, b: seq<State>, acts: seq<Action>, n: nat)
    requires n < |b|
  {
    var s := b[n];
    && (forall w :: 0 <= w < |s.workers| && s.workers[w].Running? ==> WasDecided(b, acts, n, s.workers[w].id, false))
    && (forall w :: 0 <= w < |s.workers| && s.workers[w].Putting? ==> Explained(c, b, acts, n, s.workers[w].report))
    && (forall k :: 0 <= k < |s.output| ==> Explained(c, b, acts, n, s.output[k]))
    && (forall k :: 0 <= k < |s.collected| ==> Explained(c, b, acts, n, s.collected[k]))
  }

  lemma ExplainedOn(c: Config, b: seq<State>, acts: seq<Action>, n: nat, r: Report)
    requires Explained(c, b, acts, n, r)
    ensures Explained(c, b, acts, n + 1, r)
  {
    DecidedOn(b, acts, n, r.id, r.broken);
    hide WasDecided;
    if WasRun(b, n, r.id) {
      var i: nat, w: nat :| i < n && Runs(b, i, w, r.id);
      assert i < n + 1 && Runs(b, i, w, r.id);
    }
  }

  lemma DecidedOn(b: seq<State>, acts: seq<Action>, n: nat, id: nat, flag: bool)
    requires WasDecided(b, acts, n, id, flag)
    ensures WasDecided(b, acts, n + 1, id, flag)
  {
    var i: nat, w: nat :| i < n && Decides(b, acts, i, w, id) && b[i].threadExit == flag;
    assert i < n + 1 && Decides(b, acts, i, w, id);
  }

  // What worker w holds after a step was explained before, or is by this step.
  lemma WorkerExplained(c: Config, b: seq<State>, acts: seq<Action>, n: nat, w: nat)
    requires Behaviour(c, b, acts) && n < |acts| && AllExplained(c, b, acts, n) && w < |b[n + 1].workers|
    ensures b[n + 1].workers[w].Running? ==> WasDecided(b, acts, n + 1, b[n + 1].workers[w].id, false)
    ensures b[n + 1].workers[w].Putting? ==> Explained(c, b, acts, n + 1, b[n + 1].workers[w].report)
  {
    var s, t := b[n], b[n + 1];
    assert Enabled(c, s, acts[n]) && t == Next(c, s, acts[n]) && |t.workers| == |s.workers|;
    hide Behaviour, Explained, WasDecided;
    if t.workers[w] == s.workers[w] {
      if s.workers[w].Running? { DecidedOn(b, acts, n, s.workers[w].id, false); }
      if s.workers[w].Putting? { ExplainedOn(c, b, acts, n, s.workers[w].report); }
    } else if s.workers[w].Running? {
      DecidedOn(b, acts, n, s.workers[w].id, false);
      NowRun(c, b, acts, n, w);
    } else if s.workers[w].Got? && s.workers[w].item.Work? {
      NowDecided(b, acts, n, w, s.workers[w].item.id);
      if t.workers[w].Putting? { ExplainedNow(c, b, acts, n + 1, t.workers[w].report); }
    }
  }

  lemma NowDecided(b: seq<State>, acts: seq<Action>, n: nat, w: nat, id: nat)
    requires Decides(b, acts, n, w, id)
    ensures WasDecided(b, acts, n + 1, id, b[n].threadExit)
  {
  }

  lemma ExplainedNow(c: Config, b: seq<State>, acts: seq<Action>, n: nat, r: Report)
    requires WasDecided(b, acts, n, r.id, r.broken) && (!r.broken && r.id < |c.jobs| ==> c.jobs[r.id].isSkip)
    ensures Explained(c, b, acts, n, r)
  {
  }

  lemma NowRun(c: Config, b: seq<State>, acts: seq<Action>, n: nat, w: nat)
    requires n < |b| && w < |b[n].workers| && b[n].workers[w].Running?
    requires WasDecided(b, acts, n + 1, b[n].workers[w].id, false)
    ensures Explained(c, b, acts, n + 1, Report(b[n].workers[w].id, false))
  {
    assert Runs(b, n, w, b[n].workers[w].id);
  }

  lemma QueuesExplained(c: Config, b: seq<State>, acts: seq<Action>, n: nat, r: Report)
    requires Behaviour(c, b, acts) && n < |acts| && AllExplained(c, b, acts, n)
    requires r in b[n + 1].output || r in b[n + 1].collected
    ensures Explained(c, b, acts, n + 1, r)
  {
    var s, t := b[n], b[n + 1];
    assert Enabled(c, s, acts[n]) && t == Next(c, s, acts[n]);
    assert r in s.output || r in s.collected || exists w :: 0 <= w < |s.workers| && s.workers[w] == Putting(r);
    hide Behaviour, Explained, WasDecided;
    ExplainedOn(c, b, acts, n, r);
  }

  lemma ExplainedStep(c: Config, b: seq<State>, acts: seq<Action>, n: nat)
    requires Behaviour(c, b, acts) && n < |acts| && AllExplained(c, b, acts, n)
    ensures n + 1 < |b| && AllExplained(c, b, acts, n + 1)
  {
    assert |b| == |acts| + 1;
    hide Behaviour, Explained, WasDecided;
    var m := n + 1;
    var t := b[m];
    forall w | 0 <= w < |t.workers|
      ensures t.workers[w].Running? ==> WasDecided(b, acts, m, t.workers[w].id, false)
      ensures t.workers[w].Putting? ==> Explained(c, b, acts, m, t.workers[w].report)
    {
      WorkerExplained(c, b, acts, n, w);
    }
    forall r | r in t.output || r in t.collected ensures Explained(c, b, acts, m, r) {
      QueuesExplained(c, b, acts, n, r);
    }
  }

  lemma {:induction false} AlwaysExplained(c: Config, b: seq<State>, acts: seq<Action>, n: nat)
    requires Behaviour(c, b, acts) && n < |b|
    ensures AllExplained(c, b, acts, n)
  {
    if n > 0 {
      AlwaysExplained(c, b, acts, n - 1);
      hide AllExplained;
      ExplainedStep(c, b, acts, n - 1);
    }
  }

  // ---- Main results ----

  /**
   * Every collected report was decided by a step that saw the flag as the report says, and no unbroken
   * report of a job that is not skipped is collected unless some worker ran the job.
   */
  lemma CollectedWasDecided(c: Config, b: seq<State>, acts: seq<Action>, r: Report)
    requires Behaviour(c, b, acts) && r in b[|b| - 1].collected
    ensures WasDecided(b, acts, |acts|, r.id, r.broken)
    ensures !r.broken && r.id < |c.jobs| && !c.jobs[r.id].isSkip ==> WasRun(b, |acts|, r.id)
  {
    assert |b| == |acts| + 1;
    AlwaysExplained(c, b, acts, |acts|);
    hide Behaviour, WasDecided, WasRun;
    var k :| 0 <= k < |b[|acts|].collected| && b[|acts|].collected[k] == r;
    assert Explained(c, b, acts, |acts|, r);
  }

  lemma {:induction false} TwoReports(s: seq<Report>, r: Report, r': Report)
    requires r in s && r' in s && r != r' && r.id == r'.id
    ensures Total(s, ReportOf(r.id)) >= 2
  {
    var k := |s| - 1;
    var f := ReportOf(r.id);
    if r in s[..k] && r' in s[..k] {
      TwoReports(s[..k], r, r');
    } else {
      assert s == s[..k] + [s[k]];
      TotalPositive(s[..k], f);
      var q := if r in s[..k] then r else r';
      var i :| 0 <= i < k && s[..k][i] == q;
      assert f(s[..k][i]) > 0;
    }
  }

  /**
   * At the end of a run, the report of a decided job is broken exactly if the interrupt flag was up
   * when its worker decided.
   */
  lemma BrokenIffInterrupted(c: Config, b: seq<State>, acts: seq<Action>, i: nat, w: nat, r: Report)
    requires Behaviour(c, b, acts) && c.processors > 0 && b[|b| - 1].main.Done? && Decides(b, acts, i, w, r.id)
    ensures r in b[|b| - 1].collected <==> r.broken == b[i].threadExit
  {
    var n, flag := |b| - 1, b[i].threadExit;
    assert |b| == |acts| + 1;
    DecisionFate(c, b, acts, i, w, r.id);
    FateKept(c, b, acts, i + 1, n, r.id, flag);
    AlwaysInv(c, b, acts, n);
    hide Inv, Behaviour, Fate;
    FateAtEnd(c, b[n], r.id, flag);
    if r in b[n].collected && r.broken != flag {
      DoneMeansAllCollected(c, b[n]);
      TwoReports(b[n].collected, r, Report(r.id, flag));
    }
  }
}
