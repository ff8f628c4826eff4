/** The results of a test.py run: the counters, the sorted name lists and the exit status. */
module TestSummary {
  import opened WorkerPool
  import opened JobFates

  // ---- One report ----

  predicate JobsExist(c: Config, reports: seq<Report>) {
    forall i :: 0 <= i < |reports| ==> reports[i].id < |c.jobs|
  }

  function OutcomeOf(c: Config, r: Report): Outcome {
    if r.broken || r.id >= |c.jobs| then Broken
    else if c.jobs[r.id].isSkip then Skipped
    else if c.jobs[r.id].returnCode == 0 then Passed
    else if c.jobs[r.id].returnCode == 1 then Failed
    else if c.jobs[r.id].returnCode == 2 then Valgrind
    else Crashed
  }

  // The name under which a report is listed.
  function ListedName(c: Config, r: Report): string {
    if r.id >= |c.jobs| then ""
    else if c.jobs[r.id].isSkip then c.jobs[r.id].name + " (" + c.jobs[r.id].skipReason + ")"
    else c.jobs[r.id].name
  }

  // ---- Sums over all reports ----

  function Has(c: Config, o: Outcome): Report -> nat { (r: Report) => if OutcomeOf(c, r) == o then 1 else 0 }

  function HasNamed(c: Config, o: Outcome, name: string): Report -> nat {
    (r: Report) => if OutcomeOf(c, r) == o && ListedName(c, r) == name then 1 else 0
  }

  function IsReport(x: Report): Report -> nat { (r: Report) => if r == x then 1 else 0 }

  ghost function Count(c: Config, reports: seq<Report>, o: Outcome): nat {
    Total(reports, Has(c, o))
  }

  ghost function Names(c: Config, reports: seq<Report>, o: Outcome): seq<string> {
    if reports == [] then [] else
      var r := reports[|reports| - 1];
      Names(c, reports[..|reports| - 1], o) + if OutcomeOf(c, r) == o then [ListedName(c, r)] else []
  }

  // ---- Sorting ----

  predicate LexLeq(a: string, b: string) {
    a == [] || (b != [] && (a[0] < b[0] || (a[0] == b[0] && LexLeq(a[1..], b[1..]))))
  }

  lemma {:induction false} LexTotal(a: string, b: string)
    ensures LexLeq(a, b) || LexLeq(b, a)
    ensures LexLeq(a, b) && LexLeq(b, a) ==> a == b
  {
    if a != [] && b != [] && a[0] == b[0] {
      LexTotal(a[1..], b[1..]);
      assert a == [a[0]] + a[1..] && b == [b[0]] + b[1..];
    }
  }

  lemma {:induction false} LexTransitive(a: string, b: string, d: string)
    requires LexLeq(a, b) && LexLeq(b, d)
    ensures LexLeq(a, d)
  {
    if a != [] && a[0] == b[0] && b[0] == d[0] {
      LexTransitive(a[1..], b[1..], d[1..]);
    }
  }

  predicate Sorted(s: seq<string>) {
    forall i, j :: 0 <= i < j < |s| ==> LexLeq(s[i], s[j])
  }

  function Insert(x: string, s: seq<string>): seq<string> {
    if s == [] then [x] else if LexLeq(x, s[0]) then [x] + s else [s[0]] + Insert(x, s[1..])
  }

  function Sort(s: seq<string>): seq<string> {
    if s == [] then [] else Insert(s[0], Sort(s[1..]))
  }

  lemma {:induction false} InsertHolds(x: string, s: seq<string>)
    ensures multiset(Insert(x, s)) == multiset(s) + multiset{x}
  {
    hide LexLeq;
    if s != [] && !LexLeq(x, s[0]) {
      InsertHolds(x, s[1..]);
      assert s == [s[0]] + s[1..];
    }
  }

  predicate AllFrom(x: string, s: seq<string>) {
    forall j :: 0 <= j < |s| ==> LexLeq(x, s[j])
  }

  lemma SortedCons(x: string, s: seq<string>)
    requires Sorted(s) && AllFrom(x, s)
    ensures Sorted([x] + s)
  {
    hide LexLeq;
  }

  lemma SortedParts(s: seq<string>)
    requires Sorted(s) && s != []
    ensures AllFrom(s[0], s[1..]) && Sorted(s[1..])
  {
    hide LexLeq;
  }

  lemma AllFromInsert(h: string, x: string, s: seq<string>)
    requires AllFrom(h, s) && LexLeq(h, x)
    ensures AllFrom(h, Insert(x, s))
  {
    InsertHolds(x, s);
    hide LexLeq, Insert;
    var t := Insert(x, s);
    forall j | 0 <= j < |t| ensures LexLeq(h, t[j]) {
      assert t[j] in multiset(t);
      assert t[j] == x || t[j] in s;
    }
  }

  lemma {:induction false} InsertSorted(x: string, s: seq<string>)
    requires Sorted(s)
    ensures Sorted(Insert(x, s))
  {
    hide LexLeq, Sorted, AllFrom;
    if s == [] {
      SingleSorted(x);
    } else if LexLeq(x, s[0]) {
      BelowHead(x, s);
      SortedCons(x, s);
    } else {
      LexTotal(x, s[0]);
      SortedParts(s);
      InsertSorted(x, s[1..]);
      AllFromInsert(s[0], x, s[1..]);
      SortedCons(s[0], Insert(x, s[1..]));
    }
  }

  lemma SingleSorted(x: string)
    ensures Sorted([x])
  {
  }

  lemma BelowHead(x: string, s: seq<string>)
    requires Sorted(s) && s != [] && LexLeq(x, s[0])
    ensures AllFrom(x, s)
  {
    hide LexLeq;
    forall j | 0 <= j < |s| ensures LexLeq(x, s[j]) {
      if j > 0 { LexTransitive(x, s[0], s[j]); }
    }
  }

  lemma {:induction false} SortSorts(s: seq<string>)
    ensures multiset(Sort(s)) == multiset(s) && Sorted(Sort(s))
  {
    if s != [] {
      SortSorts(s[1..]);
      InsertSorted(s[0], Sort(s[1..]));
      InsertHolds(s[0], Sort(s[1..]));
      assert s == [s[0]] + s[1..];
    }
  }

  lemma HeadIsLeast(a: seq<string>, x: string)
    requires Sorted(a) && x in a
    ensures LexLeq(a[0], x)
  {
    var i :| 0 <= i < |a| && a[i] == x;
    if i == 0 { LexTotal(x, x); }
  }

  lemma MultisetRemove<T>(s: seq<T>, i: nat)
    requires i < |s|
    ensures multiset(s[..i] + s[i + 1..]) == multiset(s) - multiset{s[i]}
  {
    assert s == s[..i] + [s[i]] + s[i + 1..];
  }

  lemma SameHead(a: seq<string>, b: seq<string>)
    requires Sorted(a) && Sorted(b) && multiset(a) == multiset(b) && a != [] && b != []
    ensures a[0] == b[0]
  {
    assert a[0] in multiset(b) && b[0] in multiset(a);
    HeadIsLeast(a, b[0]);
    HeadIsLeast(b, a[0]);
    LexTotal(a[0], b[0]);
  }

  lemma DropHead<T>(a: seq<T>)
    requires a != []
    ensures multiset(a[1..]) == multiset(a) - multiset{a[0]} && a == [a[0]] + a[1..]
  {
    assert a == [a[0]] + a[1..];
  }

  lemma {:induction false} SortedUnique(a: seq<string>, b: seq<string>)
    requires Sorted(a) && Sorted(b) && multiset(a) == multiset(b)
    ensures a == b
  {
    hide LexLeq;
    assert |a| == |multiset(a)| == |multiset(b)| == |b|;
    if a != [] {
      SameHead(a, b);
      DropHead(a);
      DropHead(b);
      SortedParts(a);
      SortedParts(b);
      hide Sorted;
      SortedUnique(a[1..], b[1..]);
    }
  }

  // ---- The loop over output_queue.get() ----

  datatype Summary = Summary(passed: nat, failed: nat, crashed: nat, valgrind: nat, skipped: nat,
                             failedNames: seq<string>, crashedNames: seq<string>,
                             valgrindNames: seq<string>, skippedNames: seq<string>, status: int)

  // The summary of a list of reports, for a run that dispatched total tests.
  ghost predicate Summarises(c: Config, reports: seq<Report>, total: nat, s: Summary) {
    && s.passed == Count(c, reports, Passed) && s.failed == Count(c, reports, Failed)
    && s.crashed == Count(c, reports, Crashed) && s.valgrind == Count(c, reports, Valgrind)
    && s.skipped == Count(c, reports, Skipped)
    && s.failedNames == Sort(Names(c, reports, Failed)) && s.crashedNames == Sort(Names(c, reports, Crashed))
    && s.valgrindNames == Sort(Names(c, reports, Valgrind)) && s.skippedNames == Sort(Names(c, reports, Skipped))
    && s.status == if s.passed + s.skipped == total then 0 else 1
  }

  ghost predicate Tallied(c: Config, reports: seq<Report>, s: Summary) {
    && s.passed == Count(c, reports, Passed) && s.failed == Count(c, reports, Failed)
    && s.crashed == Count(c, reports, Crashed) && s.valgrind == Count(c, reports, Valgrind)
    && s.skipped == Count(c, reports, Skipped)
    && s.failedNames == Names(c, reports, Failed) && s.crashedNames == Names(c, reports, Crashed)
    && s.valgrindNames == Names(c, reports, Valgrind) && s.skippedNames == Names(c, reports, Skipped)
  }

  lemma CountNext(c: Config, reports: seq<Report>, r: Report, o: Outcome)
    ensures Count(c, reports + [r], o) == Count(c, reports, o) + if OutcomeOf(c, r) == o then 1 else 0
    ensures Names(c, reports + [r], o) == Names(c, reports, o) + if OutcomeOf(c, r) == o then [ListedName(c, r)] else []
  {
    TotalAppend(reports, Has(c, o), r);
    assert (reports + [r])[..|reports|] == reports;
  }

  // One report, in the source's order of tests; a broken job is ignored.
  method Tally(c: Config, r: Report, s: Summary, ghost reports: seq<Report>) returns (s': Summary)
    requires r.id < |c.jobs| && Tallied(c, reports, s)
    ensures Tallied(c, reports + [r], s') && s'.status == s.status
  {
    hide Count, Names;
    CountNext(c, reports, r, Passed);
    CountNext(c, reports, r, Failed);
    CountNext(c, reports, r, Crashed);
    CountNext(c, reports, r, Valgrind);
    CountNext(c, reports, r, Skipped);
    var job := c.jobs[r.id];
    s' := s;
    if r.broken {
      return;
    }
    if job.isSkip {
      s' := s.(skipped := s.skipped + 1, skippedNames := s.skippedNames + [job.name + " (" + job.skipReason + ")"]);
    } else if job.returnCode == 0 {
      s' := s.(passed := s.passed + 1);
    } else if job.returnCode == 1 {
      s' := s.(failed := s.failed + 1, failedNames := s.failedNames + [job.name]);
    } else if job.returnCode == 2 {
      s' := s.(valgrind := s.valgrind + 1, valgrindNames := s.valgrindNames + [job.name]);
    } else {
      s' := s.(crashed := s.crashed + 1, crashedNames := s.crashedNames + [job.name]);
    }
  }

  method CollectResults(c: Config, reports: seq<Report>) returns (s: Summary)
    requires JobsExist(c, reports)
    ensures Summarises(c, reports, |c.jobs|, s)
  {
    hide Count, Names, Sort;
    NothingTallied(c);
    s := Summary(0, 0, 0, 0, 0, [], [], [], [], 1);
    for i := 0 to |reports|
      invariant Tallied(c, reports[..i], s)
    {
      s := Tally(c, reports[i], s, reports[..i]);
      assert reports[..i] + [reports[i]] == reports[..i + 1];
    }
    assert reports[..|reports|] == reports;
    s := s.(skippedNames := Sort(s.skippedNames), failedNames := Sort(s.failedNames));
    s := s.(crashedNames := Sort(s.crashedNames), valgrindNames := Sort(s.valgrindNames));
    s := s.(status := if s.passed + s.skipped == |c.jobs| then 0 else 1);
  }

  lemma NothingTallied(c: Config)
    ensures Tallied(c, [], Summary(0, 0, 0, 0, 0, [], [], [], [], 1))
  {
  }

  // ---- The counters add up, interrupted or not ----

  lemma {:induction false} OutcomesAddUp(c: Config, reports: seq<Report>)
    ensures Count(c, reports, Passed) + Count(c, reports, Failed) + Count(c, reports, Valgrind)
      + Count(c, reports, Crashed) + Count(c, reports, Skipped) + Count(c, reports, Broken) == |reports|
  {
    if reports != [] {
      OutcomesAddUp(c, reports[..|reports| - 1]);
    }
  }

  lemma {:induction false} AllGood(c: Config, reports: seq<Report>)
    ensures Count(c, reports, Passed) + Count(c, reports, Skipped) == |reports| <==>
      forall i :: 0 <= i < |reports| ==> OutcomeOf(c, reports[i]) == Passed || OutcomeOf(c, reports[i]) == Skipped
  {
    OutcomesAddUp(c, reports);
    if reports != [] {
      var rest := reports[..|reports| - 1];
      AllGood(c, rest);
      OutcomesAddUp(c, rest);
    }
  }

  // Neither broken, nor failed in any way.
  predicate Good(c: Config, r: Report) {
    !r.broken && r.id < |c.jobs| && (c.jobs[r.id].isSkip || c.jobs[r.id].returnCode == 0)
  }

  predicate AllAreGood(c: Config, reports: seq<Report>) {
    forall i :: 0 <= i < |reports| ==> Good(c, reports[i])
  }

  lemma GoodOutcome(c: Config, r: Report)
    ensures Good(c, r) <==> OutcomeOf(c, r) == Passed || OutcomeOf(c, r) == Skipped
  {
  }

  lemma StatusOfReports(c: Config, reports: seq<Report>, sum: Summary)
    requires Summarises(c, reports, |c.jobs|, sum) && |reports| == |c.jobs|
    ensures sum.passed + sum.failed + sum.valgrind + sum.crashed + sum.skipped + Count(c, reports, Broken) == |c.jobs|
    ensures sum.status == 0 <==> AllAreGood(c, reports)
  {
    hide Count, Names, Sort, OutcomeOf, Good;
    OutcomesAddUp(c, reports);
    AllGood(c, reports);
    forall i | 0 <= i < |reports|
      ensures Good(c, reports[i]) <==> OutcomeOf(c, reports[i]) == Passed || OutcomeOf(c, reports[i]) == Skipped
    {
      GoodOutcome(c, reports[i]);
    }
  }

  // However the run was interleaved and interrupted: the counters add up to the number of tests, and the
  // status is 0 exactly if no job was broken and every job passed or was skipped.
  lemma StatusIsZeroIffAllGood(c: Config, s: State, sum: Summary)
    requires Inv(c, s) && c.processors > 0 && s.main.Done? && Summarises(c, s.collected, |c.jobs|, sum)
    ensures sum.passed + sum.failed + sum.valgrind + sum.crashed + sum.skipped + Count(c, s.collected, Broken) == |c.jobs|
    ensures sum.status == 0 <==> AllAreGood(c, s.collected)
  {
    hide Inv, Count, Summarises, Good;
    DoneMeansAllCollected(c, s);
    StatusOfReports(c, s.collected, sum);
  }

  // ---- Without an interrupt the run agrees with a sequential one ----

  function Sequential(n: nat): seq<Report> {
    seq(n, i requires 0 <= i < n => Report(i, false))
  }

  lemma {:induction false} Multiplicity(s: seq<Report>, x: Report)
    ensures multiset(s)[x] == Total(s, IsReport(x))
  {
    if s != [] {
      Multiplicity(s[..|s| - 1], x);
      assert s == s[..|s| - 1] + [s[|s| - 1]];
    }
  }

  lemma {:induction false} SequentialOnce(n: nat, x: Report)
    ensures Total(Sequential(n), IsReport(x)) == if x.id < n && !x.broken then 1 else 0
  {
    if n > 0 {
      SequentialOnce(n - 1, x);
      assert Sequential(n)[..n - 1] == Sequential(n - 1);
    }
  }

  lemma {:induction false} UnbrokenOnce(s: seq<Report>, x: Report)
    requires forall i :: 0 <= i < |s| ==> !s[i].broken
    ensures Total(s, IsReport(x)) == if x.broken then 0 else Total(s, ReportOf(x.id))
  {
    if s != [] { UnbrokenOnce(s[..|s| - 1], x); }
  }

  lemma Length<T>(s: seq<T>)
    ensures |s| == |multiset(s)|
  {
  }

  lemma {:induction false} TotalOfPermutation(a: seq<Report>, b: seq<Report>, f: Report -> nat)
    requires multiset(a) == multiset(b)
    ensures Total(a, f) == Total(b, f)
    decreases |a|
  {
    Length(a);
    Length(b);
    if a != [] {
      var k := |a| - 1;
      assert a[k] in multiset(b);
      var i :| 0 <= i < |b| && b[i] == a[k];
      hide Total;
      TotalRemove(a, f, k);
      TotalRemove(b, f, i);
      MultisetRemove(a, k);
      MultisetRemove(b, i);
      TotalOfPermutation(a[..k] + a[k + 1..], b[..i] + b[i + 1..], f);
    } else {
      assert b == [];
    }
  }

  lemma {:induction false} TotalRemove(s: seq<Report>, f: Report -> nat, i: nat)
    requires i < |s|
    ensures Total(s, f) == Total(s[..i] + s[i + 1..], f) + f(s[i])
  {
    var k := |s| - 1;
    if i < k {
      TotalRemove(s[..k], f, i);
      assert (s[..i] + s[i + 1..])[..k - 1] == s[..k][..i] + s[..k][i + 1..];
    } else {
      assert s[..i] + s[i + 1..] == s[..k];
    }
  }

  lemma {:induction false} NameMultiplicity(c: Config, s: seq<Report>, o: Outcome, name: string)
    ensures multiset(Names(c, s, o))[name] == Total(s, HasNamed(c, o, name))
  {
    if s != [] { NameMultiplicity(c, s[..|s| - 1], o, name); }
  }

  lemma SummaryOfPermutation(c: Config, a: seq<Report>, b: seq<Report>, o: Outcome)
    requires multiset(a) == multiset(b)
    ensures Count(c, a, o) == Count(c, b, o)
    ensures Sort(Names(c, a, o)) == Sort(Names(c, b, o))
  {
    TotalOfPermutation(a, b, Has(c, o));
    var na, nb := Names(c, a, o), Names(c, b, o);
    forall name: string ensures multiset(na)[name] == multiset(nb)[name] {
      NameMultiplicity(c, a, o, name);
      NameMultiplicity(c, b, o, name);
      TotalOfPermutation(a, b, HasNamed(c, o, name));
    }
    assert multiset(na) == multiset(nb);
    SortSorts(na);
    SortSorts(nb);
    SortedUnique(Sort(na), Sort(nb));
  }

  lemma CollectedIsPermutation(c: Config, s: State)
    requires Inv(c, s) && c.processors > 0 && s.main.Done? && !s.threadExit
    ensures multiset(s.collected) == multiset(Sequential(|c.jobs|))
  {
    DoneMeansAllCollected(c, s);
    assert Honest(c, s);
    hide Inv, Placed, Counted, BreaksConserved, JobsFirst, Phases;
    var q := Sequential(|c.jobs|);
    forall x: Report ensures multiset(s.collected)[x] == multiset(q)[x] {
      Multiplicity(s.collected, x);
      Multiplicity(q, x);
      SequentialOnce(|c.jobs|, x);
      UnbrokenOnce(s.collected, x);
    }
  }

  // Whatever the interleaving, a run without interrupt has the summary of running the jobs one by one.
  lemma AgreesWithSequentialRun(c: Config, s: State, a: Summary, b: Summary)
    requires Inv(c, s) && c.processors > 0 && s.main.Done? && !s.threadExit
    requires Summarises(c, s.collected, |c.jobs|, a) && Summarises(c, Sequential(|c.jobs|), |c.jobs|, b)
    ensures a == b
  {
    hide Inv, Count, Names, Sort, Sequential;
    CollectedIsPermutation(c, s);
    var q := Sequential(|c.jobs|);
    forall o: Outcome
      ensures Count(c, s.collected, o) == Count(c, q, o) && Sort(Names(c, s.collected, o)) == Sort(Names(c, q, o))
    {
      SummaryOfPermutation(c, s.collected, q, o);
    }
  }

  // ---- The summary in terms of the jobs ----

  // The positions of reports of jobs that ran and returned this code ...
  ghost function WithCode(c: Config, reports: seq<Report>, code: int): set<nat>
    requires JobsExist(c, reports)
  {
    set i: nat | i < |reports| && !reports[i].broken && !c.jobs[reports[i].id].isSkip
                 && c.jobs[reports[i].id].returnCode == code
  }

  // ... or any code but 0, 1 and 2 ...
  ghost function WithOtherCode(c: Config, reports: seq<Report>): set<nat>
    requires JobsExist(c, reports)
  {
    set i: nat | i < |reports| && !reports[i].broken && !c.jobs[reports[i].id].isSkip
                 && c.jobs[reports[i].id].returnCode !in {0, 1, 2}
  }

  // ... or that were skipped.
  ghost function WithSkip(c: Config, reports: seq<Report>): set<nat>
    requires JobsExist(c, reports)
  {
    set i: nat | i < |reports| && !reports[i].broken && c.jobs[reports[i].id].isSkip
  }

  // The name list holds the display names at exactly these positions, as often as they occur there.
  ghost predicate NamesAt(c: Config, reports: seq<Report>, at: set<nat>, names: seq<string>)
    requires JobsExist(c, reports) && forall i :: i in at ==> i < |reports|
  {
    forall name: string :: multiset(names)[name] == |set i | i in at && c.jobs[reports[i].id].name == name|
  }

  // For skipped jobs, each with its reason.
  ghost predicate SkipNamesAt(c: Config, reports: seq<Report>, at: set<nat>, names: seq<string>)
    requires JobsExist(c, reports) && forall i :: i in at ==> i < |reports|
  {
    forall name: string :: multiset(names)[name] ==
      |set i | i in at && c.jobs[reports[i].id].name + " (" + c.jobs[reports[i].id].skipReason + ")" == name|
  }

  ghost function Positions(reports: seq<Report>, q: Report -> bool): set<nat> {
    set i: nat | i < |reports| && q(reports[i])
  }

  lemma {:induction false} TotalPositions(reports: seq<Report>, f: Report -> nat, q: Report -> bool)
    requires forall r :: f(r) == if q(r) then 1 else 0
    ensures Total(reports, f) == |Positions(reports, q)|
  {
    if reports == [] {
      assert Positions(reports, q) == {};
    } else {
      var k := |reports| - 1;
      TotalPositions(reports[..k], f, q);
      var before := Positions(reports[..k], q);
      assert Positions(reports, q) == if q(reports[k]) then before + {k} else before;
    }
  }

  predicate Ran(c: Config, r: Report) { r.id < |c.jobs| && !r.broken && !c.jobs[r.id].isSkip }

  lemma CodeCounts(c: Config, reports: seq<Report>, o: Outcome, code: int)
    requires JobsExist(c, reports)
    requires (o == Passed && code == 0) || (o == Failed && code == 1) || (o == Valgrind && code == 2)
    ensures Count(c, reports, o) == |WithCode(c, reports, code)|
    ensures o != Passed ==> NamesAt(c, reports, WithCode(c, reports, code), Sort(Names(c, reports, o)))
  {
    var q := (r: Report) => Ran(c, r) && c.jobs[r.id].returnCode == code;
    TotalPositions(reports, Has(c, o), q);
    assert Positions(reports, q) == WithCode(c, reports, code);
    forall name: string
      ensures multiset(Sort(Names(c, reports, o)))[name] ==
        |set i | i in WithCode(c, reports, code) && c.jobs[reports[i].id].name == name|
    {
      var qn := (r: Report) => q(r) && c.jobs[r.id].name == name;
      TotalPositions(reports, HasNamed(c, o, name), qn);
      assert Positions(reports, qn) == set i | i in WithCode(c, reports, code) && c.jobs[reports[i].id].name == name;
      SortedMultiplicity(c, reports, o, name);
    }
  }

  lemma CrashCounts(c: Config, reports: seq<Report>)
    requires JobsExist(c, reports)
    ensures Count(c, reports, Crashed) == |WithOtherCode(c, reports)|
    ensures NamesAt(c, reports, WithOtherCode(c, reports), Sort(Names(c, reports, Crashed)))
  {
    var q := (r: Report) => Ran(c, r) && c.jobs[r.id].returnCode !in {0, 1, 2};
    TotalPositions(reports, Has(c, Crashed), q);
    assert Positions(reports, q) == WithOtherCode(c, reports);
    forall name: string
      ensures multiset(Sort(Names(c, reports, Crashed)))[name] ==
        |set i | i in WithOtherCode(c, reports) && c.jobs[reports[i].id].name == name|
    {
      var qn := (r: Report) => q(r) && c.jobs[r.id].name == name;
      TotalPositions(reports, HasNamed(c, Crashed, name), qn);
      assert Positions(reports, qn) == set i | i in WithOtherCode(c, reports) && c.jobs[reports[i].id].name == name;
      SortedMultiplicity(c, reports, Crashed, name);
    }
  }

  lemma SkipCounts(c: Config, reports: seq<Report>)
    requires JobsExist(c, reports)
    ensures Count(c, reports, Skipped) == |WithSkip(c, reports)|
    ensures SkipNamesAt(c, reports, WithSkip(c, reports), Sort(Names(c, reports, Skipped)))
  {
    var q := (r: Report) => r.id < |c.jobs| && !r.broken && c.jobs[r.id].isSkip;
    TotalPositions(reports, Has(c, Skipped), q);
    assert Positions(reports, q) == WithSkip(c, reports);
    forall name: string
      ensures multiset(Sort(Names(c, reports, Skipped)))[name] ==
        |set i | i in WithSkip(c, reports) && c.jobs[reports[i].id].name + " (" + c.jobs[reports[i].id].skipReason + ")" == name|
    {
      var qn := (r: Report) => q(r) && c.jobs[r.id].name + " (" + c.jobs[r.id].skipReason + ")" == name;
      TotalPositions(reports, HasNamed(c, Skipped, name), qn);
      assert Positions(reports, qn) ==
        set i | i in WithSkip(c, reports) && c.jobs[reports[i].id].name + " (" + c.jobs[reports[i].id].skipReason + ")" == name;
      SortedMultiplicity(c, reports, Skipped, name);
    }
  }

  lemma SortedMultiplicity(c: Config, reports: seq<Report>, o: Outcome, name: string)
    ensures multiset(Sort(Names(c, reports, o)))[name] == Total(reports, HasNamed(c, o, name))
  {
    SortSorts(Names(c, reports, o));
    NameMultiplicity(c, reports, o, name);
  }

  /**
   * What a summary says, in terms of the jobs: each counter is the number of reports of unbroken jobs
   * with that skip mark or return code, and each list holds the names at exactly these reports.
   */
  lemma SummaryByJobs(c: Config, reports: seq<Report>, total: nat, s: Summary)
    requires JobsExist(c, reports) && Summarises(c, reports, total, s)
    ensures s.passed == |WithCode(c, reports, 0)|
    ensures s.failed == |WithCode(c, reports, 1)| && NamesAt(c, reports, WithCode(c, reports, 1), s.failedNames)
    ensures s.valgrind == |WithCode(c, reports, 2)| && NamesAt(c, reports, WithCode(c, reports, 2), s.valgrindNames)
    ensures s.crashed == |WithOtherCode(c, reports)| && NamesAt(c, reports, WithOtherCode(c, reports), s.crashedNames)
    ensures s.skipped == |WithSkip(c, reports)| && SkipNamesAt(c, reports, WithSkip(c, reports), s.skippedNames)
    ensures Sorted(s.failedNames) && Sorted(s.valgrindNames) && Sorted(s.crashedNames) && Sorted(s.skippedNames)
    ensures s.status == if |WithCode(c, reports, 0)| + |WithSkip(c, reports)| == total then 0 else 1
  {
    hide Count, Names, Sort, Sorted, WithCode, WithOtherCode, WithSkip, NamesAt, SkipNamesAt;
    CodeCounts(c, reports, Passed, 0);
    CodeCounts(c, reports, Failed, 1);
    CodeCounts(c, reports, Valgrind, 2);
    CrashCounts(c, reports);
    SkipCounts(c, reports);
    SortSorts(Names(c, reports, Failed));
    SortSorts(Names(c, reports, Valgrind));
    SortSorts(Names(c, reports, Crashed));
    SortSorts(Names(c, reports, Skipped));
  }

  // The order of the sorted lists: by the first character that differs, a proper prefix first.
  lemma {:induction false} LexLeqIs(a: string, b: string)
    ensures LexLeq(a, b) <==> a <= b || exists i :: FirstDifference(a, b, i) && a[i] < b[i]
  {
    if a == [] {
    } else if b == [] {
    } else if a[0] != b[0] {
      assert FirstDifference(a, b, 0);
      forall i | FirstDifference(a, b, i) ensures i == 0 {
        SameHeadOfPrefix(a, b, i);
      }
    } else {
      LexLeqIs(a[1..], b[1..]);
      assert a == [a[0]] + a[1..] && b == [b[0]] + b[1..];
      forall i | FirstDifference(a, b, i) && a[i] < b[i] ensures i > 0 && FirstDifference(a[1..], b[1..], i - 1) {
        assert a[1..][..i - 1] == a[..i][1..] && b[1..][..i - 1] == b[..i][1..];
      }
      forall i | FirstDifference(a[1..], b[1..], i) ensures FirstDifference(a, b, i + 1) {
        assert a[..i + 1] == [a[0]] + a[1..][..i] && b[..i + 1] == [b[0]] + b[1..][..i];
      }
    }
  }

  lemma SameHeadOfPrefix(a: string, b: string, i: int)
    requires 0 <= i < |a| && i < |b| && a[..i] == b[..i]
    ensures i > 0 ==> a[0] == b[0]
  {
    if i > 0 { assert a[..i][0] == a[0] && b[..i][0] == b[0]; }
  }

  predicate FirstDifference(a: string, b: string, i: int) {
    0 <= i < |a| && i < |b| && a[..i] == b[..i] && a[i] != b[i]
  }

  // ---- Whole runs ----

  ghost predicate Stopped(c: Config, s: State) { forall a: Action :: Enabled(c, s, a) ==> a == Interrupt }

  // A run that no thread can continue has finished.
  lemma StoppedMeansDone(c: Config, b: seq<State>, acts: seq<Action>)
    requires Behaviour(c, b, acts) && c.processors > 0
    requires Stopped(c, b[|b| - 1])
    ensures b[|b| - 1].main.Done?
  {
    AlwaysInv(c, b, acts, |b| - 1);
    hide Inv, Enabled;
    if !b[|b| - 1].main.Done? {
      var a := NeverStuck(c, b[|b| - 1]);
    }
  }

  lemma EachCollected(c: Config, s: State, id: nat) returns (r: Report)
    requires Inv(c, s) && c.processors > 0 && s.main.Done? && id < |c.jobs|
    ensures r in s.collected && r.id == id
  {
    DoneMeansAllCollected(c, s);
    TotalPositive(s.collected, ReportOf(id));
    hide Inv, Total;
    var i :| 0 <= i < |s.collected| && ReportOf(id)(s.collected[i]) > 0;
    r := s.collected[i];
  }

  lemma OnlyJobsCollected(c: Config, s: State, r: Report)
    requires Inv(c, s) && c.processors > 0 && s.main.Done? && r in s.collected
    ensures r.id < |c.jobs|
  {
    DoneMeansAllCollected(c, s);
    TotalPositive(s.collected, ReportOf(r.id));
    hide Inv, Total;
    var i :| 0 <= i < |s.collected| && s.collected[i] == r;
    assert ReportOf(r.id)(s.collected[i]) > 0;
  }

  // The job was decided before any interrupt, and was then skipped, or run and returned 0.
  ghost predicate Succeeded(c: Config, b: seq<State>, acts: seq<Action>, id: nat)
    requires id < |c.jobs|
  {
    && WasDecided(b, acts, |acts|, id, false)
    && (c.jobs[id].isSkip || (WasRun(b, |acts|, id) && c.jobs[id].returnCode == 0))
  }

  lemma GoodSucceeded(c: Config, b: seq<State>, acts: seq<Action>, r: Report)
    requires Behaviour(c, b, acts) && c.processors > 0 && b[|b| - 1].main.Done?
    requires r in b[|b| - 1].collected && r.id < |c.jobs|
    ensures Good(c, r) <==> Succeeded(c, b, acts, r.id)
  {
    hide Behaviour;
    CollectedWasDecided(c, b, acts, r);
    hide WasRun;
    if WasDecided(b, acts, |acts|, r.id, false) {
      var i: nat, w: nat :| i < |acts| && Decides(b, acts, i, w, r.id) && b[i].threadExit == false;
      BrokenIffInterrupted(c, b, acts, i, w, r);
    }
  }

  lemma AllGoodIffAllSucceeded(c: Config, b: seq<State>, acts: seq<Action>)
    requires Behaviour(c, b, acts) && c.processors > 0 && b[|b| - 1].main.Done?
    ensures AllAreGood(c, b[|b| - 1].collected) <==>
            forall id: nat :: id < |c.jobs| ==> Succeeded(c, b, acts, id)
  {
    var s := b[|b| - 1];
    AlwaysInv(c, b, acts, |b| - 1);
    hide Inv, Behaviour, Good, Succeeded;
    if AllAreGood(c, s.collected) {
      forall id: nat | id < |c.jobs| ensures Succeeded(c, b, acts, id) {
        var r := EachCollected(c, s, id);
        GoodSucceeded(c, b, acts, r);
      }
    }
    if forall id: nat :: id < |c.jobs| ==> Succeeded(c, b, acts, id) {
      forall r | r in s.collected ensures Good(c, r) {
        OnlyJobsCollected(c, s, r);
        GoodSucceeded(c, b, acts, r);
      }
    }
  }

  /**
   * Every finished run.  Without an interrupt its summary is that of a sequential run.  In any case the
   * status is 0 exactly if every job was taken before an interrupt and was then skipped, or was really
   * run and returned 0; otherwise it is 1.
   */
  lemma FinishedRun(c: Config, b: seq<State>, acts: seq<Action>, sum: Summary, sequential: Summary)
    requires Behaviour(c, b, acts) && c.processors > 0 && b[|b| - 1].main.Done?
    requires Summarises(c, b[|b| - 1].collected, |c.jobs|, sum)
    requires Summarises(c, Sequential(|c.jobs|), |c.jobs|, sequential)
    ensures !b[|b| - 1].threadExit ==> sum == sequential
    ensures sum.status == 0 <==> AllAreGood(c, b[|b| - 1].collected)
    ensures sum.status == 0 <==> forall id: nat :: id < |c.jobs| ==> Succeeded(c, b, acts, id)
    ensures sum.status == 0 || sum.status == 1
  {
    AlwaysInv(c, b, acts, |b| - 1);
    StatusIsBit(c, b[|b| - 1].collected, |c.jobs|, sum);
    hide Inv, Behaviour, Summarises, Good, AllAreGood, Succeeded;
    AllGoodIffAllSucceeded(c, b, acts);
    StatusIsZeroIffAllGood(c, b[|b| - 1], sum);
    if !b[|b| - 1].threadExit {
      AgreesWithSequentialRun(c, b[|b| - 1], sum, sequential);
    }
  }

  lemma StatusIsBit(c: Config, reports: seq<Report>, total: nat, sum: Summary)
    requires Summarises(c, reports, total, sum)
    ensures sum.status == 0 || sum.status == 1
  {
  }
}
