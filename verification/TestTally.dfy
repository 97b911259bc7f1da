/** The collecting loop of `run_tests`, the summary it prints and the exit code, and why none
of them depends on how the workers were scheduled. */
module TestTally {
  import opened Sequences
  import opened TestProtocol
  import opened TestRuns

  datatype Status = Pass | Fail | Valgrind | Crash | Skip | Broken

  function StatusOf(r: Result): Status {
    match r.outcome
    case Interrupted => Broken
    case Skipped => Skip
    case Ran(code) => if code == 0 then Pass else if code == 1 then Fail else if code == 2 then Valgrind else Crash
  }

  /** How a job is named in the summary's lists. */
  ghost function Label(jobs: seq<Job>, r: Result): string
    requires r.id < |jobs|
  {
    if r.outcome.Skipped? then jobs[r.id].name + " (" + jobs[r.id].skipReason + ")" else jobs[r.id].name
  }

  ghost predicate IdsBelow(results: seq<Result>, n: nat) {
    forall i :: 0 <= i < |results| ==> results[i].id < n
  }

  /** The jobs reported with a status, in the order collected. */
  ghost function Named(jobs: seq<Job>, results: seq<Result>, status: Status): seq<string>
    requires IdsBelow(results, |jobs|)
  {
    if results == [] then [] else
      var last := results[|results| - 1];
      Named(jobs, results[..|results| - 1], status) + if StatusOf(last) == status then [Label(jobs, last)] else []
  }

  // ----- the same, condition by condition -----

  ghost function ReturnedCode(results: seq<Result>, code: int): set<nat> {
    set i: nat | i < |results| && results[i].outcome == Ran(code)
  }

  ghost function ReturnedOther(results: seq<Result>): set<nat> {
    set i: nat | i < |results| && results[i].outcome.Ran? && results[i].outcome.returncode !in {0, 1, 2}
  }

  ghost function CutShort(results: seq<Result>): set<nat> {
    set i: nat | i < |results| && results[i].outcome == Interrupted
  }

  ghost function CameBackSkipped(results: seq<Result>): set<nat> {
    set i: nat | i < |results| && results[i].outcome == Skipped
  }

  /** How the summary lists a job: a skipped one with its reason. */
  function Shown(job: Job, skipped: bool): string {
    if skipped then job.name + " (" + job.skipReason + ")" else job.name
  }

  /** `names` lists the jobs that came back at the positions `kept`, in that order. */
  ghost predicate NamesOf(names: seq<string>, jobs: seq<Job>, results: seq<Result>, kept: set<nat>, skipped: bool)
    requires IdsBelow(results, |jobs|)
  {
    exists idx :: Lists(idx, kept) && NamesAt(names, jobs, results, idx, skipped)
  }

  ghost predicate NamesAt(names: seq<string>, jobs: seq<Job>, results: seq<Result>, idx: seq<nat>, skipped: bool)
    requires IdsBelow(results, |jobs|)
  {
    |names| == |idx|
    && forall k :: 0 <= k < |idx| ==> idx[k] < |results| && names[k] == Shown(jobs[results[idx[k]].id], skipped)
  }

  datatype Summary = Summary(
    passed: nat, failed: nat, valgrind: nat, crashed: nat, skipped: nat,
    failedNames: seq<string>, valgrindNames: seq<string>, crashedNames: seq<string>, skippedNames: seq<string>
  )

  /** The counters and lists of a summary, said of the results themselves. */
  ghost predicate Summarises(y: Summary, jobs: seq<Job>, results: seq<Result>)
    requires IdsBelow(results, |jobs|)
  {
    && y.passed == |ReturnedCode(results, 0)|
    && y.failed == |ReturnedCode(results, 1)|
    && NamesOf(y.failedNames, jobs, results, ReturnedCode(results, 1), false)
    && y.valgrind == |ReturnedCode(results, 2)|
    && NamesOf(y.valgrindNames, jobs, results, ReturnedCode(results, 2), false)
    && y.crashed == |ReturnedOther(results)|
    && NamesOf(y.crashedNames, jobs, results, ReturnedOther(results), false)
    && y.skipped == |CameBackSkipped(results)|
    && NamesOf(y.skippedNames, jobs, results, CameBackSkipped(results), true)
  }

  /** The summary that the labels of each status make. */
  ghost predicate FromNames(y: Summary, jobs: seq<Job>, results: seq<Result>)
    requires IdsBelow(results, |jobs|)
  {
    && y.passed == |Named(jobs, results, Pass)|
    && y.failed == |y.failedNames| && y.failedNames == Named(jobs, results, Fail)
    && y.valgrind == |y.valgrindNames| && y.valgrindNames == Named(jobs, results, Valgrind)
    && y.crashed == |y.crashedNames| && y.crashedNames == Named(jobs, results, Crash)
    && y.skipped == |y.skippedNames| && y.skippedNames == Named(jobs, results, Skip)
  }

  ghost function WithStatus(results: seq<Result>, status: Status): set<nat> {
    set i: nat | i < |results| && StatusOf(results[i]) == status
  }

  ghost predicate LabelsAt(names: seq<string>, jobs: seq<Job>, results: seq<Result>, idx: seq<nat>)
    requires IdsBelow(results, |jobs|)
  {
    |names| == |idx| && forall k :: 0 <= k < |idx| ==> idx[k] < |results| && names[k] == Label(jobs, results[idx[k]])
  }

  /** The positions `Named` takes its labels from. */
  lemma {:induction false} NamedLists(jobs: seq<Job>, results: seq<Result>, status: Status) returns (idx: seq<nat>)
    requires IdsBelow(results, |jobs|)
    ensures Lists(idx, WithStatus(results, status)) && LabelsAt(Named(jobs, results, status), jobs, results, idx)
  {
    if results == [] {
      idx := [];
    } else {
      idx := NamedLists(jobs, results[..|results| - 1], status);
      LabelsStep(jobs, results, status, idx);
      WithStatusStep(results, status, idx);
      hide *;
      if StatusOf(results[|results| - 1]) == status { idx := idx + [|results| - 1]; }
    }
  }

  lemma LabelsStep(jobs: seq<Job>, results: seq<Result>, status: Status, idx: seq<nat>)
    requires IdsBelow(results, |jobs|) && results != []
    requires LabelsAt(Named(jobs, results[..|results| - 1], status), jobs, results[..|results| - 1], idx)
    ensures var more := if StatusOf(results[|results| - 1]) == status then idx + [|results| - 1] else idx;
            LabelsAt(Named(jobs, results, status), jobs, results, more)
  {
    hide Label;
  }

  lemma WithStatusStep(results: seq<Result>, status: Status, idx: seq<nat>)
    requires results != [] && Lists(idx, WithStatus(results[..|results| - 1], status))
    ensures var more := if StatusOf(results[|results| - 1]) == status then idx + [|results| - 1] else idx;
            Lists(more, WithStatus(results, status))
  {
    var n, init := |results| - 1, results[..|results| - 1];
    if StatusOf(results[n]) == status {
      ListsSnoc(idx, WithStatus(init, status), n);
      assert WithStatus(results, status) == WithStatus(init, status) + {n};
    } else {
      assert WithStatus(results, status) == WithStatus(init, status);
    }
  }

  lemma StatusCases(results: seq<Result>)
    ensures WithStatus(results, Pass) == ReturnedCode(results, 0)
    ensures WithStatus(results, Fail) == ReturnedCode(results, 1)
    ensures WithStatus(results, Valgrind) == ReturnedCode(results, 2)
    ensures WithStatus(results, Crash) == ReturnedOther(results)
    ensures WithStatus(results, Skip) == CameBackSkipped(results)
  {
  }

  lemma LabelShown(jobs: seq<Job>, r: Result)
    requires r.id < |jobs|
    ensures Label(jobs, r) == Shown(jobs[r.id], StatusOf(r) == Skip)
  {
  }

  lemma NamedNames(jobs: seq<Job>, results: seq<Result>, status: Status)
    requires IdsBelow(results, |jobs|) && status != Broken
    ensures NamesOf(Named(jobs, results, status), jobs, results, WithStatus(results, status), status == Skip)
    ensures |Named(jobs, results, status)| == |WithStatus(results, status)|
  {
    var names, kept := Named(jobs, results, status), WithStatus(results, status);
    var idx := NamedLists(jobs, results, status);
    ListsSize(idx, kept);
    hide Named;
    forall k | 0 <= k < |idx|
      ensures names[k] == Shown(jobs[results[idx[k]].id], status == Skip)
    {
      assert idx[k] in kept;
      LabelShown(jobs, results[idx[k]]);
    }
    hide Lists, Label, Shown, StatusOf, WithStatus;
    assert NamesAt(names, jobs, results, idx, status == Skip);
  }

  lemma NamedSummarises(y: Summary, jobs: seq<Job>, results: seq<Result>)
    requires IdsBelow(results, |jobs|) && FromNames(y, jobs, results)
    ensures Summarises(y, jobs, results)
  {
    StatusCases(results);
    NamedNames(jobs, results, Pass);
    NamedNames(jobs, results, Fail);
    NamedNames(jobs, results, Valgrind);
    NamedNames(jobs, results, Crash);
    NamedNames(jobs, results, Skip);
    hide Named, NamesOf, WithStatus, ReturnedCode, ReturnedOther, CameBackSkipped;
  }

  class Collector {
    const jobs: seq<Job>
    var passed: nat
    var failed: nat
    var valgrind: nat
    var crashed: nat
    var skipped: nat
    var failedNames: seq<string>
    var valgrindNames: seq<string>
    var crashedNames: seq<string>
    var skippedNames: seq<string>

    /** The counters and lists describe exactly `results`. */
    ghost predicate Reports(results: seq<Result>)
      reads this
    {
      IdsBelow(results, |jobs|) && FromNames(Printed(), jobs, results)
    }

    /** What is printed at the end, the lists still unsorted. */
    function Printed(): Summary
      reads this
    {
      Summary(passed, failed, valgrind, crashed, skipped, failedNames, valgrindNames, crashedNames, skippedNames)
    }

    constructor (jobs: seq<Job>)
      ensures this.jobs == jobs && Reports([])
    {
      this.jobs := jobs;
      passed, failed, valgrind, crashed, skipped := 0, 0, 0, 0, 0;
      failedNames, valgrindNames, crashedNames, skippedNames := [], [], [], [];
    }

    method Handle(r: Result, ghost before: seq<Result>)
      requires Reports(before) && r.id < |jobs|
      modifies this
      ensures Reports(before + [r])
      ensures passed == old(passed) + (if r.outcome == Ran(0) then 1 else 0)
      ensures failed == old(failed) + (if r.outcome == Ran(1) then 1 else 0)
      ensures failedNames == old(failedNames) + (if r.outcome == Ran(1) then [jobs[r.id].name] else [])
      ensures valgrind == old(valgrind) + (if r.outcome == Ran(2) then 1 else 0)
      ensures valgrindNames == old(valgrindNames) + (if r.outcome == Ran(2) then [jobs[r.id].name] else [])
      ensures var crash := r.outcome.Ran? && r.outcome.returncode !in {0, 1, 2};
              && crashed == old(crashed) + (if crash then 1 else 0)
              && crashedNames == old(crashedNames) + (if crash then [jobs[r.id].name] else [])
      ensures skipped == old(skipped) + (if r.outcome == Skipped then 1 else 0)
      ensures skippedNames == old(skippedNames)
                              + (if r.outcome == Skipped then [jobs[r.id].name + " (" + jobs[r.id].skipReason + ")"] else [])
    {
      assert (before + [r])[..|before + [r]| - 1] == before;
      if r.outcome == Interrupted { return; }
      var job := jobs[r.id];
      if r.outcome == Skipped {
        skipped := skipped + 1;
        skippedNames := skippedNames + [job.name + " (" + job.skipReason + ")"];
      } else if r.outcome.returncode == 0 {
        passed := passed + 1;
      } else if r.outcome.returncode == 1 {
        failed := failed + 1;
        failedNames := failedNames + [job.name];
      } else if r.outcome.returncode == 2 {
        valgrind := valgrind + 1;
        valgrindNames := valgrindNames + [job.name];
      } else {
        crashed := crashed + 1;
        crashedNames := crashedNames + [job.name];
      }
    }

    /** The loop over `range(jobs)`, fed with what the blocking gets return. */
    method CollectAll(results: seq<Result>)
      requires IdsBelow(results, |jobs|) && Reports([])
      modifies this
      ensures Reports(results) && Summarises(Printed(), jobs, results)
    {
      for i := 0 to |results|
        invariant Reports(results[..i])
      {
        Handle(results[i], results[..i]);
        assert results[..i + 1] == results[..i] + [results[i]];
      }
      assert results[..|results|] == results;
      NamedSummarises(Printed(), jobs, results);
    }

    /** Once every test has been collected, the exit code is 0 exactly when every one of them
        passed or was skipped. */
    method ExitCode(totalTests: nat, ghost results: seq<Result>) returns (code: int)
      requires Reports(results) && totalTests == |results|
      ensures code == 0 || code == 1
      ensures code == 0 <==> forall i :: 0 <= i < |results| ==> Fine(results[i])
    {
      AllFine(jobs, results);
      code := if passed + skipped == totalTests then 0 else 1;
    }
  }

  // ----- accounting -----

  lemma BrokenCount(jobs: seq<Job>, results: seq<Result>)
    requires IdsBelow(results, |jobs|)
    ensures |Named(jobs, results, Broken)| == |CutShort(results)|
  {
    var idx := NamedLists(jobs, results, Broken);
    assert WithStatus(results, Broken) == CutShort(results);
    ListsSize(idx, CutShort(results));
  }

  ghost predicate Fine(r: Result) {
    r.outcome == Ran(0) || r.outcome == Skipped
  }

  ghost function CountOf(jobs: seq<Job>, results: seq<Result>, status: Status): nat
    requires IdsBelow(results, |jobs|)
  {
    |Named(jobs, results, status)|
  }

  /** Every result is in exactly one counter, the interrupted ones in none that is printed. */
  lemma {:induction false} Accounting(jobs: seq<Job>, results: seq<Result>)
    requires IdsBelow(results, |jobs|)
    ensures CountOf(jobs, results, Pass) + CountOf(jobs, results, Fail) + CountOf(jobs, results, Valgrind)
            + CountOf(jobs, results, Crash) + CountOf(jobs, results, Skip) + CountOf(jobs, results, Broken) == |results|
  {
    if results != [] { Accounting(jobs, results[..|results| - 1]); }
  }

  lemma {:induction false} AllFine(jobs: seq<Job>, results: seq<Result>)
    requires IdsBelow(results, |jobs|)
    ensures CountOf(jobs, results, Pass) + CountOf(jobs, results, Skip) <= |results|
    ensures CountOf(jobs, results, Pass) + CountOf(jobs, results, Skip) == |results|
            <==> forall i :: 0 <= i < |results| ==> Fine(results[i])
  {
    if results != [] {
      AllFine(jobs, results[..|results| - 1]);
      assert forall i :: 0 <= i < |results| - 1 ==> results[..|results| - 1][i] == results[i];
    }
  }

  /** Job `id` came back passed or skipped. */
  ghost predicate CameBackFine(results: seq<Result>, id: nat) {
    exists i :: 0 <= i < |results| && results[i].id == id && Fine(results[i])
  }

  /** The summary of every complete run, interrupted or not: each job is in exactly one
      counter or was interrupted, and `passed + skipped` reaches `total_tests`, which makes the
      exit code 0, exactly when every job passed or was skipped and none was interrupted. */
  lemma RunAccounting(c: Config, run: seq<Action>, t: State)
    requires Leads(c, Init(c), run, t) && Finished(c, t)
    ensures IdsBelow(t.collected, |c.jobs|)
    ensures var n := (status: Status) => CountOf(c.jobs, t.collected, status);
            n(Pass) + n(Fail) + n(Valgrind) + n(Crash) + n(Skip) + n(Broken) == |c.jobs|
    ensures CountOf(c.jobs, t.collected, Pass) + CountOf(c.jobs, t.collected, Skip) == |c.jobs|
            <==> forall id :: 0 <= id < |c.jobs| ==> CameBackFine(t.collected, id)
  {
    CollectedBelow(c, run, t);
    Accounting(c.jobs, t.collected);
    AllFine(c.jobs, t.collected);
    AllCollected(c, run, t);
    AllCameBackFine(t.collected, |c.jobs|);
  }

  lemma AllCameBackFine(results: seq<Result>, n: nat)
    requires NoDup(Ids(results)) && Elems(Ids(results)) == UpTo(n)
    ensures (forall i :: 0 <= i < |results| ==> Fine(results[i]))
            <==> forall id :: 0 <= id < n ==> CameBackFine(results, id)
  {
    if forall i :: 0 <= i < |results| ==> Fine(results[i]) {
      forall id: nat | id < n
        ensures CameBackFine(results, id)
      {
        assert id in Elems(Ids(results));
        var i :| 0 <= i < |Ids(results)| && Ids(results)[i] == id;
        assert Fine(results[i]);
      }
    }
    if forall id :: 0 <= id < n ==> CameBackFine(results, id) {
      forall i: nat | i < |results|
        ensures Fine(results[i])
      {
        assert Ids(results)[i] in Elems(Ids(results));
        OnlyReturn(results, i);
      }
    }
  }

  lemma OnlyReturn(results: seq<Result>, i: nat)
    requires NoDup(Ids(results)) && i < |results| && CameBackFine(results, results[i].id)
    ensures Fine(results[i])
  {
    var j :| 0 <= j < |results| && results[j].id == results[i].id && Fine(results[j]);
    assert Ids(results)[i] == Ids(results)[j];
  }

  lemma CollectedBelow(c: Config, run: seq<Action>, t: State)
    requires Leads(c, Init(c), run, t)
    ensures IdsBelow(t.collected, |c.jobs|)
  {
    InitInv(c);
    RunInv(c, Init(c), run, t);
    assert forall i :: 0 <= i < |t.collected| ==> t.collected[i] in t.collected;
  }

  // ----- the order of collection does not matter -----

  lemma {:induction false} NamedConcat(jobs: seq<Job>, a: seq<Result>, b: seq<Result>, status: Status)
    requires IdsBelow(a, |jobs|) && IdsBelow(b, |jobs|)
    ensures Named(jobs, a + b, status) == Named(jobs, a, status) + Named(jobs, b, status)
  {
    if b == [] {
      assert a + b == a;
    } else {
      assert (a + b)[..|a + b| - 1] == a + b[..|b| - 1];
      NamedConcat(jobs, a, b[..|b| - 1], status);
    }
  }

  lemma CancelOne<T>(m: multiset<T>, n: multiset<T>, x: T)
    requires m + multiset{x} == n + multiset{x}
    ensures m == n
  {
    assert m == (m + multiset{x}) - multiset{x};
    assert n == (n + multiset{x}) - multiset{x};
  }

  ghost function Without<T>(s: seq<T>, i: nat): (r: seq<T>)
    requires i < |s|
    ensures |r| == |s| - 1
  {
    s[..i] + s[i + 1..]
  }

  lemma WithoutBelow(results: seq<Result>, i: nat, n: nat)
    requires i < |results| && IdsBelow(results, n)
    ensures IdsBelow(Without(results, i), n)
  {
  }

  lemma Extract<T>(s: seq<T>, i: nat)
    requires i < |s|
    ensures s == s[..i] + ([s[i]] + s[i + 1..])
    ensures multiset(s) == multiset(Without(s, i)) + multiset{s[i]}
  {
    assert s == s[..i] + ([s[i]] + s[i + 1..]);
    assert multiset([s[i]] + s[i + 1..]) == multiset{s[i]} + multiset(s[i + 1..]);
  }

  lemma Match<T>(r: seq<T>, q: seq<T>) returns (i: nat)
    requires r != [] && multiset(r) == multiset(q)
    ensures i < |q| && q[i] == r[0]
    ensures multiset(Without(r, 0)) == multiset(Without(q, i))
  {
    assert r[0] in multiset(q);
    i :| 0 <= i < |q| && q[i] == r[0];
    Extract(r, 0);
    Extract(q, i);
    CancelOne(multiset(Without(r, 0)), multiset(Without(q, i)), r[0]);
  }

  lemma NamedExtract(jobs: seq<Job>, results: seq<Result>, i: nat, status: Status)
    requires IdsBelow(results, |jobs|) && i < |results|
    ensures IdsBelow(Without(results, i), |jobs|)
    ensures multiset(Named(jobs, results, status))
            == multiset(Named(jobs, Without(results, i), status)) + multiset(Named(jobs, [results[i]], status))
  {
    var a, x, b := results[..i], [results[i]], results[i + 1..];
    Extract(results, i);
    NamedConcat(jobs, a, x + b, status);
    NamedConcat(jobs, x, b, status);
    NamedConcat(jobs, a, b, status);
  }

  lemma {:induction false} NamedPermutation(jobs: seq<Job>, r: seq<Result>, q: seq<Result>, status: Status)
    requires IdsBelow(r, |jobs|) && IdsBelow(q, |jobs|) && multiset(r) == multiset(q)
    ensures multiset(Named(jobs, r, status)) == multiset(Named(jobs, q, status))
    decreases |r|
  {
    assert |r| == |multiset(r)| == |multiset(q)| == |q|;
    if r == [] {
      assert q == [];
    } else {
      hide Named, Without;
      var i := Match(r, q);
      WithoutBelow(r, 0, |jobs|);
      WithoutBelow(q, i, |jobs|);
      NamedPermutation(jobs, Without(r, 0), Without(q, i), status);
      NamedExtract(jobs, r, 0, status);
      NamedExtract(jobs, q, i, status);
    }
  }

  // ----- every schedule agrees with running the jobs one after the other -----

  /** What a single worker would report, in dispatch order. */
  ghost function Sequential(jobs: seq<Job>): (r: seq<Result>)
    ensures |r| == |jobs| && forall i :: 0 <= i < |r| ==> r[i] == Result(i, OutcomeOf(jobs[i]))
  {
    seq(|jobs|, i requires 0 <= i < |jobs| => Result(i, OutcomeOf(jobs[i])))
  }

  lemma {:induction false} NoDupMultiset<T>(s: seq<T>, x: T)
    requires NoDup(s)
    ensures multiset(s)[x] == if x in s then 1 else 0
  {
    if s != [] {
      var init, last := s[..|s| - 1], s[|s| - 1];
      NoDupMultiset(init, x);
      assert s == init + [last];
      if last == x { assert x !in init; }
    }
  }

  lemma CollectedIsPermutation(c: Config, run: seq<Action>, t: State)
    requires Leads(c, Init(c), run, t) && Finished(c, t) && !t.interrupted
    ensures multiset(t.collected) == multiset(Sequential(c.jobs))
  {
    InitInv(c);
    RunInv(c, Init(c), run, t);
    AllCollected(c, run, t);
    var ids, expected := Ids(t.collected), Sequential(c.jobs);
    forall i, j | 0 <= i < j < |t.collected|
      ensures t.collected[i] != t.collected[j]
    {
      assert ids[i] != ids[j];
    }
    forall x
      ensures x in t.collected <==> x in expected
    {
      if x in t.collected {
        assert ValidResult(c, t, x);
        assert expected[x.id] == x;
      }
      if x in expected {
        assert x.id in Elems(ids);
        var i :| 0 <= i < |ids| && ids[i] == x.id;
        assert ValidResult(c, t, t.collected[i]);
        assert t.collected[i] == x;
      }
    }
    forall x
      ensures multiset(t.collected)[x] == multiset(expected)[x]
    {
      NoDupMultiset(t.collected, x);
      NoDupMultiset(expected, x);
    }
  }

  // ----- the jobs behind each counter -----

  ghost function JobsReturning(jobs: seq<Job>, code: int): set<nat> {
    set i: nat | i < |jobs| && !jobs[i].isSkip && jobs[i].returncode == code
  }

  ghost function JobsCrashing(jobs: seq<Job>): set<nat> {
    set i: nat | i < |jobs| && !jobs[i].isSkip && jobs[i].returncode !in {0, 1, 2}
  }

  ghost function JobsSkipped(jobs: seq<Job>): set<nat> {
    set i: nat | i < |jobs| && jobs[i].isSkip
  }

  /** `names` lists exactly the jobs in `kept`, in any order. */
  ghost predicate NamesJobs(names: seq<string>, jobs: seq<Job>, kept: set<nat>, skipped: bool) {
    exists idx, listed :: Lists(idx, kept) && JobsAt(listed, jobs, idx, skipped) && multiset(names) == multiset(listed)
  }

  ghost predicate JobsAt(names: seq<string>, jobs: seq<Job>, idx: seq<nat>, skipped: bool) {
    |names| == |idx| && forall k :: 0 <= k < |idx| ==> idx[k] < |jobs| && names[k] == Shown(jobs[idx[k]], skipped)
  }

  /** The counters and lists of a summary, said of the jobs and what their commands return. */
  ghost predicate SummarisesJobs(y: Summary, jobs: seq<Job>) {
    && y.passed == |JobsReturning(jobs, 0)|
    && y.failed == |JobsReturning(jobs, 1)| && NamesJobs(y.failedNames, jobs, JobsReturning(jobs, 1), false)
    && y.valgrind == |JobsReturning(jobs, 2)| && NamesJobs(y.valgrindNames, jobs, JobsReturning(jobs, 2), false)
    && y.crashed == |JobsCrashing(jobs)| && NamesJobs(y.crashedNames, jobs, JobsCrashing(jobs), false)
    && y.skipped == |JobsSkipped(jobs)| && NamesJobs(y.skippedNames, jobs, JobsSkipped(jobs), true)
  }

  lemma SequentialCases(jobs: seq<Job>)
    ensures WithStatus(Sequential(jobs), Pass) == JobsReturning(jobs, 0)
    ensures WithStatus(Sequential(jobs), Fail) == JobsReturning(jobs, 1)
    ensures WithStatus(Sequential(jobs), Valgrind) == JobsReturning(jobs, 2)
    ensures WithStatus(Sequential(jobs), Crash) == JobsCrashing(jobs)
    ensures WithStatus(Sequential(jobs), Skip) == JobsSkipped(jobs)
  {
  }

  lemma SequentialNames(jobs: seq<Job>, status: Status, names: seq<string>)
    requires status != Broken && multiset(names) == multiset(Named(jobs, Sequential(jobs), status))
    ensures NamesJobs(names, jobs, WithStatus(Sequential(jobs), status), status == Skip)
    ensures |names| == |WithStatus(Sequential(jobs), status)|
  {
    var all := Sequential(jobs);
    NamedNames(jobs, all, status);
    var listed := Named(jobs, all, status);
    var idx :| Lists(idx, WithStatus(all, status)) && NamesAt(listed, jobs, all, idx, status == Skip);
    assert JobsAt(listed, jobs, idx, status == Skip);
    assert |names| == |multiset(names)| == |multiset(listed)| == |listed|;
  }

  /** Whatever the order in which all jobs came back, the summary is that of the jobs. */
  lemma PermutedSummary(y: Summary, jobs: seq<Job>, results: seq<Result>)
    requires IdsBelow(results, |jobs|) && multiset(results) == multiset(Sequential(jobs))
    requires FromNames(y, jobs, results)
    ensures SummarisesJobs(y, jobs)
  {
    hide Sequential;
    PermutedNames(jobs, results, Pass);
    PermutedNames(jobs, results, Fail);
    PermutedNames(jobs, results, Valgrind);
    PermutedNames(jobs, results, Crash);
    PermutedNames(jobs, results, Skip);
    SequentialCases(jobs);
    hide Named, NamesJobs, WithStatus, JobsReturning, JobsCrashing, JobsSkipped;
  }

  lemma PermutedNames(jobs: seq<Job>, results: seq<Result>, status: Status)
    requires IdsBelow(results, |jobs|) && multiset(results) == multiset(Sequential(jobs)) && status != Broken
    ensures var names := Named(jobs, results, status);
            && NamesJobs(names, jobs, WithStatus(Sequential(jobs), status), status == Skip)
            && |names| == |WithStatus(Sequential(jobs), status)|
  {
    NamedPermutation(jobs, results, Sequential(jobs), status);
    SequentialNames(jobs, status, Named(jobs, results, status));
  }

  // ----- sorted names -----

  /** Python's order on strings: by code points, a proper prefix first. */
  ghost predicate Leq(a: string, b: string) {
    a == "" || (b != "" && (a[0] < b[0] || (a[0] == b[0] && Leq(a[1..], b[1..]))))
  }

  lemma {:induction false} LeqAntisymmetric(a: string, b: string)
    requires Leq(a, b) && Leq(b, a)
    ensures a == b
  {
    if a != "" && b != "" {
      LeqAntisymmetric(a[1..], b[1..]);
      assert a == [a[0]] + a[1..] && b == [b[0]] + b[1..];
    }
  }

  /** What sorting the list in place leaves, whatever the algorithm. */
  ghost predicate SortOf(sorted: seq<string>, names: seq<string>) {
    multiset(sorted) == multiset(names) && Ascending(sorted)
  }

  ghost predicate Ascending(s: seq<string>) {
    forall i, j :: 0 <= i < j < |s| ==> Leq(s[i], s[j])
  }

  lemma FirstOfSorted(a: seq<string>, b: seq<string>)
    requires Ascending(a) && Ascending(b) && multiset(a) == multiset(b) && a != [] && b != []
    ensures a[0] == b[0]
  {
    assert a[0] in multiset(b) && b[0] in multiset(a);
    var i :| 0 <= i < |b| && b[i] == a[0];
    var j :| 0 <= j < |a| && a[j] == b[0];
    if i > 0 && j > 0 { LeqAntisymmetric(a[0], b[0]); }
  }

  lemma {:induction false} SortUnique(a: seq<string>, b: seq<string>)
    requires Ascending(a) && Ascending(b) && multiset(a) == multiset(b)
    ensures a == b
    decreases |a|
  {
    assert |a| == |multiset(a)| == |multiset(b)| == |b|;
    if a != [] {
      FirstOfSorted(a, b);
      assert a == [a[0]] + a[1..] && b == [b[0]] + b[1..];
      Extract(a, 0);
      Extract(b, 0);
      assert a[..0] + a[1..] == a[1..] && b[..0] + b[1..] == b[1..];
      CancelOne(multiset(a[1..]), multiset(b[1..]), a[0]);
      SortUnique(a[1..], b[1..]);
    }
  }

  /** Without an interrupt, any run of any number of workers prints the summary of taking the
      jobs one after the other: for each status the same count and the same sorted list. */
  lemma ScheduleIndependent(c: Config, run: seq<Action>, t: State, status: Status, printed: seq<string>, expected: seq<string>)
    requires Leads(c, Init(c), run, t) && Finished(c, t) && !t.interrupted
    requires IdsBelow(t.collected, |c.jobs|)
    requires SortOf(printed, Named(c.jobs, t.collected, status))
    requires SortOf(expected, Named(c.jobs, Sequential(c.jobs), status))
    ensures CountOf(c.jobs, t.collected, status) == CountOf(c.jobs, Sequential(c.jobs), status)
    ensures printed == expected
  {
    CollectedIsPermutation(c, run, t);
    NamedPermutation(c.jobs, t.collected, Sequential(c.jobs), status);
    var mine, theirs := Named(c.jobs, t.collected, status), Named(c.jobs, Sequential(c.jobs), status);
    assert |mine| == |multiset(mine)| && |theirs| == |multiset(theirs)|;
    SortUnique(printed, expected);
  }
}
