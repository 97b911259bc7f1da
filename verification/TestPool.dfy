/** `run_tests` and its worker threads on shared mutable state: each method is one atomic step
of a thread, and `RunTests` lets an arbitrary scheduler interleave them. */
module TestPool {
  import opened Sequences
  import opened TestProtocol
  import opened TestRuns
  import opened TestTally

  lemma {:induction false} LeadsSnoc(c: Config, s: State, run: seq<Action>, t: State, a: Action)
    requires Leads(c, s, run, t) && Enabled(c, t, a)
    ensures Leads(c, s, run + [a], Apply(c, t, a))
    decreases |run|
  {
    hide Enabled, Apply;
    if run == [] {
      assert [a][1..] == [];
      assert Leads(c, Apply(c, t, a), [], Apply(c, t, a));
      assert run + [a] == [a];
    } else {
      LeadsSnoc(c, Apply(c, s, run[0]), run[1..], t, a);
      assert (run + [a])[1..] == run[1..] + [a];
    }
  }

  lemma WorkerIsOk(c: Config, s: State, w: nat)
    requires Inv(c, s) && w < |s.workers|
    ensures WorkerOk(c, s, s.workers[w])
  {
  }

  lemma MeasureNonNegative(c: Config, s: State)
    requires Inv(c, s)
    ensures Measure(c, s) >= 0
  {
    RunDescends(c, s, [], s);
  }

  lemma MainIsOk(c: Config, s: State)
    requires Inv(c, s)
    ensures |s.workers| == c.processors && s.dispatched <= |c.jobs| && s.breaks <= c.processors
    ensures |s.collected| <= |c.jobs| && s.joined <= c.processors
    ensures s.output != [] ==> s.output[0].id < |c.jobs|
  {
    assert s.output != [] ==> ValidResult(c, s, s.output[0]);
  }

  /** Who can take the action: a worker by its number, or the main thread, numbered last. */
  ghost function ThreadOf(c: Config, a: Action): nat {
    match a
    case Dequeue(w) => w
    case Retire(w) => w
    case CheckInterrupt(w) => w
    case Execute(w) => w
    case Publish(w) => w
    case _ => c.processors
  }

  /** What a worker that is not blocked does next, from where its loop stands. */
  ghost function WorkerAction(s: State, w: nat): Action
    requires w < |s.workers|
  {
    match s.workers[w]
    case Idle => Dequeue(w)
    case Holding(m) => if m == Break then Retire(w) else CheckInterrupt(w)
    case Cleared(_) => Execute(w)
    case _ => Publish(w)
  }

  lemma WorkerEnabled(c: Config, s: State, w: nat)
    requires Inv(c, s) && w < |s.workers| && s.workers[w] != Returned && (s.workers[w] == Idle ==> s.input != [])
    ensures Enabled(c, s, WorkerAction(s, w)) && ThreadOf(c, WorkerAction(s, w)) == w
    ensures WorkerAction(s, w) != Interrupt && WorkerOk(c, s, s.workers[w])
  {
    WorkerIsOk(c, s, w);
  }

  class Pool {
    const config: Config
    const collector: Collector
    var dispatched: nat
    var breaks: nat
    var input: seq<Message>
    var workers: seq<Worker>
    var output: seq<Result>
    var collected: seq<Result>
    var joined: nat
    var threadExit: bool
    var launched: seq<nat>
    ghost var run: seq<Action>

    constructor (jobs: seq<Job>, processors: nat)
      ensures Valid() && run == [] && !threadExit && fresh(collector)
      ensures config == Config(jobs, processors) && collector.jobs == jobs
    {
      var c := new Collector(jobs);
      config, collector := Config(jobs, processors), c;
      dispatched, breaks, input, workers := 0, 0, [], seq(processors, _ => Idle);
      output, collected, joined, threadExit, launched, run := [], [], 0, false, [], [];
      new;
      InitInv(config);
    }

    ghost function View(): State
      reads this
    {
      State(dispatched, breaks, input, workers, output, collected, joined, threadExit, launched)
    }

    /** The state is one that `run` leads to, and the counters describe what was collected. */
    ghost predicate Valid()
      reads this, collector
    {
      && Leads(config, Init(config), run, View())
      && Inv(config, View())
      && collector.jobs == config.jobs
      && collector.Reports(collected)
    }

    /** Whether the thread is not blocked in a `get` or a `join`, or past its end. */
    predicate CanMove(thread: nat)
      reads this
    {
      if thread < |workers| then
        match workers[thread]
        case Idle => input != []
        case Returned => false
        case _ => true
      else
        || dispatched < |config.jobs|
        || breaks < config.processors
        || (|collected| < |config.jobs| && output != [])
        || (|collected| == |config.jobs| && joined < |workers| && workers[joined] == Returned)
    }

    /** Where the loop of `worker_thread.run` stands decides its next step. */
    method WorkerStep(w: nat)
      requires Valid() && w < |workers| && CanMove(w)
      modifies this`input, this`workers, this`output, this`launched, this`run
      ensures Valid() && exists a :: Stepped(old(View()), a) && ThreadOf(config, a) == w
    {
      hide Leads, Inv, Collector.Reports;
      ghost var before, a := View(), WorkerAction(View(), w);
      WorkerEnabled(config, before, w);
      Recorded(before, a);
      hide Enabled, ThreadOf;
      var jobs := config.jobs;
      match workers[w] {
        case Idle =>
          workers, input := workers[w := Holding(input[0])], input[1..];
        case Holding(m) =>
          if m == Break {
            workers := workers[w := Returned];
          } else if threadExit {
            workers := workers[w := Publishing(Result(m.id, Interrupted))];
          } else {
            workers := workers[w := Cleared(m.id)];
          }
        case Cleared(id) =>
          if jobs[id].isSkip {
            workers := workers[w := Publishing(Result(id, Skipped))];
          } else {
            launched := launched + [id];
            workers := workers[w := Publishing(Result(id, Ran(jobs[id].returncode)))];
          }
        case Publishing(r) =>
          workers, output := workers[w := Idle], output + [r];
      }
      run := run + [a];
      assert Stepped(before, a);
    }

    /** Dispatching, then the break jobs, then collecting, then joining. */
    method MainStep()
      requires Valid() && CanMove(config.processors)
      modifies this`dispatched, this`breaks, this`input, this`output, this`collected, this`joined, this`run, collector
      ensures Valid() && exists a :: Stepped(old(View()), a) && ThreadOf(config, a) == config.processors
    {
      hide Leads, Inv, Collector.Reports;
      ghost var before, a := View(), Dispatch;
      MainIsOk(config, before);
      if dispatched < |config.jobs| {
        input, dispatched := input + [Real(dispatched)], dispatched + 1;
      } else if breaks < config.processors {
        a := PutBreak;
        input, breaks := input + [Break], breaks + 1;
      } else if |collected| < |config.jobs| {
        a := Collect;
        TakeResult();
      } else {
        a := Join;
        joined := joined + 1;
      }
      Recorded(before, a);
      run := run + [a];
      assert Stepped(before, a);
    }

    /** What the collecting loop does with the next result. */
    method TakeResult()
      requires output != [] && output[0].id < |collector.jobs| && collector.Reports(collected)
      modifies this`output, this`collected, collector
      ensures output == old(output)[1..] && collected == old(collected) + [old(output)[0]]
      ensures collector.Reports(collected)
    {
      hide Collector.Reports;
      collector.Handle(output[0], collected);
      collected, output := collected + [output[0]], output[1..];
    }

    /** The handler of the interrupt signal, which may run between any two steps. */
    method SigintHook()
      requires Valid()
      modifies this`threadExit, this`run
      ensures Valid() && threadExit && Measure(config, View()) <= Measure(config, old(View()))
    {
      if !threadExit {
        hide Leads, Inv, Collector.Reports, Measure;
        ghost var before := View();
        threadExit := true;
        Recorded(before, Interrupt);
        StepDescends(config, before, Interrupt);
        run := run + [Interrupt];
      }
    }

    ghost predicate Stepped(before: State, a: Action)
      reads this
    {
      a != Interrupt && Enabled(config, before, a) && View() == Apply(config, before, a)
    }

    lemma Recorded(before: State, a: Action)
      requires Leads(config, Init(config), run, before) && Inv(config, before) && Enabled(config, before, a)
      ensures Leads(config, Init(config), run + [a], Apply(config, before, a)) && Inv(config, Apply(config, before, a))
    {
      LeadsSnoc(config, Init(config), run, before, a);
      StepInv(config, before, a);
    }

    lemma SomeoneMoves()
      requires Valid() && !Finished(config, View()) && (config.processors > 0 || config.jobs == [])
      ensures exists thread :: 0 <= thread <= config.processors && CanMove(thread)
    {
      NoDeadlock(config, View());
      var a :| a != Interrupt && Enabled(config, View(), a);
      assert CanMove(ThreadOf(config, a));
    }

    lemma Facts()
      requires Valid()
      ensures |workers| == config.processors && Measure(config, View()) >= 0
    {
      MainIsOk(config, View());
      MeasureNonNegative(config, View());
    }

    /** Every schedule, and any moment for an interrupt, ends past the last join. */
    method Schedule(mayInterrupt: bool)
      requires Valid() && !threadExit && (config.processors > 0 || config.jobs == [])
      modifies this, collector
      ensures Valid() && Finished(config, View())
      ensures threadExit ==> mayInterrupt
    {
      hide Pool.Valid, Leads, Inv, Collector.Reports, Apply, Enabled, Measure;
      while !(dispatched == |config.jobs| && breaks == config.processors
              && |collected| == |config.jobs| && joined == config.processors)
        invariant Valid() && (threadExit ==> mayInterrupt)
        decreases Measure(config, View())
      {
        if mayInterrupt {
          var signal: bool := *;
          if signal { SigintHook(); }
        }
        Facts();
        SomeoneMoves();
        var thread :| 0 <= thread <= config.processors && CanMove(thread);
        ghost var middle := View();
        if thread < config.processors {
          WorkerStep(thread);
        } else {
          MainStep();
        }
        ghost var a :| Stepped(middle, a);
        StepDescends(config, middle, a);
      }
    }
  }

  /** `run_tests`, from the spun-up threads to the exit code.  Whatever the schedule and
      whenever an interrupt arrives, every job comes back exactly once and is in exactly one
      counter or was interrupted, and the code is 0 exactly when every job came back passed or
      skipped.  Without an interrupt counters and lists are those of the jobs, condition by
      condition, and the code is 0 exactly when every job is skipped or returns 0. */
  method RunTests(jobs: seq<Job>, processors: nat, mayInterrupt: bool)
    returns (code: int, summary: Summary, results: seq<Result>)
    requires processors > 0 || jobs == []
    ensures |results| == |jobs| && IdsBelow(results, |jobs|) && NoDup(Ids(results))
    ensures forall i :: 0 <= i < |results| ==>
              results[i].outcome == OutcomeOf(jobs[results[i].id]) || (mayInterrupt && results[i].outcome == Interrupted)
    ensures FromNames(summary, jobs, results) && Summarises(summary, jobs, results)
    ensures summary.passed + summary.failed + summary.valgrind + summary.crashed + summary.skipped
            + |CutShort(results)| == |jobs|
    ensures code == 0 || code == 1
    ensures code == 0 <==> forall id :: 0 <= id < |jobs| ==> CameBackFine(results, id)
    ensures !mayInterrupt ==>
              && SummarisesJobs(summary, jobs)
              && (forall status :: CountOf(jobs, results, status) == CountOf(jobs, Sequential(jobs), status))
              && (code == 0 <==> forall i :: 0 <= i < |jobs| ==> jobs[i].isSkip || jobs[i].returncode == 0)
  {
    hide Leads, Inv, Finished, Named, NoDup, CameBackFine, CountOf, Sequential, FromNames, Summarises, SummarisesJobs, CutShort;
    var pool := new Pool(jobs, processors);
    pool.Schedule(mayInterrupt);
    var c := pool.collector;
    results := pool.collected;
    RunAccounting(pool.config, pool.run, pool.View());
    CompleteRun(pool.config, pool.run, pool.View());
    OwnOutcomes(pool.config, pool.run, pool.View());
    code := c.ExitCode(|jobs|, results);
    summary := c.Printed();
    NamedSummarises(summary, jobs, results);
    SummaryAddsUp(summary, jobs, results);
    if !mayInterrupt {
      CollectedIsPermutation(pool.config, pool.run, pool.View());
      PermutedSummary(summary, jobs, results);
      SameCounts(pool.config, pool.run, pool.View());
      SequentialFine(jobs);
    }
  }

  lemma SummaryAddsUp(y: Summary, jobs: seq<Job>, results: seq<Result>)
    requires IdsBelow(results, |jobs|) && FromNames(y, jobs, results)
    ensures y.passed + y.failed + y.valgrind + y.crashed + y.skipped + |CutShort(results)| == |results|
  {
    hide Named, CutShort;
    Accounting(jobs, results);
    BrokenCount(jobs, results);
  }

  /** What a complete run says about its results, beside their counts. */
  lemma CompleteRun(c: Config, run: seq<Action>, t: State)
    requires Leads(c, Init(c), run, t) && Finished(c, t)
    ensures |t.collected| == |c.jobs| && IdsBelow(t.collected, |c.jobs|) && NoDup(Ids(t.collected))
    ensures forall status :: CountOf(c.jobs, t.collected, status) == |Named(c.jobs, t.collected, status)|
    ensures (forall i :: 0 <= i < |t.collected| ==> Fine(t.collected[i]))
            <==> forall id :: 0 <= id < |c.jobs| ==> CameBackFine(t.collected, id)
    ensures (forall i :: 0 <= i < |t.collected| ==> Fine(t.collected[i]))
            <==> CountOf(c.jobs, t.collected, Pass) + CountOf(c.jobs, t.collected, Skip) == |c.jobs|
  {
    CollectedBelow(c, run, t);
    AllCollected(c, run, t);
    AllFine(c.jobs, t.collected);
    AllCameBackFine(t.collected, |c.jobs|);
  }

  /** Every result is its job's own outcome, or the job was interrupted. */
  lemma OwnOutcomes(c: Config, run: seq<Action>, t: State)
    requires Leads(c, Init(c), run, t) && IdsBelow(t.collected, |c.jobs|)
    ensures forall i :: 0 <= i < |t.collected| ==>
              || t.collected[i].outcome == OutcomeOf(c.jobs[t.collected[i].id])
              || (t.interrupted && t.collected[i].outcome == Interrupted)
  {
    InitInv(c);
    RunInv(c, Init(c), run, t);
    forall i | 0 <= i < |t.collected|
      ensures ValidResult(c, t, t.collected[i])
    {
      assert t.collected[i] in t.collected;
    }
  }

  lemma SequentialFine(jobs: seq<Job>)
    ensures CountOf(jobs, Sequential(jobs), Pass) + CountOf(jobs, Sequential(jobs), Skip) == |jobs|
            <==> forall i :: 0 <= i < |jobs| ==> jobs[i].isSkip || jobs[i].returncode == 0
  {
    AllFine(jobs, Sequential(jobs));
    forall i | 0 <= i < |jobs|
      ensures Fine(Sequential(jobs)[i]) <==> jobs[i].isSkip || jobs[i].returncode == 0
    {
    }
  }

  lemma SameCounts(c: Config, run: seq<Action>, t: State)
    requires Leads(c, Init(c), run, t) && Finished(c, t) && !t.interrupted
    ensures IdsBelow(t.collected, |c.jobs|)
    ensures forall status :: CountOf(c.jobs, t.collected, status) == CountOf(c.jobs, Sequential(c.jobs), status)
  {
    CollectedBelow(c, run, t);
    CollectedIsPermutation(c, run, t);
    forall status: Status
      ensures CountOf(c.jobs, t.collected, status) == CountOf(c.jobs, Sequential(c.jobs), status)
    {
      NamedPermutation(c.jobs, t.collected, Sequential(c.jobs), status);
      var mine, theirs := Named(c.jobs, t.collected, status), Named(c.jobs, Sequential(c.jobs), status);
      assert |mine| == |multiset(mine)| && |theirs| == |multiset(theirs)|;
    }
  }
}
