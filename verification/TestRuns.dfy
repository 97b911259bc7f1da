/** What holds of every run of the parallel test runner: it cannot deadlock or go on for
ever, loses and repeats nothing, and after an interrupt launches nothing new. */
module TestRuns {
  import opened Sequences
  import opened TestProtocol

  // ----- termination -----

  /** Steps still possible.  Each job costs six (put, get, check, run, put back, collect), each
      worker four (its break is put, taken and obeyed, and it is joined), the interrupt one. */
  ghost function Measure(c: Config, s: State): int {
    6 * (|c.jobs| - s.dispatched) + 3 * (c.processors - s.breaks) + (c.processors - s.joined)
    + (if s.interrupted then 0 else 1) + Observe(s, StepsAhead())
  }

  lemma StepDescends(c: Config, s: State, a: Action)
    requires Enabled(c, s, a)
    ensures Measure(c, Apply(c, s, a)) < Measure(c, s)
  {
    Balance(c, s, a, StepsAhead());
  }

  lemma {:induction false} RunDescends(c: Config, s: State, run: seq<Action>, t: State)
    requires Inv(c, s) && Leads(c, s, run, t)
    ensures |run| <= Measure(c, s) - Measure(c, t) && Measure(c, t) >= 0
    decreases |run|
  {
    if run != [] {
      StepInv(c, s, run[0]);
      StepDescends(c, s, run[0]);
      RunDescends(c, Apply(c, s, run[0]), run[1..], t);
    }
  }

  /** No run is longer than this, so every run that is never blocked comes to an end. */
  lemma RunsAreBounded(c: Config, run: seq<Action>, t: State)
    requires Leads(c, Init(c), run, t)
    ensures |run| <= 6 * |c.jobs| + 4 * c.processors + 1
  {
    InitInv(c);
    RunDescends(c, Init(c), run, t);
    SumZero(Init(c).workers, StepsAhead().worker);
  }

  // ----- no deadlock -----

  /** Some step other than the arrival of an interrupt is possible. */
  ghost predicate CanStep(c: Config, s: State) {
    exists a :: a != Interrupt && Enabled(c, s, a)
  }

  ghost predicate Resting(s: State) {
    forall w :: 0 <= w < |s.workers| ==> s.workers[w] == Idle || s.workers[w] == Returned
  }

  lemma BusyWorkerSteps(c: Config, s: State, w: nat)
    requires Inv(c, s) && w < |s.workers| && s.workers[w] != Idle && s.workers[w] != Returned
    ensures CanStep(c, s)
  {
    assert WorkerOk(c, s, s.workers[w]);
    match s.workers[w] {
      case Holding(m) => assert Enabled(c, s, if m == Break then Retire(w) else CheckInterrupt(w));
      case Cleared(_) => assert Enabled(c, s, Execute(w));
      case Publishing(_) => assert Enabled(c, s, Publish(w));
    }
  }

  /** While results are missing and nobody is busy, a job is queued and a worker is free to
      take it. */
  lemma QueuedJobIsTaken(c: Config, s: State)
    requires Inv(c, s) && Resting(s) && c.processors > 0
    requires s.dispatched == |c.jobs| && |s.collected| < |c.jobs| && s.output == []
    ensures Enabled(c, s, Dequeue(0))
  {
    SumAll(s.collected, Jobs().collected);
    SumZero(s.workers, Jobs().worker);
    var i := SumWitness(s.input, Jobs().message);
    assert s.input[i] != Break;
  }

  /** While a worker is idle at the end, a break job is queued for it. */
  lemma QueuedBreakIsTaken(c: Config, s: State)
    requires Inv(c, s) && Resting(s) && s.breaks == c.processors
    requires s.joined < c.processors && s.workers[s.joined] == Idle
    ensures Enabled(c, s, Dequeue(s.joined))
  {
    var f := Breaks().worker;
    SumAt(s.workers, s.joined, f);
    SumUpTo(s.workers[..s.joined], f);
    SumUpTo(s.workers[s.joined + 1..], f);
    SumZero(s.output, Breaks().output);
    SumZero(s.collected, Breaks().collected);
    var i := SumWitness(s.input, Breaks().message);
  }

  lemma NoDeadlock(c: Config, s: State)
    requires Inv(c, s) && !Finished(c, s) && (c.processors > 0 || c.jobs == [])
    ensures CanStep(c, s)
  {
    if s.dispatched < |c.jobs| {
      assert Enabled(c, s, Dispatch);
    } else if s.breaks < c.processors {
      assert Enabled(c, s, PutBreak);
    } else if w :| 0 <= w < |s.workers| && s.workers[w] != Idle && s.workers[w] != Returned {
      BusyWorkerSteps(c, s, w);
    } else if |s.collected| < |c.jobs| {
      if s.output != [] {
        assert Enabled(c, s, Collect);
      } else {
        QueuedJobIsTaken(c, s);
      }
    } else if s.workers[s.joined] == Returned {
      assert Enabled(c, s, Join);
    } else {
      QueuedBreakIsTaken(c, s);
    }
  }

  ghost function Dispatches(n: nat): seq<Action> {
    seq(n, _ => Dispatch)
  }

  /** With no worker, dispatching is all that can happen. */
  lemma {:induction false} DispatchAll(c: Config, s: State) returns (t: State)
    requires c.processors == 0 && s.dispatched <= |c.jobs|
    ensures Leads(c, s, Dispatches(|c.jobs| - s.dispatched), t)
    ensures t == s.(dispatched := |c.jobs|, input := t.input)
    decreases |c.jobs| - s.dispatched
  {
    var run := Dispatches(|c.jobs| - s.dispatched);
    if s.dispatched == |c.jobs| {
      t := s;
    } else {
      var next := Apply(c, s, Dispatch);
      t := DispatchAll(c, next);
      assert run[1..] == Dispatches(|c.jobs| - next.dispatched);
    }
  }

  lemma NobodyToStep(c: Config, t: State)
    requires t.workers == [] && t.breaks == c.processors && t.dispatched == |c.jobs| && t.output == []
    requires |t.collected| < |c.jobs|
    ensures !Finished(c, t) && !CanStep(c, t)
  {
  }

  lemma StuckWithoutWorkers(c: Config) returns (run: seq<Action>, t: State)
    requires c.processors == 0 && c.jobs != []
    ensures Leads(c, Init(c), run, t) && !Finished(c, t) && !CanStep(c, t)
  {
    run := Dispatches(|c.jobs|);
    t := DispatchAll(c, Init(c));
    NobodyToStep(c, t);
  }

  lemma RunsCanStep(c: Config, run: seq<Action>, t: State)
    requires c.processors > 0 || c.jobs == []
    requires Leads(c, Init(c), run, t) && !Finished(c, t)
    ensures CanStep(c, t)
  {
    InitInv(c);
    RunInv(c, Init(c), run, t);
    NoDeadlock(c, t);
  }

  ghost predicate DeadlockFree(c: Config) {
    forall run, t :: Leads(c, Init(c), run, t) && !Finished(c, t) ==> CanStep(c, t)
  }

  /** No run gets stuck, up to and including the last join, exactly when there is a worker or
      nothing to do.  A negative `--jobs` makes zero workers. */
  lemma DeadlockFreeIff(c: Config)
    ensures DeadlockFree(c) <==> c.processors > 0 || c.jobs == []
  {
    if c.processors > 0 || c.jobs == [] {
      forall run, t | Leads(c, Init(c), run, t) && !Finished(c, t)
        ensures CanStep(c, t)
      {
        RunsCanStep(c, run, t);
      }
    } else {
      var run, t := StuckWithoutWorkers(c);
    }
  }

  // ----- nothing lost, nothing twice -----

  /** No worker returns, or is about to, while a job is still queued. */
  lemma NoEarlyReturn(c: Config, run: seq<Action>, t: State, w: nat, i: nat)
    requires Leads(c, Init(c), run, t)
    requires w < |t.workers| && (t.workers[w] == Returned || t.workers[w] == Holding(Break))
    requires i < |t.input|
    ensures t.input[i] == Break
  {
    InitInv(c);
    RunInv(c, Init(c), run, t);
  }

  lemma {:induction false} SumTwice<T>(s: seq<T>, f: T -> nat, i: nat, j: nat)
    requires i < j < |s|
    ensures Sum(s, f) >= f(s[i]) + f(s[j])
  {
    SumAt(s, j, f);
    SumAt(s[..j], i, f);
  }

  lemma SumLeast<T>(s: seq<T>, f: T -> nat, i: nat)
    requires i < |s|
    ensures Sum(s, f) >= f(s[i])
  {
    SumAt(s, i, f);
  }

  ghost function Ids(results: seq<Result>): (r: seq<nat>)
    ensures |r| == |results| && forall i :: 0 <= i < |r| ==> r[i] == results[i].id
  {
    seq(|results|, i requires 0 <= i < |results| => results[i].id)
  }

  /** At every moment of every run, even an interrupted one, no job has come back twice, none
      comes back that was not sent, and none is run twice or run though it is to be skipped. */
  lemma NothingTwice(c: Config, run: seq<Action>, t: State)
    requires Leads(c, Init(c), run, t)
    ensures NoDup(Ids(t.collected)) && forall id :: id in Ids(t.collected) ==> id < t.dispatched
    ensures NoDup(t.launched) && forall id :: id in t.launched ==> id < |c.jobs| && !c.jobs[id].isSkip
  {
    InitInv(c);
    RunInv(c, Init(c), run, t);
    forall i, j | 0 <= i < j < |t.collected|
      ensures t.collected[i].id != t.collected[j].id
    {
      assert Counted(t, t.collected[i].id);
      SumTwice(t.collected, Places(t.collected[i].id).collected, i, j);
    }
    forall i | 0 <= i < |t.collected|
      ensures t.collected[i].id < t.dispatched
    {
      assert Counted(t, t.collected[i].id);
      SumLeast(t.collected, Places(t.collected[i].id).collected, i);
    }
    forall i, j | 0 <= i < j < |t.launched|
      ensures t.launched[i] != t.launched[j]
    {
      SumTwice(t.launched, Is(t.launched[i]), i, j);
      LaunchedOnce(c, t, t.launched[i]);
    }
    forall i | 0 <= i < |t.launched|
      ensures t.launched[i] < |c.jobs| && !c.jobs[t.launched[i]].isSkip
    {
      SumLeast(t.launched, Is(t.launched[i]), i);
      LaunchedOnce(c, t, t.launched[i]);
    }
  }

  lemma {:induction false} SumCompare<T>(s: seq<T>, f: T -> nat, g: T -> nat)
    requires forall x :: x in s ==> f(x) <= g(x)
    ensures Sum(s, f) <= Sum(s, g)
  {
    if s != [] {
      assert s[|s| - 1] in s;
      SumCompare(s[..|s| - 1], f, g);
    }
  }

  lemma LaunchedOnce(c: Config, s: State, id: nat)
    requires Inv(c, s)
    ensures Sum(s.launched, Is(id)) <= 1
    ensures Sum(s.launched, Is(id)) > 0 ==> id < |c.jobs| && !c.jobs[id].isSkip
  {
    assert Counted(s, id);
    var p, l := Places(id), Launches(id);
    SumCompare(s.input, l.message, p.message);
    SumCompare(s.workers, l.worker, p.worker);
    SumCompare(s.output, l.output, p.output);
    SumCompare(s.collected, l.collected, p.collected);
    if Observe(s, l) > 0 {
      LaunchResult(c, s, id);
    }
  }

  /** A job counted as launched is known from a result that says so. */
  lemma LaunchResult(c: Config, s: State, id: nat)
    requires Inv(c, s) && Observe(s, Launches(id)) > 0
    ensures id < |c.jobs| && !c.jobs[id].isSkip
  {
    var l := Launches(id);
    SumZero(s.input, l.message);
    if Sum(s.workers, l.worker) > 0 {
      var i := SumWitness(s.workers, l.worker);
      assert WorkerOk(c, s, s.workers[i]);
    } else if Sum(s.output, l.output) > 0 {
      var i := SumWitness(s.output, l.output);
      assert ValidResult(c, s, s.output[i]);
    } else {
      var i := SumWitness(s.collected, l.collected);
      assert ValidResult(c, s, s.collected[i]);
    }
  }

  /** At the last join every job sent has come back exactly once, and nothing is left over. */
  lemma AllCollected(c: Config, run: seq<Action>, t: State)
    requires Leads(c, Init(c), run, t) && Finished(c, t)
    ensures NoDup(Ids(t.collected)) && Elems(Ids(t.collected)) == UpTo(|c.jobs|)
    ensures t.input == [] && t.output == [] && forall w :: 0 <= w < |t.workers| ==> t.workers[w] == Returned
  {
    InitInv(c);
    RunInv(c, Init(c), run, t);
    NothingTwice(c, run, t);
    NoDupCardinality(Ids(t.collected));
    SubsetFull(Elems(Ids(t.collected)), UpTo(|c.jobs|));
    Drained(c, t);
  }

  lemma Drained(c: Config, s: State)
    requires Inv(c, s) && Finished(c, s)
    ensures s.input == [] && s.output == [] && forall w :: 0 <= w < |s.workers| ==> s.workers[w] == Returned
  {
    SumAll(s.collected, Jobs().collected);
    SumAll(s.output, Jobs().output);
    SumAll(s.workers, Breaks().worker);
    MessagesCounted(s.input);
  }

  lemma {:induction false} MessagesCounted(s: seq<Message>)
    ensures Sum(s, Jobs().message) + Sum(s, Breaks().message) == |s|
  {
    if s != [] { MessagesCounted(s[..|s| - 1]); }
  }

  lemma SubsetFull<T>(a: set<T>, b: set<T>)
    requires a <= b && |a| == |b|
    ensures a == b
  {
    if x :| x in b && x !in a {
      SubsetCardinality(a, b - {x});
    }
  }

  /** The jobs run are exactly those that came back as run, not skipped or interrupted. */
  lemma LaunchedExactly(c: Config, run: seq<Action>, t: State, id: nat)
    requires Leads(c, Init(c), run, t) && Finished(c, t)
    ensures id in t.launched <==> exists i :: 0 <= i < |t.collected| && RanResult(t.collected[i], id)
  {
    InitInv(c);
    RunInv(c, Init(c), run, t);
    Drained(c, t);
    assert Counted(t, id);
    var l := Launches(id);
    SumZero(t.workers, l.worker);
    if id in t.launched {
      var i :| 0 <= i < |t.launched| && t.launched[i] == id;
      SumLeast(t.launched, Is(id), i);
      var j := SumWitness(t.collected, l.collected);
    }
    if i: nat :| i < |t.collected| && RanResult(t.collected[i], id) {
      SumLeast(t.collected, l.collected, i);
      var j := SumWitness(t.launched, Is(id));
    }
  }

  // ----- first in, first out -----

  /** The jobs in the input queue, in order. */
  ghost function Queued(input: seq<Message>): seq<nat> {
    if input == [] then [] else
      Queued(input[..|input| - 1]) + QueuedIn(input[|input| - 1])
  }

  ghost function QueuedIn(m: Message): seq<nat> {
    if m.Real? then [m.id] else []
  }

  ghost function InHand(w: Worker): seq<nat> {
    match w
    case Holding(m) => QueuedIn(m)
    case Cleared(id) => [id]
    case Publishing(r) => [r.id]
    case _ => []
  }

  lemma {:induction false} QueuedHead(input: seq<Message>)
    requires input != []
    ensures Queued(input) == QueuedIn(input[0]) + Queued(input[1..])
  {
    if |input| > 1 {
      var init, last := input[..|input| - 1], input[|input| - 1];
      QueuedHead(init);
      assert init[1..] == input[1..][..|input| - 2];
      assert QueuedIn(input[0]) + Queued(init[1..]) + QueuedIn(last)
          == QueuedIn(input[0]) + (Queued(init[1..]) + QueuedIn(last));
    } else {
      assert input[..0] == [] && input[1..] == [];
    }
  }

  ghost function Line(collected: seq<nat>, output: seq<nat>, hand: seq<nat>, input: seq<nat>): seq<nat> {
    collected + (output + (hand + input))
  }

  lemma LineGrows(collected: seq<nat>, output: seq<nat>, hand: seq<nat>, input: seq<nat>, more: seq<nat>)
    ensures Line(collected, output, hand, input + more) == Line(collected, output, hand, input) + more
  {
  }

  /** Moving along the line changes nothing. */
  lemma LineMoves(collected: seq<nat>, output: seq<nat>, hand: seq<nat>, input: seq<nat>, x: seq<nat>)
    ensures Line(collected + x, output, hand, input) == Line(collected, x + output, hand, input)
    ensures Line(collected, output + x, [], input) == Line(collected, output, x, input)
    ensures Line(collected, output, x, input) == Line(collected, output, [], x + input)
  {
    assert x + input == [] + (x + input);
    assert output + x + ([] + input) == output + (x + input);
    assert collected + x + (output + (hand + input)) == collected + (x + output + (hand + input));
  }

  /** With one worker, every job sent is somewhere on one line from the input queue through the
      worker and the output queue to the results, in the order sent. */
  ghost predicate OneLine(s: State) {
    && |s.workers| == 1
    && Line(Ids(s.collected), Ids(s.output), InHand(s.workers[0]), Queued(s.input)) == Numbers(s.dispatched)
  }

  ghost function Numbers(n: nat): (r: seq<nat>)
    ensures |r| == n && forall i :: 0 <= i < n ==> r[i] == i
  {
    seq(n, i => i)
  }

  lemma LineStep(c: Config, s: State, a: Action)
    requires OneLine(s) && Enabled(c, s, a)
    ensures OneLine(Apply(c, s, a))
  {
    var t := Apply(c, s, a);
    var collected, output, hand, input := Ids(s.collected), Ids(s.output), InHand(s.workers[0]), Queued(s.input);
    match a {
      case Dispatch => SentLast(s.input, Real(s.dispatched));
      case PutBreak => SentLast(s.input, Break);
      case Collect => ResultsMove(s.collected, s.output);
      case Dequeue(w) => QueuedHead(s.input);
      case Publish(w) => assert Ids(t.output) == output + hand;
      case _ =>
    }
    hide Line, Ids, Queued, Numbers;
    match a {
      case Dispatch =>
        LineGrows(collected, output, hand, input, [s.dispatched]);
        NumbersSnoc(s.dispatched);
      case PutBreak => LineGrows(collected, output, hand, input, []);
      case Collect => LineMoves(collected, Ids(t.output), hand, input, [s.output[0].id]);
      case Dequeue(w) => LineMoves(collected, output, hand, Queued(t.input), InHand(t.workers[0]));
      case Publish(w) => LineMoves(collected, output, hand, input, hand);
      case _ =>
    }
  }

  lemma NumbersSnoc(n: nat)
    ensures Numbers(n + 1) == Numbers(n) + [n]
  {
  }

  lemma ResultsMove(collected: seq<Result>, output: seq<Result>)
    requires output != []
    ensures Ids(output) == [output[0].id] + Ids(output[1..])
    ensures Ids(collected + [output[0]]) == Ids(collected) + [output[0].id]
  {
  }

  lemma SentLast(input: seq<Message>, m: Message)
    ensures Queued(input + [m]) == Queued(input) + QueuedIn(m)
  {
    assert (input + [m])[..|input|] == input;
  }

  lemma {:induction false} RunLine(c: Config, s: State, run: seq<Action>, t: State)
    requires OneLine(s) && Leads(c, s, run, t)
    ensures OneLine(t)
    decreases |run|
  {
    if run != [] {
      hide OneLine, Apply, Enabled;
      LineStep(c, s, run[0]);
      RunLine(c, Apply(c, s, run[0]), run[1..], t);
    }
  }

  /** A single worker gives the jobs back in the order in which they were sent, at every moment
      and interrupted or not. */
  lemma OneWorkerInOrder(c: Config, run: seq<Action>, t: State, i: nat)
    requires c.processors == 1 && Leads(c, Init(c), run, t) && i < |t.collected|
    ensures t.collected[i].id == i
  {
    assert OneLine(Init(c));
    RunLine(c, Init(c), run, t);
    hide *;
    LineStarts(Ids(t.collected), Ids(t.output), InHand(t.workers[0]), Queued(t.input), Numbers(t.dispatched), i);
  }

  lemma LineStarts(collected: seq<nat>, output: seq<nat>, hand: seq<nat>, input: seq<nat>, all: seq<nat>, i: nat)
    requires Line(collected, output, hand, input) == all && i < |collected|
    ensures i < |all| && all[i] == collected[i]
  {
  }

  // ----- after an interrupt -----

  ghost function ClearedWorkers(): Worker -> nat {
    (w: Worker) => if w.Cleared? then 1 else 0
  }

  ghost predicate ClearedIn(s: State, id: nat) {
    exists w :: 0 <= w < |s.workers| && s.workers[w] == Cleared(id)
  }

  /** Once the flag is set, the only jobs still run are those that had passed their interrupt
      check, and there are no more of them than workers. */
  lemma {:induction false} NoLaunchAfterInterrupt(c: Config, s: State, run: seq<Action>, t: State)
    requires s.interrupted && Leads(c, s, run, t)
    ensures t.interrupted && s.launched <= t.launched
    ensures forall id :: id in t.launched[|s.launched|..] ==> ClearedIn(s, id)
    ensures |t.launched| - |s.launched| <= Sum(s.workers, ClearedWorkers()) <= |s.workers|
    decreases |run|
  {
    SumUpTo(s.workers, ClearedWorkers());
    if run != [] {
      var a := run[0];
      var next := Apply(c, s, a);
      NoLaunchAfterInterrupt(c, next, run[1..], t);
      ClearedShrinks(c, s, a);
      forall id | id in t.launched[|s.launched|..]
        ensures ClearedIn(s, id)
      {
        var i :| |s.launched| <= i < |t.launched| && t.launched[i] == id;
        if i < |next.launched| {
          assert t.launched[i] == next.launched[i];
        } else {
          assert t.launched[|next.launched|..][i - |next.launched|] == id;
        }
      }
    }
  }

  lemma ClearedShrinks(c: Config, s: State, a: Action)
    requires s.interrupted && Enabled(c, s, a)
    ensures var t := Apply(c, s, a);
            && t.interrupted && s.launched <= t.launched
            && (forall id :: ClearedIn(t, id) ==> ClearedIn(s, id))
            && (forall i :: |s.launched| <= i < |t.launched| ==> ClearedIn(s, t.launched[i]))
            && |t.launched| + Sum(t.workers, ClearedWorkers()) <= |s.launched| + Sum(s.workers, ClearedWorkers())
  {
    var t := Apply(c, s, a);
    if a.Dequeue? || a.Retire? || a.CheckInterrupt? || a.Execute? || a.Publish? {
      SumUpdate(s.workers, a.w, t.workers[a.w], ClearedWorkers());
    }
    forall id | ClearedIn(t, id)
      ensures ClearedIn(s, id)
    {
      var w :| 0 <= w < |t.workers| && t.workers[w] == Cleared(id);
      assert s.workers[w] == Cleared(id);
    }
  }
}
