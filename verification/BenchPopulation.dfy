/** The event loop of utils/bench-scheduler.cc: `Bench::Run` and its callback, against a
simulator that may run its pending events in any order. */
module BenchPopulation {

  lemma NonEmpty(m: multiset<int>)
    requires m != multiset{}
    ensures exists x :: x in m
  {
    assert |m| > 0;
    assert (forall x :: x !in m) ==> m == multiset{};
  }

  class Bench {
    const population: nat
    const total: nat
    var count: nat
    var pending: multiset<int>  // the simulator's events, by the time they are due
    var stopped: bool           // the simulator was asked to stop

    constructor (population: nat, total: nat)
      ensures this.population == population && this.total == total
      ensures count == 0 && pending == multiset{} && !stopped
    {
      this.population, this.total := population, total;
      count, pending, stopped := 0, multiset{}, false;
    }

    method Schedule(at: int)
      modifies this`pending
      ensures pending == old(pending) + multiset{at}
    {
      pending := pending + multiset{at};
    }

    /** The event function, run at time `now`. */
    method Cb(now: int)
      modifies this
      ensures old(count) >= total ==> stopped && count == old(count) && pending == old(pending)
      ensures old(count) < total ==>
                stopped == old(stopped) && count == old(count) + 1
                && exists at :: at >= now && pending == old(pending) + multiset{at}
    {
      if count >= total {
        stopped := true;
        return;
      }
      var after :| after >= 0;
      var at := now + after;
      Schedule(at);
      count := count + 1;
      assert pending == old(pending) + multiset{at};
    }

    /** One run from an empty simulator.  `sizes` records how many events are pending after each
        counted callback; `left`, how many when the simulator stops.  The run terminates for
        every choice of event and delay. */
    method Run() returns (events: nat, ghost sizes: seq<nat>, ghost left: nat)
      requires pending == multiset{}
      modifies this
      ensures events == count == if population == 0 then 0 else total
      ensures |sizes| == events && forall i :: 0 <= i < |sizes| ==> sizes[i] == population
      ensures left == if population == 0 then 0 else population - 1
      ensures stopped <==> population > 0
      ensures pending == multiset{}
    {
      count, stopped, sizes := 0, false, [];
      for i := 0 to population
        invariant |pending| == i && count == 0 && !stopped
      {
        var at: nat := *;
        Schedule(at);
      }
      while pending != multiset{} && !stopped
        invariant count <= total && |sizes| == count
        invariant forall i :: 0 <= i < |sizes| ==> sizes[i] == population
        invariant if stopped then population > 0 && count == total && |pending| == population - 1
                  else |pending| == population
        invariant population == 0 ==> count == 0
        decreases total - count, if stopped then 0 else 1
      {
        NonEmpty(pending);
        var now :| now in pending;
        pending := pending - multiset{now};
        ghost var before := count;
        Cb(now);
        if count > before { sizes := sizes + [|pending|]; }
      }
      events, left := count, |pending|;
      pending := multiset{};  // Simulator::Destroy
    }
  }

  /** The suite's priming run and data runs: every run executes the same number of events, so
      the rates and periods derived from them are comparable. */
  method Suite(population: nat, total: nat, runs: nat) returns (events: seq<nat>)
    ensures |events| == runs
    ensures forall i :: 0 <= i < runs ==> events[i] == if population == 0 then 0 else total
  {
    var bench := new Bench(population, total);
    var prime, sizes, left := bench.Run();
    events := [];
    for i := 0 to runs
      invariant fresh(bench) && bench.pending == multiset{}
      invariant bench.population == population && bench.total == total
      invariant |events| == i && forall j :: 0 <= j < i ==> events[j] == if population == 0 then 0 else total
    {
      var executed, sizes, left := bench.Run();
      events := events + [executed];
    }
  }
}
