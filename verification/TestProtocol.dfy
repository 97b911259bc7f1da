/** The parallel part of test.py: the main thread of `run_tests`, its workers, the two FIFO
queues between them and the interrupt flag, as a step relation over atomic actions.

Every claim is about all interleavings: a run is any sequence of enabled actions. */
module TestProtocol {
  import opened Sequences

  /** A dispatched job.  `returncode` is what its command returns if it is run. */
  datatype Job = Job(name: string, isSkip: bool, skipReason: string, returncode: int)

  datatype Config = Config(jobs: seq<Job>, processors: nat)

  datatype Message = Real(id: nat) | Break
  datatype Outcome = Interrupted | Skipped | Ran(returncode: int)
  datatype Result = Result(id: nat, outcome: Outcome)

  /** Where a worker is in its loop: about to call `get`; holding what it got; past the
      interrupt check; with a job to `put`; or returned. */
  datatype Worker = Idle | Holding(m: Message) | Cleared(id: nat) | Publishing(r: Result) | Returned

  datatype State = State(
    dispatched: nat,         // jobs the main thread has put
    breaks: nat,             // break jobs it has put after them
    input: seq<Message>,
    workers: seq<Worker>,
    output: seq<Result>,
    collected: seq<Result>,  // what the main thread has taken from the output queue
    joined: nat,
    interrupted: bool,       // thread_exit
    launched: seq<nat>       // history: the jobs whose command was run
  )

  datatype Action =
    | Dispatch | PutBreak | Collect | Join
    | Dequeue(w: nat) | Retire(w: nat) | CheckInterrupt(w: nat) | Execute(w: nat) | Publish(w: nat)
    | Interrupt

  ghost function Init(c: Config): State {
    State(0, 0, [], seq(c.processors, _ => Idle), [], [], 0, false, [])
  }

  ghost predicate Enabled(c: Config, s: State, a: Action) {
    match a
    case Dispatch => s.dispatched < |c.jobs|
    case PutBreak => s.dispatched == |c.jobs| && s.breaks < c.processors
    case Collect => s.dispatched == |c.jobs| && s.breaks == c.processors && |s.collected| < |c.jobs| && s.output != []
    case Join => |s.collected| == |c.jobs| && s.dispatched == |c.jobs| && s.breaks == c.processors
                 && s.joined < c.processors && s.joined < |s.workers| && s.workers[s.joined] == Returned
    case Dequeue(w) => w < |s.workers| && s.workers[w] == Idle && s.input != []
    case Retire(w) => w < |s.workers| && s.workers[w] == Holding(Break)
    case CheckInterrupt(w) => w < |s.workers| && s.workers[w].Holding? && s.workers[w].m.Real?
    case Execute(w) => w < |s.workers| && s.workers[w].Cleared? && s.workers[w].id < |c.jobs|
    case Publish(w) => w < |s.workers| && s.workers[w].Publishing?
    case Interrupt => !s.interrupted
  }

  ghost function OutcomeOf(job: Job): Outcome {
    if job.isSkip then Skipped else Ran(job.returncode)
  }

  ghost function Apply(c: Config, s: State, a: Action): State
    requires Enabled(c, s, a)
  {
    match a
    case Dispatch => s.(dispatched := s.dispatched + 1, input := s.input + [Real(s.dispatched)])
    case PutBreak => s.(breaks := s.breaks + 1, input := s.input + [Break])
    case Collect => s.(collected := s.collected + [s.output[0]], output := s.output[1..])
    case Join => s.(joined := s.joined + 1)
    case Dequeue(w) => s.(workers := s.workers[w := Holding(s.input[0])], input := s.input[1..])
    case Retire(w) => s.(workers := s.workers[w := Returned])
    case CheckInterrupt(w) =>
      var id := s.workers[w].m.id;
      s.(workers := s.workers[w := if s.interrupted then Publishing(Result(id, Interrupted)) else Cleared(id)])
    case Execute(w) =>
      var id := s.workers[w].id;
      s.(workers := s.workers[w := Publishing(Result(id, OutcomeOf(c.jobs[id])))],
         launched := if c.jobs[id].isSkip then s.launched else s.launched + [id])
    case Publish(w) => s.(workers := s.workers[w := Idle], output := s.output + [s.workers[w].r])
    case Interrupt => s.(interrupted := true)
  }

  /** `run_tests` is past its last join. */
  ghost predicate Finished(c: Config, s: State) {
    s.dispatched == |c.jobs| && s.breaks == c.processors && |s.collected| == |c.jobs| && s.joined == c.processors
  }

  /** `run` leads from `s` to `t` in enabled steps. */
  ghost predicate Leads(c: Config, s: State, run: seq<Action>, t: State)
    decreases |run|
  {
    if run == [] then s == t
    else Enabled(c, s, run[0]) && Leads(c, Apply(c, s, run[0]), run[1..], t)
  }

  // ----- observers: one counting argument for everything that is conserved -----

  ghost function Sum<T>(s: seq<T>, f: T -> nat): nat {
    if s == [] then 0 else Sum(s[..|s| - 1], f) + f(s[|s| - 1])
  }

  lemma {:induction false} SumConcat<T>(a: seq<T>, b: seq<T>, f: T -> nat)
    ensures Sum(a + b, f) == Sum(a, f) + Sum(b, f)
  {
    if b == [] {
      assert a + b == a;
    } else {
      assert (a + b)[..|a + b| - 1] == a + b[..|b| - 1];
      SumConcat(a, b[..|b| - 1], f);
    }
  }

  lemma SumOne<T>(x: T, f: T -> nat)
    ensures Sum([x], f) == f(x)
  {
    assert [x][..0] == [];
  }

  lemma SumAt<T>(s: seq<T>, i: nat, f: T -> nat)
    requires i < |s|
    ensures Sum(s, f) == Sum(s[..i], f) + f(s[i]) + Sum(s[i + 1..], f)
  {
    hide Sum;
    assert s == s[..i] + ([s[i]] + s[i + 1..]);
    SumConcat(s[..i], [s[i]] + s[i + 1..], f);
    SumConcat([s[i]], s[i + 1..], f);
    SumOne(s[i], f);
  }

  lemma SumUpdate<T>(s: seq<T>, i: nat, x: T, f: T -> nat)
    requires i < |s|
    ensures Sum(s[i := x], f) + f(s[i]) == Sum(s, f) + f(x)
  {
    SumAt(s, i, f);
    SumAt(s[i := x], i, f);
    assert s[i := x][..i] == s[..i] && s[i := x][i + 1..] == s[i + 1..];
  }

  lemma {:induction false} SumWitness<T>(s: seq<T>, f: T -> nat) returns (i: nat)
    requires Sum(s, f) > 0
    ensures i < |s| && f(s[i]) > 0
  {
    if f(s[|s| - 1]) > 0 {
      i := |s| - 1;
    } else {
      i := SumWitness(s[..|s| - 1], f);
    }
  }

  lemma {:induction false} SumUpTo<T>(s: seq<T>, f: T -> nat)
    requires forall x :: x in s ==> f(x) <= 1
    ensures Sum(s, f) <= |s|
  {
    if s != [] {
      assert s[|s| - 1] in s;
      SumUpTo(s[..|s| - 1], f);
    }
  }

  lemma {:induction false} SumZero<T>(s: seq<T>, f: T -> nat)
    requires forall x :: x in s ==> f(x) == 0
    ensures Sum(s, f) == 0
  {
    if s != [] {
      assert s[|s| - 1] in s;
      SumZero(s[..|s| - 1], f);
    }
  }

  lemma {:induction false} SumAll<T>(s: seq<T>, f: T -> nat)
    requires forall x :: x in s ==> f(x) == 1
    ensures Sum(s, f) == |s|
  {
    if s != [] {
      assert s[|s| - 1] in s;
      SumAll(s[..|s| - 1], f);
    }
  }

  /** A weight for each place a job, a break or a result can be in. */
  datatype Observer = Observer(message: Message -> nat, worker: Worker -> nat, output: Result -> nat, collected: Result -> nat)

  ghost function Observe(s: State, o: Observer): nat {
    Sum(s.input, o.message) + Sum(s.workers, o.worker) + Sum(s.output, o.output) + Sum(s.collected, o.collected)
  }

  /** What an action takes out of the places it touches, as weighed by `o`. */
  ghost function Taken(c: Config, s: State, a: Action, o: Observer): nat
    requires Enabled(c, s, a)
  {
    match a
    case Collect => o.output(s.output[0])
    case Dequeue(w) => o.message(s.input[0]) + o.worker(Idle)
    case Retire(w) => o.worker(s.workers[w])
    case CheckInterrupt(w) => o.worker(s.workers[w])
    case Execute(w) => o.worker(s.workers[w])
    case Publish(w) => o.worker(s.workers[w])
    case _ => 0
  }

  /** What it puts into them. */
  ghost function Given(c: Config, s: State, a: Action, o: Observer): nat
    requires Enabled(c, s, a)
  {
    match a
    case Dispatch => o.message(Real(s.dispatched))
    case PutBreak => o.message(Break)
    case Collect => o.collected(s.output[0])
    case Dequeue(w) => o.worker(Holding(s.input[0]))
    case Retire(w) => o.worker(Returned)
    case CheckInterrupt(w) => o.worker(Apply(c, s, a).workers[w])
    case Execute(w) => o.worker(Apply(c, s, a).workers[w])
    case Publish(w) => o.worker(Idle) + o.output(s.workers[w].r)
    case _ => 0
  }

  lemma HeadTail<T>(s: seq<T>, f: T -> nat)
    requires s != []
    ensures Sum(s, f) == f(s[0]) + Sum(s[1..], f)
  {
    SumAt(s, 0, f);
    assert s[..0] == [];
  }

  lemma SumSnoc<T>(s: seq<T>, x: T, f: T -> nat)
    ensures Sum(s + [x], f) == Sum(s, f) + f(x)
  {
    SumConcat(s, [x], f);
    SumOne(x, f);
  }

  /** The one balance every conservation law below is an instance of. */
  lemma Balance(c: Config, s: State, a: Action, o: Observer)
    requires Enabled(c, s, a)
    ensures Observe(Apply(c, s, a), o) + Taken(c, s, a, o) == Observe(s, o) + Given(c, s, a, o)
  {
    var t := Apply(c, s, a);
    match a {
      case Dispatch => SumSnoc(s.input, Real(s.dispatched), o.message);
      case PutBreak => SumSnoc(s.input, Break, o.message);
      case Collect =>
        HeadTail(s.output, o.output);
        SumSnoc(s.collected, s.output[0], o.collected);
      case Dequeue(w) =>
        HeadTail(s.input, o.message);
        SumUpdate(s.workers, w, Holding(s.input[0]), o.worker);
      case Retire(w) => SumUpdate(s.workers, w, t.workers[w], o.worker);
      case CheckInterrupt(w) => SumUpdate(s.workers, w, t.workers[w], o.worker);
      case Execute(w) => SumUpdate(s.workers, w, t.workers[w], o.worker);
      case Publish(w) =>
        SumUpdate(s.workers, w, Idle, o.worker);
        SumSnoc(s.output, s.workers[w].r, o.output);
      case Join =>
      case Interrupt =>
    }
  }

  // ----- the observers -----

  ghost predicate Carries(w: Worker, id: nat) {
    match w
    case Holding(m) => m == Real(id)
    case Cleared(i) => i == id
    case Publishing(r) => r.id == id
    case _ => false
  }

  /** How many places job `id` is in. */
  ghost function Places(id: nat): Observer {
    Observer(m => if m == Real(id) then 1 else 0,
             w => if Carries(w, id) then 1 else 0,
             (r: Result) => if r.id == id then 1 else 0,
             (r: Result) => if r.id == id then 1 else 0)
  }

  /** How many jobs there are in all places together. */
  ghost function Jobs(): Observer {
    Observer((m: Message) => if m.Real? then 1 else 0,
             (w: Worker) => if w.Cleared? || w.Publishing? || (w.Holding? && w.m.Real?) then 1 else 0,
             r => 1,
             r => 1)
  }

  /** How many break jobs are queued, held or already obeyed. */
  ghost function Breaks(): Observer {
    Observer((m: Message) => if m == Break then 1 else 0,
             (w: Worker) => if w == Holding(Break) || w == Returned then 1 else 0,
             r => 0,
             r => 0)
  }

  ghost predicate RanResult(r: Result, id: nat) {
    r.id == id && r.outcome.Ran?
  }

  /** How many results say that job `id` was run. */
  ghost function Launches(id: nat): Observer {
    Observer((m: Message) => 0,
             (w: Worker) => if w.Publishing? && RanResult(w.r, id) then 1 else 0,
             (r: Result) => if RanResult(r, id) then 1 else 0,
             (r: Result) => if RanResult(r, id) then 1 else 0)
  }

  /** How many worker and collector steps are still ahead of what is in each place. */
  ghost function StepsAhead(): Observer {
    Observer((m: Message) => if m == Break then 2 else 5,
             (w: Worker) => match w
                            case Idle => 0
                            case Holding(m) => if m == Break then 1 else 4
                            case Cleared(_) => 3
                            case Publishing(_) => 2
                            case Returned => 0,
             r => 1,
             r => 0)
  }

  // ----- the invariant -----

  ghost predicate ValidResult(c: Config, s: State, r: Result) {
    && r.id < |c.jobs|
    && (r.outcome == OutcomeOf(c.jobs[r.id]) || (r.outcome == Interrupted && s.interrupted))
  }

  ghost predicate Counted(s: State, id: nat) {
    && Observe(s, Places(id)) == (if id < s.dispatched then 1 else 0)
    && Sum(s.launched, Is(id)) == Observe(s, Launches(id))
  }

  ghost function Is(id: nat): nat -> nat {
    x => if x == id then 1 else 0
  }

  ghost predicate MainInv(c: Config, s: State) {
    && |s.workers| == c.processors
    && s.dispatched <= |c.jobs| && s.breaks <= c.processors && s.joined <= c.processors
    && |s.collected| <= |c.jobs|
    && (s.breaks > 0 ==> s.dispatched == |c.jobs|)
    && (s.joined > 0 ==> |s.collected| == |c.jobs|)
    && (forall w :: 0 <= w < s.joined ==> s.workers[w] == Returned)
  }

  /** First in, first out: no job queues behind a break, and none queues once a break is out. */
  ghost predicate QueueInv(s: State) {
    && (forall i, j :: 0 <= i < j < |s.input| && s.input[i] == Break ==> s.input[j] == Break)
    && ((exists i :: 0 <= i < |s.input| && s.input[i] == Break) ==> s.breaks > 0)
    && (forall w :: 0 <= w < |s.workers| && (s.workers[w] == Holding(Break) || s.workers[w] == Returned) ==>
          s.breaks > 0 && forall i :: 0 <= i < |s.input| ==> s.input[i] == Break)
  }

  ghost predicate ResultInv(c: Config, s: State) {
    && (forall r :: r in s.output ==> ValidResult(c, s, r))
    && (forall r :: r in s.collected ==> ValidResult(c, s, r))
    && (forall i :: 0 <= i < |s.input| && s.input[i].Real? ==> s.input[i].id < |c.jobs|)
    && (forall w :: 0 <= w < |s.workers| ==> WorkerOk(c, s, s.workers[w]))
  }

  ghost predicate WorkerOk(c: Config, s: State, w: Worker) {
    match w
    case Holding(m) => m.Real? ==> m.id < |c.jobs|
    case Cleared(id) => id < |c.jobs|
    case Publishing(r) => ValidResult(c, s, r)
    case _ => true
  }

  ghost predicate CountInv(s: State) {
    && (forall id: nat :: Counted(s, id))
    && Observe(s, Jobs()) == s.dispatched
    && Observe(s, Breaks()) == s.breaks
  }

  ghost predicate Inv(c: Config, s: State) {
    MainInv(c, s) && QueueInv(s) && ResultInv(c, s) && CountInv(s)
  }

  lemma InitInv(c: Config)
    ensures Inv(c, Init(c))
  {
    var s := Init(c);
    forall id: nat
      ensures Counted(s, id)
    {
      SumZero(s.workers, Places(id).worker);
      SumZero(s.workers, Launches(id).worker);
    }
    SumZero(s.workers, Jobs().worker);
    SumZero(s.workers, Breaks().worker);
  }

  lemma StepMain(c: Config, s: State, a: Action)
    requires MainInv(c, s) && Enabled(c, s, a)
    ensures MainInv(c, Apply(c, s, a))
  {
  }

  lemma StepQueue(c: Config, s: State, a: Action)
    requires MainInv(c, s) && QueueInv(s) && Enabled(c, s, a)
    ensures QueueInv(Apply(c, s, a))
  {
    var t := Apply(c, s, a);
    if a.Dequeue? {
      assert forall i :: 0 <= i < |t.input| ==> t.input[i] == s.input[i + 1];
    }
  }

  lemma StepResult(c: Config, s: State, a: Action)
    requires MainInv(c, s) && ResultInv(c, s) && Enabled(c, s, a)
    ensures ResultInv(c, Apply(c, s, a))
  {
    var t := Apply(c, s, a);
    assert forall r :: ValidResult(c, s, r) ==> ValidResult(c, t, r);
    if a.Publish? {
      assert WorkerOk(c, s, s.workers[a.w]);
    }
    if a.Collect? {
      assert s.output[0] in s.output;
    }
  }

  lemma StepPlaces(c: Config, s: State, a: Action, id: nat)
    requires Enabled(c, s, a)
    ensures Observe(Apply(c, s, a), Places(id))
            == Observe(s, Places(id)) + if a == Dispatch && id == s.dispatched then 1 else 0
  {
    Balance(c, s, a, Places(id));
    hide Observe;
  }

  lemma StepLaunches(c: Config, s: State, a: Action, id: nat)
    requires Enabled(c, s, a)
    ensures Observe(Apply(c, s, a), Launches(id)) + Sum(s.launched, Is(id))
            == Observe(s, Launches(id)) + Sum(Apply(c, s, a).launched, Is(id))
  {
    Balance(c, s, a, Launches(id));
    if a.Execute? { SumSnoc(s.launched, s.workers[a.w].id, Is(id)); }
    hide Observe, Sum;
  }

  lemma StepCounted(c: Config, s: State, a: Action, id: nat)
    requires Counted(s, id) && Enabled(c, s, a)
    ensures Counted(Apply(c, s, a), id)
  {
    hide Observe, Sum, Places, Launches;
    StepPlaces(c, s, a, id);
    StepLaunches(c, s, a, id);
  }

  lemma StepCount(c: Config, s: State, a: Action)
    requires CountInv(s) && Enabled(c, s, a)
    ensures CountInv(Apply(c, s, a))
  {
    Balance(c, s, a, Jobs());
    Balance(c, s, a, Breaks());
    forall id: nat
      ensures Counted(Apply(c, s, a), id)
    {
      assert Counted(s, id);
      StepCounted(c, s, a, id);
    }
  }

  lemma StepInv(c: Config, s: State, a: Action)
    requires Inv(c, s) && Enabled(c, s, a)
    ensures Inv(c, Apply(c, s, a))
  {
    StepMain(c, s, a);
    StepQueue(c, s, a);
    StepResult(c, s, a);
    StepCount(c, s, a);
  }

  lemma {:induction false} RunInv(c: Config, s: State, run: seq<Action>, t: State)
    requires Inv(c, s) && Leads(c, s, run, t)
    ensures Inv(c, t)
    decreases |run|
  {
    if run != [] {
      StepInv(c, s, run[0]);
      RunInv(c, Apply(c, s, run[0]), run[1..], t);
    }
  }
}
