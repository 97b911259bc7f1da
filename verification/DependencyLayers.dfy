/** The load order of the Python bindings: `sort_to_dependencies` in
bindings/python/ns__init__.py.

The source recurses for ever once nothing more can be loaded; here that outcome is the
result `false` of `DependencyOrder`, and the theorems say exactly when it arises.
*/
module DependencyLayers {
  import opened Sequences

  type Library = string
  type Dependencies = map<Library, seq<Library>>

  // ----- what the dependency map itself says -----

  /** A chain of `|c| - 1` dependencies among the libraries of the map. */
  ghost predicate Chain(deps: Dependencies, c: seq<Library>) {
    && c != []
    && (forall i :: 0 <= i < |c| ==> c[i] in deps)
    && (forall i :: 0 <= i < |c| - 1 ==> c[i + 1] in deps[c[i]])
  }

  ghost predicate ChainOf(deps: Dependencies, x: Library, k: nat, c: seq<Library>) {
    Chain(deps, c) && |c| == k + 1 && c[0] == x
  }

  ghost predicate HasChain(deps: Dependencies, x: Library, k: nat) {
    exists c :: ChainOf(deps, x, k, c)
  }

  ghost predicate Cycle(deps: Dependencies, c: seq<Library>) {
    Chain(deps, c) && |c| > 1 && c[0] == c[|c| - 1]
  }

  ghost predicate Acyclic(deps: Dependencies) {
    forall c :: !Cycle(deps, c)
  }

  ghost predicate Missing(deps: Dependencies, x: Library, d: Library) {
    x in deps && d in deps[x] && d !in deps
  }

  ghost predicate Closed(deps: Dependencies) {
    forall x, d :: !Missing(deps, x, d)
  }

  /** Following dependencies from `x` leads to a library with a missing dependency, or round
      a cycle. */
  ghost predicate Doomed(deps: Dependencies, x: Library) {
    exists c :: DoomedBy(deps, x, c)
  }

  ghost predicate DoomedBy(deps: Dependencies, x: Library, c: seq<Library>) {
    && Chain(deps, c) && c[0] == x
    && var last := c[|c| - 1];
       (exists d :: Missing(deps, last, d)) || (exists cycle :: Cycle(deps, cycle) && cycle[0] == last)
  }

  /** `keys` lists the libraries of the map, each once, as Python's dict does. */
  ghost predicate KeyList(deps: Dependencies, keys: seq<Library>) {
    NoDup(keys) && forall x :: x in keys <==> x in deps
  }

  // ----- rounds -----

  /** `x` is not loaded by the first `k` rounds. */
  ghost predicate Waits(deps: Dependencies, x: Library, k: nat)
    decreases k
  {
    k == 0 || x !in deps || exists i :: 0 <= i < |deps[x]| && Waits(deps, deps[x][i], k - 1)
  }

  ghost function Waiting(deps: Dependencies, k: nat): set<Library> {
    set x | x in deps && Waits(deps, x, k)
  }

  /** What is pending after `k` rounds, in the order of `keys`. */
  ghost function Pending(deps: Dependencies, keys: seq<Library>, k: nat): seq<Library> {
    Keep(keys, Waiting(deps, k))
  }

  /** What round `k` loads, in the order of `keys`. */
  ghost function Layer(deps: Dependencies, keys: seq<Library>, k: nat): seq<Library> {
    Keep(keys, Waiting(deps, k) - Waiting(deps, k + 1))
  }

  ghost function Layers(deps: Dependencies, keys: seq<Library>, n: nat): (r: seq<seq<Library>>)
    ensures |r| == n && forall k :: 0 <= k < n ==> r[k] == Layer(deps, keys, k)
  {
    seq(n, k requires 0 <= k < n => Layer(deps, keys, k))
  }

  lemma {:induction false} WaitsLonger(deps: Dependencies, x: Library, j: nat, k: nat)
    requires j <= k && Waits(deps, x, k)
    ensures Waits(deps, x, j)
    decreases k
  {
    if j > 0 && x in deps {
      var i :| 0 <= i < |deps[x]| && Waits(deps, deps[x][i], k - 1);
      WaitsLonger(deps, deps[x][i], j - 1, k - 1);
    }
  }

  // ----- which libraries are never loaded -----

  lemma {:induction false} MissingWaits(deps: Dependencies, c: seq<Library>, last: Library, d: Library, k: nat)
    requires Chain(deps, c) && last == c[|c| - 1] && Missing(deps, last, d)
    ensures Waits(deps, c[0], k)
    decreases k
  {
    if k > 0 {
      if |c| == 1 {
        var i :| 0 <= i < |deps[c[0]]| && deps[c[0]][i] == d;
        assert Waits(deps, deps[c[0]][i], k - 1);
      } else {
        MissingWaits(deps, c[1..], last, d, k - 1);
        var i :| 0 <= i < |deps[c[0]]| && deps[c[0]][i] == c[1];
        assert Waits(deps, deps[c[0]][i], k - 1);
      }
    }
  }

  lemma {:induction false} CycleWaits(deps: Dependencies, c: seq<Library>, i: nat, k: nat)
    requires Cycle(deps, c) && i < |c|
    ensures Waits(deps, c[i], k)
    decreases k
  {
    if k > 0 {
      var j := if i == |c| - 1 then 0 else i;
      assert c[j + 1] in deps[c[j]];
      CycleWaits(deps, c, j + 1, k - 1);
      var m :| 0 <= m < |deps[c[j]]| && deps[c[j]][m] == c[j + 1];
      assert Waits(deps, deps[c[i]][m], k - 1);
    }
  }

  lemma {:induction false} ChainWaits(deps: Dependencies, c: seq<Library>, last: Library, k: nat)
    requires Chain(deps, c) && last == c[|c| - 1] && forall j: nat :: Waits(deps, last, j)
    ensures Waits(deps, c[0], k)
    decreases k
  {
    if k > 0 && |c| > 1 {
      ChainWaits(deps, c[1..], last, k - 1);
      var i :| 0 <= i < |deps[c[0]]| && deps[c[0]][i] == c[1];
      assert Waits(deps, deps[c[0]][i], k - 1);
    }
  }

  lemma DoomedWaits(deps: Dependencies, x: Library, k: nat)
    requires Doomed(deps, x)
    ensures Waits(deps, x, k)
  {
    var c :| DoomedBy(deps, x, c);
    var last := c[|c| - 1];
    if d :| Missing(deps, last, d) {
      MissingWaits(deps, c, last, d, k);
    } else {
      var cycle :| Cycle(deps, cycle) && cycle[0] == last;
      forall j: nat
        ensures Waits(deps, last, j)
      {
        CycleWaits(deps, cycle, 0, j);
      }
      ChainWaits(deps, c, last, k);
    }
  }

  /** A library that waits `k` rounds heads a chain of `k` dependencies, or one that ends at
      a missing library. */
  lemma {:induction false} WaitingChain(deps: Dependencies, x: Library, k: nat) returns (c: seq<Library>, last: Library)
    requires x in deps && Waits(deps, x, k)
    ensures Chain(deps, c) && c[0] == x && last == c[|c| - 1]
    ensures |c| == k + 1 || exists d :: Missing(deps, last, d)
    decreases k
  {
    if k == 0 {
      c, last := [x], x;
    } else {
      var i :| 0 <= i < |deps[x]| && Waits(deps, deps[x][i], k - 1);
      if deps[x][i] in deps {
        var rest;
        rest, last := WaitingChain(deps, deps[x][i], k - 1);
        c := [x] + rest;
      } else {
        c, last := [x], x;
        assert Missing(deps, x, deps[x][i]);
      }
    }
  }

  /** After as many rounds as there are libraries, only the doomed ones still wait. */
  lemma WaitsForever(deps: Dependencies, x: Library, k: nat)
    requires x in deps && k >= |deps.Keys|
    ensures Waits(deps, x, k) <==> Doomed(deps, x)
  {
    if Doomed(deps, x) { DoomedWaits(deps, x, k); }
    if Waits(deps, x, k) {
      var c, last := WaitingChain(deps, x, k);
      if d :| Missing(deps, last, d) {
        assert DoomedBy(deps, x, c);
      } else {
        var i, j := Pigeonhole(c, deps.Keys);
        var cycle := c[i..j + 1];
        assert Cycle(deps, cycle) && cycle[0] == c[i];
        assert DoomedBy(deps, x, c[..i + 1]);
      }
    }
  }

  lemma NoneDoomed(deps: Dependencies)
    ensures (forall x :: x in deps ==> !Doomed(deps, x)) <==> Closed(deps) && Acyclic(deps)
  {
    if x, d :| Missing(deps, x, d) { assert DoomedBy(deps, x, [x]); }
    if c :| Cycle(deps, c) { assert DoomedBy(deps, c[0], [c[0]]); }
    if x :| x in deps && Doomed(deps, x) {
      var c :| DoomedBy(deps, x, c);
    }
  }

  /** Round `n` finds nothing that can be loaded. */
  ghost predicate NothingLoads(deps: Dependencies, n: nat) {
    forall x :: x in deps && Waits(deps, x, n) ==> Waits(deps, x, n + 1)
  }

  lemma EmptyLayer(deps: Dependencies, keys: seq<Library>, n: nat)
    requires KeyList(deps, keys)
    ensures Layer(deps, keys, n) == [] <==> NothingLoads(deps, n)
  {
    if Layer(deps, keys, n) == [] {
      forall x | x in deps && Waits(deps, x, n)
        ensures Waits(deps, x, n + 1)
      {
        assert x !in Layer(deps, keys, n);
      }
    } else {
      assert Layer(deps, keys, n)[0] in Layer(deps, keys, n);
    }
  }

  /** If a round loads nothing, its pending libraries wait for ever. */
  lemma {:induction false} Stuck(deps: Dependencies, n: nat, x: Library, k: nat)
    requires NothingLoads(deps, n)
    requires x in deps && Waits(deps, x, n)
    ensures Waits(deps, x, k)
    decreases k
  {
    if k <= n {
      WaitsLonger(deps, x, k, n);
    } else {
      assert Waits(deps, x, n + 1);
      var i :| 0 <= i < |deps[x]| && Waits(deps, deps[x][i], n);
      if deps[x][i] in deps { Stuck(deps, n, deps[x][i], k - 1); }
      assert Waits(deps, deps[x][i], k - 1);
    }
  }

  /** Whenever something is pending and nothing can be loaded, the pending libraries contain
      a cycle or a library with a dependency outside the map. */
  lemma StuckReason(deps: Dependencies, keys: seq<Library>, n: nat)
    requires KeyList(deps, keys) && NothingLoads(deps, n) && Pending(deps, keys, n) != []
    ensures (exists x, d :: x in Pending(deps, keys, n) && Missing(deps, x, d))
            || (exists c :: Cycle(deps, c) && forall y :: y in c ==> y in Pending(deps, keys, n))
  {
    var pending := Pending(deps, keys, n);
    var x := pending[0];
    assert x in pending;
    Stuck(deps, n, x, |deps.Keys|);
    WaitsForever(deps, x, |deps.Keys|);
    var c :| DoomedBy(deps, x, c);
    var last := c[|c| - 1];
    if d :| Missing(deps, last, d) {
      MissingWaits(deps, [last], last, d, n);
      assert last in pending;
    } else {
      var cycle :| Cycle(deps, cycle) && cycle[0] == last;
      forall y | y in cycle
        ensures y in pending
      {
        var i :| 0 <= i < |cycle| && cycle[i] == y;
        CycleWaits(deps, cycle, i, n);
      }
    }
  }

  // ----- layers are longest chains -----

  lemma {:induction false} WaitsIsChain(deps: Dependencies, x: Library, k: nat)
    requires Closed(deps) && x in deps
    ensures Waits(deps, x, k) <==> HasChain(deps, x, k)
    decreases k
  {
    if Waits(deps, x, k) {
      var c, last := WaitingChain(deps, x, k);
      assert ChainOf(deps, x, k, c);
    }
    if HasChain(deps, x, k) {
      var c :| ChainOf(deps, x, k, c);
      if k > 0 {
        assert ChainOf(deps, c[1], k - 1, c[1..]);
        WaitsIsChain(deps, c[1], k - 1);
        var i :| 0 <= i < |deps[x]| && deps[x][i] == c[1];
        assert Waits(deps, deps[x][i], k - 1);
      }
    }
  }

  /** Step `k` holds exactly the libraries whose longest dependency chain has length `k`. */
  lemma LayerIsLongestChain(deps: Dependencies, keys: seq<Library>, x: Library, k: nat)
    requires KeyList(deps, keys) && Closed(deps) && x in deps
    ensures x in Layer(deps, keys, k) <==> HasChain(deps, x, k) && forall m :: m > k ==> !HasChain(deps, x, m)
  {
    forall m: nat
      ensures HasChain(deps, x, m) <==> Waits(deps, x, m)
    {
      WaitsIsChain(deps, x, m);
    }
    if !HasChain(deps, x, k + 1) {
      forall m: nat | m > k
        ensures !HasChain(deps, x, m)
      {
        if Waits(deps, x, m) { WaitsLonger(deps, x, k + 1, m); }
      }
    }
  }

  // ----- the flattened result -----

  /** Every library comes after all its dependencies. */
  ghost predicate InOrder(deps: Dependencies, s: seq<Library>) {
    forall i :: 0 <= i < |s| ==> s[i] in deps && forall d :: d in deps[s[i]] ==> d in s[..i]
  }

  lemma InOrderConcat(deps: Dependencies, early: seq<Library>, late: seq<Library>)
    requires InOrder(deps, early)
    requires forall x :: x in late ==> x in deps && forall d :: d in deps[x] ==> d in early
    ensures InOrder(deps, early + late)
  {
    var s := early + late;
    forall i | 0 <= i < |s|
      ensures s[i] in deps && forall d :: d in deps[s[i]] ==> d in s[..i]
    {
      if i < |early| {
        assert s[..i] == early[..i];
      } else {
        assert s[i] in late;
        assert s[..i] == early + late[..i - |early|];
      }
    }
  }

  lemma LayerDependencies(deps: Dependencies, keys: seq<Library>, k: nat, x: Library, d: Library)
    requires x in Layer(deps, keys, k) && d in deps[x]
    ensures d in deps && !Waits(deps, d, k)
  {
    var m :| 0 <= m < |deps[x]| && deps[x][m] == d;
    assert !Waits(deps, deps[x][m], k);
  }

  /** What `n` rounds have loaded: no repetitions, dependencies first. */
  lemma {:induction false} FlattenedLayers(deps: Dependencies, keys: seq<Library>, n: nat)
    requires KeyList(deps, keys)
    ensures var s := Flatten(Layers(deps, keys, n));
            NoDup(s) && InOrder(deps, s) && forall x :: x in s <==> x in deps && !Waits(deps, x, n)
  {
    if n > 0 {
      FlattenedLayers(deps, keys, n - 1);
      var early, late := Flatten(Layers(deps, keys, n - 1)), Layer(deps, keys, n - 1);
      assert Layers(deps, keys, n)[..n - 1] == Layers(deps, keys, n - 1);
      assert Flatten(Layers(deps, keys, n)) == early + late;
      KeepNoDup(keys, Waiting(deps, n - 1) - Waiting(deps, n));
      forall x | x in late
        ensures x in deps && forall d :: d in deps[x] ==> d in early
      {
        forall d | d in deps[x]
          ensures d in early
        {
          LayerDependencies(deps, keys, n - 1, x, d);
        }
      }
      InOrderConcat(deps, early, late);
      forall x | x in deps && Waits(deps, x, n)
        ensures x !in early
      {
        WaitsLonger(deps, x, n - 1, n);
      }
      NoDupConcat(early, late);
    }
  }

  lemma NoDupConcat<T>(a: seq<T>, b: seq<T>)
    requires NoDup(a) && NoDup(b) && forall x :: x in b ==> x !in a
    ensures NoDup(a + b)
  {
    forall i, j | 0 <= i < j < |a + b|
      ensures (a + b)[i] != (a + b)[j]
    {
      if i < |a| <= j { assert a[i] in a && b[j - |a|] in b; }
    }
  }

  // ----- the lists the source changes in place -----

  ghost predicate Ready(deps: Dependencies, current: seq<Library>, x: Library) {
    x in deps && forall i :: 0 <= i < |deps[x]| ==> deps[x][i] in current
  }

  ghost function AllReady(deps: Dependencies, current: seq<Library>): set<Library> {
    set x | x in deps && Ready(deps, current, x)
  }

  lemma ReadyIf(deps: Dependencies, current: seq<Library>, x: Library)
    requires x in deps
    ensures x in AllReady(deps, current) <==> forall m :: 0 <= m < |deps[x]| ==> deps[x][m] in current
  {
  }

  lemma KeepNone(keep: set<Library>, s: seq<Library>)
    ensures Keep(s[..0], keep) == []
  {
  }

  /** What the first `k` rounds have loaded. */
  ghost predicate Loaded(deps: Dependencies, current: seq<Library>, k: nat) {
    forall x :: x in current <==> x in deps && !Waits(deps, x, k)
  }

  lemma ReadyIsLast(deps: Dependencies, current: seq<Library>, x: Library, k: nat)
    requires x in deps && Loaded(deps, current, k)
    ensures Ready(deps, current, x) <==> !Waits(deps, x, k + 1)
  {
  }

  /** `pending` is `was` without the first `i` of `modules`. */
  ghost predicate Left(pending: seq<Library>, was: seq<Library>, modules: seq<Library>, i: nat) {
    NoDup(was) && i <= |modules| && pending == Keep(was, Elems(was) - Elems(modules[..i]))
  }

  lemma ReadyAreLast(deps: Dependencies, current: seq<Library>, k: nat)
    requires Loaded(deps, current, k)
    ensures Waiting(deps, k) * AllReady(deps, current) == Waiting(deps, k) - Waiting(deps, k + 1)
    ensures Waiting(deps, k + 1) <= Waiting(deps, k)
  {
    forall x | x in deps
      ensures Ready(deps, current, x) <==> !Waits(deps, x, k + 1)
      ensures Waits(deps, x, k + 1) ==> Waits(deps, x, k)
    {
      ReadyIsLast(deps, current, x, k);
      if Waits(deps, x, k + 1) { WaitsLonger(deps, x, k, k + 1); }
    }
  }

  lemma RoundModules(deps: Dependencies, keys: seq<Library>, current: seq<Library>, k: nat)
    requires Loaded(deps, current, k)
    ensures Keep(Pending(deps, keys, k), AllReady(deps, current)) == Layer(deps, keys, k)
  {
    ReadyAreLast(deps, current, k);
    KeepTwice(keys, Waiting(deps, k), AllReady(deps, current));
  }

  lemma RoundLeft(deps: Dependencies, keys: seq<Library>, k: nat)
    requires KeyList(deps, keys) && Waiting(deps, k + 1) <= Waiting(deps, k)
    ensures var modules := Layer(deps, keys, k);
            Left(Pending(deps, keys, k + 1), Pending(deps, keys, k), modules, |modules|)
  {
    var early, late := Waiting(deps, k), Waiting(deps, k + 1);
    hide Waiting;
    var pending, modules := Keep(keys, early), Keep(keys, early - late);
    var rest := Elems(pending) - Elems(modules);
    KeepTwice(keys, early, rest);
    KeepAgree(keys, early * rest, late);
    KeepNoDup(keys, early);
    assert modules[..|modules|] == modules;
  }

  lemma RoundLoaded(deps: Dependencies, keys: seq<Library>, current: seq<Library>, k: nat)
    requires KeyList(deps, keys) && Loaded(deps, current, k) && Waiting(deps, k + 1) <= Waiting(deps, k)
    ensures Loaded(deps, current + Layer(deps, keys, k), k + 1)
  {
  }

  /** One round, on values: what is loadable is the next layer, and what stays is pending. */
  lemma RoundStep(deps: Dependencies, keys: seq<Library>, current: seq<Library>, k: nat)
    requires KeyList(deps, keys) && Loaded(deps, current, k)
    ensures var modules := Keep(Pending(deps, keys, k), AllReady(deps, current));
            && modules == Layer(deps, keys, k)
            && Left(Pending(deps, keys, k + 1), Pending(deps, keys, k), modules, |modules|)
            && Loaded(deps, current + modules, k + 1)
  {
    RoundModules(deps, keys, current, k);
    ReadyAreLast(deps, current, k);
    hide *;
    RoundLeft(deps, keys, k);
    RoundLoaded(deps, keys, current, k);
  }

  /** Python's `list.remove`: the first occurrence goes. */
  function Remove(s: seq<Library>, x: Library): seq<Library> {
    if s == [] then [] else if s[0] == x then s[1..] else [s[0]] + Remove(s[1..], x)
  }

  lemma {:induction false} RemoveSnoc(s: seq<Library>, last: Library, x: Library)
    ensures Remove(s + [last], x) == if x in s then Remove(s, x) + [last] else if x == last then s else s + [last]
  {
    if s != [] {
      assert (s + [last])[1..] == s[1..] + [last];
      if s[0] != x { RemoveSnoc(s[1..], last, x); }
    }
  }

  lemma {:induction false} RemoveIsKeep(s: seq<Library>, x: Library, keep: set<Library>)
    requires NoDup(s) && x !in keep && forall y :: y in s && y != x ==> y in keep
    ensures Remove(s, x) == Keep(s, keep)
  {
    if s != [] {
      var init, last := s[..|s| - 1], s[|s| - 1];
      assert s == init + [last];
      RemoveSnoc(init, last, x);
      RemoveIsKeep(init, x, keep);
      if x !in init { KeepAll(init, keep); }
    }
  }

  /** The dict the source builds: step `i` maps to layer `i`, for the first `k` steps. */
  ghost predicate IsLayers(deps: Dependencies, keys: seq<Library>, steps: map<nat, seq<Library>>, k: nat) {
    steps.Keys == UpTo(k) && forall i :: 0 <= i < k ==> steps[i] == Layer(deps, keys, i)
  }

  lemma LeftStart(was: seq<Library>, modules: seq<Library>)
    requires NoDup(was)
    ensures Left(was, was, modules, 0)
  {
    KeepAll(was, Elems(was) - Elems(modules[..0]));
  }

  lemma LeftStep(pending: seq<Library>, was: seq<Library>, modules: seq<Library>, i: nat)
    requires Left(pending, was, modules, i) && i < |modules|
    ensures Left(Remove(pending, modules[i]), was, modules, i + 1)
  {
    var x := modules[i];
    var left := Elems(was) - Elems(modules[..i]);
    KeepNoDup(was, left);
    RemoveIsKeep(Keep(was, left), x, left - {x});
    KeepTwice(was, left, left - {x});
    assert modules[..i + 1] == modules[..i] + [x];
    assert left * (left - {x}) == Elems(was) - Elems(modules[..i + 1]);
  }

  class LoadOrder {
    const deps: Dependencies
    var pending: seq<Library>
    var current: seq<Library>
    var steps: map<nat, seq<Library>>

    constructor (deps: Dependencies, keys: seq<Library>)
      requires KeyList(deps, keys)
      ensures this.deps == deps && pending == keys && AtRound(keys, 0)
    {
      this.deps, pending, current, steps := deps, keys, [], map[];
      KeepAll(keys, Waiting(deps, 0));
    }

    /** `k` rounds are complete. */
    ghost predicate AtRound(keys: seq<Library>, k: nat)
      reads this
    {
      && KeyList(deps, keys)
      && pending == Pending(deps, keys, k)
      && Loaded(deps, current, k)
      && IsLayers(deps, keys, steps, k)
    }

    method ModulesThatCanBeLoaded() returns (modules: seq<Library>)
      requires forall x :: x in pending ==> x in deps
      ensures modules == Keep(pending, AllReady(deps, current))
    {
      hide Ready, Keep;
      modules := [];
      KeepNone(AllReady(deps, current), pending);
      for i := 0 to |pending|
        invariant modules == Keep(pending[..i], AllReady(deps, current))
      {
        var canBeLoaded := true;
        var needed := deps[pending[i]];
        for j := 0 to |needed|
          invariant canBeLoaded
          invariant forall m :: 0 <= m < j ==> needed[m] in current
        {
          if needed[j] !in current {
            canBeLoaded := false;
            break;
          }
        }
        ReadyIf(deps, current, pending[i]);
        KeepSnoc(pending[..i], pending[i], AllReady(deps, current));
        assert pending[..i + 1] == pending[..i] + [pending[i]];
        if !canBeLoaded { continue; }
        modules := modules + [pending[i]];
      }
      assert pending[..|pending|] == pending;
    }

    /** The loop that moves this round's libraries out of `pending`. */
    method LoadRound(modules: seq<Library>, stepNumber: nat)
      requires NoDup(pending) && stepNumber in steps
      modifies this
      ensures Left(pending, old(pending), modules, |modules|)
      ensures current == old(current) + modules
      ensures steps == old(steps)[stepNumber := old(steps)[stepNumber] + modules]
    {
      hide Left, Remove;
      ghost var was, loaded, done := pending, current, steps;
      LeftStart(was, modules);
      for i := 0 to |modules|
        invariant Left(pending, was, modules, i)
        invariant current == loaded + modules[..i]
        invariant stepNumber in steps && steps[stepNumber] == done[stepNumber] + modules[..i]
        invariant steps == done[stepNumber := steps[stepNumber]]
      {
        LeftStep(pending, was, modules, i);
        assert modules[..i + 1] == modules[..i] + [modules[i]];
        steps := steps[stepNumber := steps[stepNumber] + [modules[i]]];
        pending := Remove(pending, modules[i]);
        current := current + [modules[i]];
      }
      assert modules[..|modules|] == modules;
    }

    /** The body of the recursive function up to its recursive call. */
    method OneRound(ghost keys: seq<Library>, stepNumber: nat) returns (modules: seq<Library>)
      requires AtRound(keys, stepNumber) && pending != []
      modifies this
      ensures AtRound(keys, stepNumber + 1) && modules == Layer(deps, keys, stepNumber)
      ensures modules != [] ==> |pending| < |old(pending)|
      ensures modules == [] ==> pending != [] && NothingLoads(deps, stepNumber)
    {
      hide Left, Loaded, IsLayers, KeyList, Pending, Layer;
      PendingFacts(deps, keys, stepNumber);
      ghost var was, loaded, built := pending, current, steps;
      LayersNext(deps, keys, built, stepNumber);
      if stepNumber !in steps { steps := steps[stepNumber := []]; }
      modules := ModulesThatCanBeLoaded();
      RoundStep(deps, keys, current, stepNumber);
      LoadRound(modules, stepNumber);
      LeftUnique(pending, Pending(deps, keys, stepNumber + 1), was, modules);
      assert steps == built[stepNumber := [] + modules];
      EmptyLayer(deps, keys, stepNumber);
    }

    /** The recursion.  `finished` is false where the source recurses for ever; `rounds` is the
        number of rounds after which nothing changes any more. */
    method DependencyOrder(ghost keys: seq<Library>, stepNumber: nat) returns (finished: bool, ghost rounds: nat)
      requires AtRound(keys, stepNumber)
      modifies this
      ensures AtRound(keys, rounds)
      ensures finished <==> pending == []
      ensures !finished ==> rounds > 0 && NothingLoads(deps, rounds - 1)
      decreases |pending|
    {
      if |pending| == 0 { return true, stepNumber; }
      var modules := OneRound(keys, stepNumber);
      if |modules| == 0 { return false, stepNumber + 1; }
      finished, rounds := DependencyOrder(keys, stepNumber + 1);
    }
  }

  lemma PendingFacts(deps: Dependencies, keys: seq<Library>, k: nat)
    requires KeyList(deps, keys)
    ensures NoDup(Pending(deps, keys, k)) && forall x :: x in Pending(deps, keys, k) ==> x in deps
  {
    KeepNoDup(keys, Waiting(deps, k));
  }

  lemma LayersNext(deps: Dependencies, keys: seq<Library>, steps: map<nat, seq<Library>>, k: nat)
    requires IsLayers(deps, keys, steps, k)
    ensures k !in steps && IsLayers(deps, keys, steps[k := [] + Layer(deps, keys, k)], k + 1)
  {
    hide Layer;
    var layer := Layer(deps, keys, k);
    assert [] + layer == layer;
    assert k !in UpTo(k);
    assert steps[k := layer].Keys == UpTo(k) + {k} == UpTo(k + 1);
    forall i | 0 <= i < k + 1
      ensures i in steps[k := layer] && steps[k := layer][i] == Layer(deps, keys, i)
    {
      if i < k { assert i in UpTo(k); }
    }
  }

  lemma LeftUnique(rest: seq<Library>, other: seq<Library>, pending: seq<Library>, modules: seq<Library>)
    requires Left(rest, pending, modules, |modules|) && Left(other, pending, modules, |modules|)
    requires forall x :: x in modules ==> x in pending
    ensures rest == other
    ensures if modules == [] then rest == pending else |rest| < |pending|
  {
    if modules == [] {
      KeepAll(pending, Elems(pending) - Elems(modules[..0]));
    } else {
      assert modules[0] in modules;
      LeftShorter(rest, pending, modules);
    }
  }

  lemma LeftShorter(rest: seq<Library>, pending: seq<Library>, modules: seq<Library>)
    requires Left(rest, pending, modules, |modules|)
    requires modules != [] && modules[0] in pending
    ensures |rest| < |pending|
  {
    assert modules[..|modules|] == modules;
    KeepNoDup(pending, Elems(pending) - Elems(modules));
    NoDupCardinality(rest);
    NoDupCardinality(pending);
    assert modules[0] in Elems(pending) - Elems(rest);
    SubsetCardinality(Elems(rest), Elems(pending) - {modules[0]});
  }

  /** When the rounds are over, what is pending is exactly what is doomed. */
  lemma PendingIsDoomed(deps: Dependencies, keys: seq<Library>, n: nat, x: Library)
    requires KeyList(deps, keys) && x in deps
    requires Pending(deps, keys, n) == [] || (n > 0 && NothingLoads(deps, n - 1))
    ensures x in Pending(deps, keys, n) <==> Doomed(deps, x)
  {
    if Doomed(deps, x) { DoomedWaits(deps, x, n); }
    if x in Pending(deps, keys, n) {
      WaitsLonger(deps, x, n - 1, n);
      Stuck(deps, n - 1, x, |deps.Keys|);
      WaitsForever(deps, x, |deps.Keys|);
    }
  }

  /** `sort_to_dependencies`: it finishes exactly on closed acyclic maps, and then returns
      every library once, after all its dependencies, step by step.  Otherwise the libraries it leaves
      pending for ever are exactly the doomed ones. */
  method SortToDependencies(deps: Dependencies, keys: seq<Library>)
    returns (finished: bool, sorted: seq<Library>, steps: map<nat, seq<Library>>, pending: seq<Library>)
    requires KeyList(deps, keys)
    ensures finished <==> Closed(deps) && Acyclic(deps)
    ensures IsLayers(deps, keys, steps, |steps|) && steps.Keys == UpTo(|steps|)
    ensures Joined(sorted, StepList(steps, |steps|))
    ensures Covers(steps, sorted)
    ensures forall x :: x in pending <==> x in deps && Doomed(deps, x)
    ensures NoDup(sorted) && InOrder(deps, sorted)
    ensures forall x :: x in sorted <==> x in deps && x !in pending
    ensures finished ==> pending == []
  {
    hide Joined, StepList, Covers, Closed, Acyclic, Doomed, NoDup, InOrder, Layer, Layers, Loaded, Pending, NothingLoads, Flatten;
    var order := new LoadOrder(deps, keys);
    ghost var rounds;
    finished, rounds := order.DependencyOrder(keys, 0);
    steps, pending := order.steps, order.pending;
    assert |steps.Keys| == rounds;
    sorted := JoinSteps(deps, keys, steps);
    Outcome(deps, keys, rounds, finished);
  }

  /** The loop that puts the steps one after the other. */
  method JoinSteps(ghost deps: Dependencies, ghost keys: seq<Library>, steps: map<nat, seq<Library>>)
    returns (sorted: seq<Library>)
    requires IsLayers(deps, keys, steps, |steps|)
    ensures sorted == Flatten(Layers(deps, keys, |steps|))
    ensures Joined(sorted, StepList(steps, |steps|)) && Covers(steps, sorted)
  {
    hide Joined, StepList, Covers, Flatten, Layer, Layers;
    sorted := [];
    FlattenStart(deps, keys);
    JoinedNothing<Library>();
    NoSteps(steps);
    for i := 0 to |steps|
      invariant sorted == Flatten(Layers(deps, keys, i))
      invariant Joined(sorted, StepList(steps, i))
    {
      FlattenStep(deps, keys, i);
      StepsSnoc(sorted, steps, i);
      sorted := sorted + steps[i];
    }
    StepsCover(sorted, steps, |steps|);
  }

  ghost function StepList(steps: map<nat, seq<Library>>, n: nat): (r: seq<seq<Library>>)
    requires forall k :: 0 <= k < n ==> k in steps
    ensures |r| == n && forall k :: 0 <= k < n ==> r[k] == steps[k]
  {
    seq(n, k requires 0 <= k < n => steps[k])
  }

  lemma NoSteps(steps: map<nat, seq<Library>>)
    ensures StepList(steps, 0) == []
  {
  }

  lemma StepsSnoc(sorted: seq<Library>, steps: map<nat, seq<Library>>, n: nat)
    requires (forall k :: 0 <= k <= n ==> k in steps) && Joined(sorted, StepList(steps, n))
    ensures Joined(sorted + steps[n], StepList(steps, n + 1))
  {
    hide Joined;
    JoinedSnoc(sorted, StepList(steps, n), steps[n]);
    assert StepList(steps, n + 1) == StepList(steps, n) + [steps[n]];
  }

  /** Every sorted library is in some step. */
  ghost predicate Covers(steps: map<nat, seq<Library>>, sorted: seq<Library>) {
    forall x :: x in sorted ==> exists k :: k in steps && x in steps[k]
  }

  lemma StepsCover(sorted: seq<Library>, steps: map<nat, seq<Library>>, n: nat)
    requires (forall k :: 0 <= k < n ==> k in steps) && Joined(sorted, StepList(steps, n))
    ensures Covers(steps, sorted)
  {
    hide Joined;
    JoinedMembers(sorted, StepList(steps, n));
  }

  lemma FlattenStart(deps: Dependencies, keys: seq<Library>)
    ensures Flatten(Layers(deps, keys, 0)) == []
  {
  }

  lemma FlattenStep(deps: Dependencies, keys: seq<Library>, k: nat)
    ensures Flatten(Layers(deps, keys, k + 1)) == Flatten(Layers(deps, keys, k)) + Layer(deps, keys, k)
  {
    hide Layer;
    assert Layers(deps, keys, k + 1)[..k] == Layers(deps, keys, k);
  }

  /** What the rounds have achieved once they are over. */
  lemma Outcome(deps: Dependencies, keys: seq<Library>, n: nat, finished: bool)
    requires KeyList(deps, keys)
    requires finished <==> Pending(deps, keys, n) == []
    requires !finished ==> n > 0 && NothingLoads(deps, n - 1)
    ensures finished <==> Closed(deps) && Acyclic(deps)
    ensures var pending, sorted := Pending(deps, keys, n), Flatten(Layers(deps, keys, n));
            && (forall x :: x in pending <==> x in deps && Doomed(deps, x))
            && NoDup(sorted) && InOrder(deps, sorted)
            && (forall x :: x in sorted <==> x in deps && x !in pending)
  {
    FlattenedLayers(deps, keys, n);
    var pending := Pending(deps, keys, n);
    hide Closed, Acyclic, Doomed, NoDup, InOrder;
    forall x
      ensures x in pending <==> x in deps && Doomed(deps, x)
    {
      if x in deps { PendingIsDoomed(deps, keys, n, x); }
    }
    NoneDoomed(deps);
    assert pending != [] ==> pending[0] in pending;
  }
}
