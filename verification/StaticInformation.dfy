/** The configuration-path gatherer of utils/print-introspected-doxygen.cc.

`Adjacency` says which out-edges a registered type has and in which order the gatherer
follows them; the class below walks them with its two stacks, and the theorems at the end
say what its output means as a set of walks.
*/
module Introspection {
  import opened Sequences
  import opened Walks

  datatype Checker = Pointer(pointee: nat) | Container(item: nat) | Plain
  datatype Attribute = Attribute(name: string, checker: Checker)
  datatype TypeInfo = TypeInfo(name: string, attributes: seq<Attribute>)

  /** The registered types, by registration index; which of them is ns3::Object; and the
      pairs (child, ancestor) for which IsChildOf holds. */
  datatype Registry = Registry(types: seq<TypeInfo>, objectTid: nat, childOf: set<(nat, nat)>) {
    ghost predicate Valid() {
      forall t, i :: 0 <= t < |types| && 0 <= i < |types[t].attributes| ==>
        match types[t].attributes[i].checker
        case Pointer(p) => p < |types|
        case Container(c) => c < |types|
        case Plain => true
    }
  }

  type Aggregates = seq<(nat, nat)>
  type Record = (nat, string)

  ghost predicate ValidAggregates(r: Registry, aggregates: Aggregates) {
    forall i :: 0 <= i < |aggregates| ==> aggregates[i].0 < |r.types| && aggregates[i].1 < |r.types|
  }

  // ----- the out-edges of a type -----

  ghost function AttributeEdges(r: Registry, t: nat, n: nat): seq<Edge>
    requires t < |r.types| && n <= |r.types[t].attributes|
  {
    if n == 0 then [] else
      var a := r.types[t].attributes[n - 1];
      AttributeEdges(r, t, n - 1) +
      match a.checker
      case Pointer(p) => if p == r.objectTid then [] else [Edge(a.name, p)]
      case Container(c) => [Edge(a.name + "/[i]", c)]
      case Plain => []
  }

  ghost function ChildEdges(r: Registry, t: nat, n: nat): seq<Edge>
    requires n <= |r.types|
  {
    if n == 0 then [] else
      ChildEdges(r, t, n - 1) +
      if (n - 1, t) in r.childOf then [Edge("$" + r.types[n - 1].name, n - 1)] else []
  }

  ghost function AggregateEdge(r: Registry, t: nat, pair: (nat, nat)): seq<Edge>
    requires pair.0 < |r.types| && pair.1 < |r.types|
  {
    if pair.1 == t then [Edge("$" + r.types[pair.0].name, pair.0)]
    else if pair.0 == t then [Edge("$" + r.types[pair.1].name, pair.1)]
    else []
  }

  ghost function AggregateEdges(r: Registry, aggregates: Aggregates, t: nat, n: nat): seq<Edge>
    requires n <= |aggregates| && ValidAggregates(r, aggregates)
  {
    if n == 0 then [] else
      AggregateEdges(r, aggregates, t, n - 1) + AggregateEdge(r, t, aggregates[n - 1])
  }

  /** Attributes first, then registered children, then aggregated types. */
  ghost function OutEdges(r: Registry, aggregates: Aggregates, t: nat): seq<Edge>
    requires t < |r.types| && ValidAggregates(r, aggregates)
  {
    AttributeEdges(r, t, |r.types[t].attributes|)
    + ChildEdges(r, t, |r.types|)
    + AggregateEdges(r, aggregates, t, |aggregates|)
  }

  ghost function Adjacency(r: Registry, aggregates: Aggregates): (g: Graph)
    requires ValidAggregates(r, aggregates)
  {
    seq(|r.types|, t requires 0 <= t < |r.types| => OutEdges(r, aggregates, t))
  }

  ghost predicate TargetsBelow(edges: seq<Edge>, n: nat) {
    forall k :: 0 <= k < |edges| ==> edges[k].target < n
  }

  lemma {:induction false} AttributeTargets(r: Registry, t: nat, n: nat)
    requires r.Valid() && t < |r.types| && n <= |r.types[t].attributes|
    ensures TargetsBelow(AttributeEdges(r, t, n), |r.types|)
  {
    if n > 0 { AttributeTargets(r, t, n - 1); }
  }

  lemma {:induction false} ChildTargets(r: Registry, t: nat, n: nat)
    requires n <= |r.types|
    ensures TargetsBelow(ChildEdges(r, t, n), |r.types|)
  {
    if n > 0 { ChildTargets(r, t, n - 1); }
  }

  lemma {:induction false} AggregateTargets(r: Registry, aggregates: Aggregates, t: nat, n: nat)
    requires n <= |aggregates| && ValidAggregates(r, aggregates)
    ensures TargetsBelow(AggregateEdges(r, aggregates, t, n), |r.types|)
  {
    if n > 0 { AggregateTargets(r, aggregates, t, n - 1); }
  }

  lemma AdjacencyWellFormed(r: Registry, aggregates: Aggregates)
    requires r.Valid() && ValidAggregates(r, aggregates)
    ensures WellFormed(Adjacency(r, aggregates))
  {
    var g: Graph := Adjacency(r, aggregates);
    forall v: nat, k: nat | v < |g| && k < |g[v]|
      ensures g[v][k].target < |g|
    {
      AttributeTargets(r, v, |r.types[v].attributes|);
      ChildTargets(r, v, |r.types|);
      AggregateTargets(r, aggregates, v, |aggregates|);
    }
  }

  // ----- what a set of walks looks like in the output -----

  ghost function JoinPath(path: seq<string>): string {
    if path == [] then "" else JoinPath(path[..|path| - 1]) + "/" + path[|path| - 1]
  }

  ghost predicate AllValid(g: Graph, v: nat, ws: seq<Walk>) {
    forall i :: 0 <= i < |ws| ==> ValidWalk(g, v, ws[i])
  }

  ghost function RecordOf(g: Graph, v: nat, prefix: string, w: Walk): Record
    requires ValidWalk(g, v, w)
  {
    (End(g, v, w), prefix + Path(g, v, w))
  }

  ghost function Records(g: Graph, v: nat, prefix: string, ws: seq<Walk>): (r: seq<Record>)
    requires AllValid(g, v, ws)
    ensures |r| == |ws| && forall i :: 0 <= i < |ws| ==> r[i] == RecordOf(g, v, prefix, ws[i])
  {
    seq(|ws|, i requires 0 <= i < |ws| => RecordOf(g, v, prefix, ws[i]))
  }

  lemma VisitValid(g: Graph, v: nat, stack: seq<nat>)
    requires WellFormed(g) && v < |g|
    ensures AllValid(g, v, Visit(g, v, stack))
  {
    forall i | 0 <= i < |Visit(g, v, stack)|
      ensures ValidWalk(g, v, Visit(g, v, stack)[i])
    {
      VisitExact(g, v, stack, Visit(g, v, stack)[i]);
    }
  }

  /** Following edge `k` of `v` and then `ws` records what `ws` records under the longer prefix. */
  lemma RecordsExtend(g: Graph, v: nat, k: nat, prefix: string, ws: seq<Walk>)
    requires v < |g| && k < |g[v]| && AllValid(g, g[v][k].target, ws)
    ensures AllValid(g, v, Extend(k, ws))
    ensures Records(g, v, prefix, Extend(k, ws))
            == Records(g, g[v][k].target, prefix + "/" + g[v][k].text, ws)
  {
    var longer := prefix + "/" + g[v][k].text;
    forall i | 0 <= i < |ws|
      ensures ValidWalk(g, v, [k] + ws[i])
      ensures RecordOf(g, v, prefix, [k] + ws[i]) == RecordOf(g, g[v][k].target, longer, ws[i])
    {
      assert ([k] + ws[i])[1..] == ws[i];
      var rest := Path(g, g[v][k].target, ws[i]);
      assert prefix + ("/" + g[v][k].text + rest) == longer + rest;
    }
  }

  lemma RecordsConcat(g: Graph, v: nat, prefix: string, a: seq<Walk>, b: seq<Walk>)
    requires AllValid(g, v, a) && AllValid(g, v, b)
    ensures AllValid(g, v, a + b)
    ensures Records(g, v, prefix, a + b) == Records(g, v, prefix, a) + Records(g, v, prefix, b)
  {
  }

  /** What is in the output once `v` itself and its first `k` edges are done. */
  ghost function Progress(g: Graph, v: nat, prefix: string, stack: seq<nat>, k: nat): seq<Record>
    requires WellFormed(g) && v < |g| && v !in stack && k <= |g[v]|
  {
    if k == 0 then [(v, prefix)] else
      VisitValid(g, g[v][k - 1].target, stack + [v]);
      Progress(g, v, prefix, stack, k - 1)
      + Records(g, g[v][k - 1].target, prefix + "/" + g[v][k - 1].text, Visit(g, g[v][k - 1].target, stack + [v]))
  }

  ghost predicate StackOk(stack: seq<nat>, n: nat) {
    NoDup(stack) && forall t :: t in stack ==> t < n
  }

  lemma StackBound(stack: seq<nat>, n: nat)
    requires StackOk(stack, n)
    ensures |stack| <= n
  {
    NoDupCardinality(stack);
    SubsetCardinality(Elems(stack), UpTo(n));
  }

  /** The output while `v` is being processed: `before`, then `v` and its first `k` edges. */
  ghost predicate At(g: Graph, v: nat, path: seq<string>, stack: seq<nat>, before: seq<Record>, k: nat, output: seq<Record>) {
    && WellFormed(g) && v < |g| && StackOk(stack, |g|) && v !in stack && k <= |g[v]|
    && output == before + Progress(g, v, JoinPath(path), stack, k)
  }

  lemma JoinPathPush(path: seq<string>, name: string)
    ensures JoinPath(path + [name]) == JoinPath(path) + "/" + name
  {
    assert (path + [name])[..|path + [name]| - 1] == path;
  }

  lemma AtStep(g: Graph, v: nat, path: seq<string>, stack: seq<nat>, before: seq<Record>, k: nat, output: seq<Record>)
    requires At(g, v, path, stack, before, k, output) && k < |g[v]|
    ensures StackOk(stack + [v], |g|)
    ensures var target := g[v][k].target;
            && AllValid(g, target, Visit(g, target, stack + [v]))
            && At(g, v, path, stack, before, k + 1,
                  output + Records(g, target, JoinPath(path + [g[v][k].text]), Visit(g, target, stack + [v])))
  {
    VisitValid(g, g[v][k].target, stack + [v]);
    JoinPathPush(path, g[v][k].text);
  }

  lemma {:induction false} ProgressIsRecords(g: Graph, v: nat, prefix: string, stack: seq<nat>, k: nat)
    requires WellFormed(g) && v < |g| && v !in stack && k <= |g[v]|
    ensures AllValid(g, v, [[]] + Branch(g, v, stack, k))
    ensures Progress(g, v, prefix, stack, k) == Records(g, v, prefix, [[]] + Branch(g, v, stack, k))
  {
    if k == 0 {
      assert prefix + Path(g, v, []) == prefix;
    } else {
      ProgressIsRecords(g, v, prefix, stack, k - 1);
      ProgressStep(g, v, prefix, stack, k);
    }
  }

  lemma ProgressStep(g: Graph, v: nat, prefix: string, stack: seq<nat>, k: nat)
    requires WellFormed(g) && v < |g| && v !in stack && 0 < k <= |g[v]|
    requires AllValid(g, v, [[]] + Branch(g, v, stack, k - 1))
    requires Progress(g, v, prefix, stack, k - 1) == Records(g, v, prefix, [[]] + Branch(g, v, stack, k - 1))
    ensures AllValid(g, v, [[]] + Branch(g, v, stack, k))
    ensures Progress(g, v, prefix, stack, k) == Records(g, v, prefix, [[]] + Branch(g, v, stack, k))
  {
    var t := g[v][k - 1].target;
    VisitValid(g, t, stack + [v]);
    var early, late := [[]] + Branch(g, v, stack, k - 1), Extend(k - 1, Visit(g, t, stack + [v]));
    assert [[]] + Branch(g, v, stack, k) == early + late;
    assert Progress(g, v, prefix, stack, k)
        == Progress(g, v, prefix, stack, k - 1)
           + Records(g, t, prefix + "/" + g[v][k - 1].text, Visit(g, t, stack + [v]));
    hide *;
    RecordsExtend(g, v, k - 1, prefix, Visit(g, t, stack + [v]));
    RecordsConcat(g, v, prefix, early, late);
  }

  // ----- the gatherer -----

  class StaticInformation {
    const registry: Registry
    const aggregates: Aggregates
    ghost const graph: Graph  // the out-edges that registry and aggregates give each type
    var output: seq<Record>
    var currentPath: seq<string>
    var alreadyProcessed: seq<nat>

    constructor (registry: Registry, aggregates: Aggregates)
      requires registry.Valid() && ValidAggregates(registry, aggregates)
      ensures ValidGraph() && Valid() && this.registry == registry && this.aggregates == aggregates
      ensures output == [] && currentPath == [] && alreadyProcessed == []
    {
      AdjacencyWellFormed(registry, aggregates);
      this.registry, this.aggregates, this.graph := registry, aggregates, Adjacency(registry, aggregates);
      output, currentPath, alreadyProcessed := [], [], [];
    }

    ghost predicate ValidGraph() {
      && registry.Valid() && ValidAggregates(registry, aggregates)
      && graph == Adjacency(registry, aggregates) && WellFormed(graph) && |graph| == |registry.types|
    }

    /** What every call finds the stack to be: the distinct types of the current path. */
    ghost predicate Valid()
      reads this
    {
      StackOk(alreadyProcessed, |graph|)
    }

    method GetCurrentPath() returns (path: string)
      ensures path == JoinPath(currentPath)
    {
      path := "";
      for i := 0 to |currentPath|
        invariant path == JoinPath(currentPath[..i])
      {
        path := path + "/" + currentPath[i];
        assert currentPath[..i + 1][..i] == currentPath[..i];
      }
      assert currentPath[..|currentPath|] == currentPath;
    }

    method RecordOutput(tid: nat)
      modifies this`output
      ensures output == old(output) + [(tid, JoinPath(currentPath))]
    {
      var path := GetCurrentPath();
      output := output + [(tid, path)];
    }

    method HasAlreadyBeenProcessed(tid: nat) returns (found: bool)
      ensures found <==> tid in alreadyProcessed
    {
      for i := 0 to |alreadyProcessed|
        invariant tid !in alreadyProcessed[..i]
      {
        if alreadyProcessed[i] == tid { return true; }
      }
      found := false;
    }

    /** Records one entry for every walk from `tid` that repeats no type and meets none on the
        stack, in depth-first preorder, and leaves both stacks as they were. */
    method DoGather(tid: nat)
      requires ValidGraph() && Valid() && tid < |registry.types|
      modifies this`output, this`currentPath, this`alreadyProcessed
      ensures Valid() && currentPath == old(currentPath) && alreadyProcessed == old(alreadyProcessed)
      ensures AllValid(graph, tid, Visit(graph, tid, alreadyProcessed))
      ensures output == old(output)
                        + Records(graph, tid, JoinPath(currentPath), Visit(graph, tid, alreadyProcessed))
      decreases |registry.types| - |alreadyProcessed|, 3
    {
      VisitValid(graph, tid, alreadyProcessed);
      var done := HasAlreadyBeenProcessed(tid);
      if done { return; }
      ghost var before := output;
      RecordOutput(tid);
      FollowAttributes(tid, before);
      FollowChildren(tid, before);
      FollowAggregates(tid, before);
      assert AggregateCount(tid, |aggregates|) == |graph[tid]|;
      ProgressIsRecords(graph, tid, JoinPath(currentPath), alreadyProcessed, |graph[tid]|);
    }

    ghost function AttributeCount(tid: nat, i: nat): nat
      requires tid < |registry.types| && i <= |registry.types[tid].attributes|
    {
      |AttributeEdges(registry, tid, i)|
    }

    ghost function ChildCount(tid: nat, j: nat): nat
      requires tid < |registry.types| && j <= |registry.types|
    {
      AttributeCount(tid, |registry.types[tid].attributes|) + |ChildEdges(registry, tid, j)|
    }

    ghost function AggregateCount(tid: nat, j: nat): nat
      requires ValidAggregates(registry, aggregates) && tid < |registry.types| && j <= |aggregates|
    {
      ChildCount(tid, |registry.types|) + |AggregateEdges(registry, aggregates, tid, j)|
    }

    method FollowAttributes(tid: nat, ghost before: seq<Record>)
      requires ValidGraph() && At(graph, tid, currentPath, alreadyProcessed, before, 0, output)
      modifies this`output, this`currentPath, this`alreadyProcessed
      ensures currentPath == old(currentPath) && alreadyProcessed == old(alreadyProcessed)
      ensures At(graph, tid, currentPath, alreadyProcessed, before, ChildCount(tid, 0), output)
      decreases |registry.types| - |alreadyProcessed|, 2
    {
      assert AttributeCount(tid, 0) == 0;
      assert ChildCount(tid, 0) == AttributeCount(tid, |registry.types[tid].attributes|);
      hide At, AttributeCount, ChildCount;
      for i := 0 to |registry.types[tid].attributes|
        invariant currentPath == old(currentPath) && alreadyProcessed == old(alreadyProcessed)
        invariant At(graph, tid, currentPath, alreadyProcessed, before, AttributeCount(tid, i), output)
      {
        FollowAttribute(tid, i, before);
      }
    }

    /** The body of that loop. */
    method FollowAttribute(tid: nat, i: nat, ghost before: seq<Record>)
      requires ValidGraph() && tid < |registry.types| && i < |registry.types[tid].attributes|
      requires At(graph, tid, currentPath, alreadyProcessed, before, AttributeCount(tid, i), output)
      modifies this`output, this`currentPath, this`alreadyProcessed
      ensures currentPath == old(currentPath) && alreadyProcessed == old(alreadyProcessed)
      ensures At(graph, tid, currentPath, alreadyProcessed, before, AttributeCount(tid, i + 1), output)
      decreases |registry.types| - |alreadyProcessed|, 1
    {
      hide At, AttributeEdges, OutEdges;
      AttributeStep(registry, aggregates, tid, i);
      ghost var k := AttributeCount(tid, i);
      var a := registry.types[tid].attributes[i];
      match a.checker {
        case Pointer(pointee) =>
          if pointee == registry.objectTid { return; }
          Descend(tid, a.name, pointee, k, before);
        case Container(item) =>
          Descend(tid, a.name + "/[i]", item, k, before);
        case Plain =>
      }
    }

    method FollowChildren(tid: nat, ghost before: seq<Record>)
      requires ValidGraph() && tid < |registry.types| && At(graph, tid, currentPath, alreadyProcessed, before, ChildCount(tid, 0), output)
      modifies this`output, this`currentPath, this`alreadyProcessed
      ensures currentPath == old(currentPath) && alreadyProcessed == old(alreadyProcessed)
      ensures At(graph, tid, currentPath, alreadyProcessed, before, AggregateCount(tid, 0), output)
      decreases |registry.types| - |alreadyProcessed|, 1
    {
      hide At, AttributeEdges, ChildEdges, OutEdges;
      ghost var k := ChildCount(tid, 0);
      for j := 0 to |registry.types|
        invariant currentPath == old(currentPath) && alreadyProcessed == old(alreadyProcessed)
        invariant k == ChildCount(tid, j)
        invariant At(graph, tid, currentPath, alreadyProcessed, before, k, output)
      {
        ChildStep(registry, aggregates, tid, j);
        if (j, tid) in registry.childOf {
          Descend(tid, "$" + registry.types[j].name, j, k, before);
          k := k + 1;
        }
      }
    }

    method FollowAggregates(tid: nat, ghost before: seq<Record>)
      requires ValidGraph() && Valid() && tid < |registry.types| && At(graph, tid, currentPath, alreadyProcessed, before, AggregateCount(tid, 0), output)
      modifies this`output, this`currentPath, this`alreadyProcessed
      ensures currentPath == old(currentPath) && alreadyProcessed == old(alreadyProcessed)
      ensures At(graph, tid, currentPath, alreadyProcessed, before, AggregateCount(tid, |aggregates|), output)
      decreases |registry.types| - |alreadyProcessed|, 1
    {
      hide At, AttributeEdges, ChildEdges, AggregateEdges, OutEdges;
      ghost var k := AggregateCount(tid, 0);
      for j := 0 to |aggregates|
        invariant currentPath == old(currentPath) && alreadyProcessed == old(alreadyProcessed)
        invariant k == AggregateCount(tid, j)
        invariant At(graph, tid, currentPath, alreadyProcessed, before, k, output)
      {
        AggregateStep(registry, aggregates, tid, j);
        var item := aggregates[j];
        if item.0 == tid || item.1 == tid {
          var other := item.1;
          if item.1 == tid { other := item.0; }
          Descend(tid, "$" + registry.types[other].name, other, k, before);
          k := k + 1;
        }
      }
    }

    /** The five lines each of the three loops runs for an edge: push, recurse, pop. */
    method Descend(tid: nat, name: string, target: nat, ghost k: nat, ghost before: seq<Record>)
      requires ValidGraph() && At(graph, tid, currentPath, alreadyProcessed, before, k, output)
      requires k < |graph[tid]| && graph[tid][k] == Edge(name, target)
      modifies this`output, this`currentPath, this`alreadyProcessed
      ensures currentPath == old(currentPath) && alreadyProcessed == old(alreadyProcessed)
      ensures At(graph, tid, currentPath, alreadyProcessed, before, k + 1, output)
      decreases |registry.types| - |alreadyProcessed|, 0
    {
      ghost var path, stack := currentPath, alreadyProcessed;
      AtStep(graph, tid, path, stack, before, k, output);
      StackBound(stack + [tid], |graph|);
      currentPath := currentPath + [name];
      alreadyProcessed := alreadyProcessed + [tid];
      DoGather(target);
      alreadyProcessed := alreadyProcessed[..|alreadyProcessed| - 1];
      currentPath := currentPath[..|currentPath| - 1];
      assert currentPath == path && alreadyProcessed == stack;
    }

    /** One root.  `Uniquefy` takes its container by value, so calling it on the output
        changes nothing and it does not appear here. */
    method Gather(tid: nat)
      requires ValidGraph() && Valid() && tid < |registry.types| && currentPath == [] && alreadyProcessed == []
      modifies this`output, this`currentPath, this`alreadyProcessed
      ensures Valid() && currentPath == [] && alreadyProcessed == []
      ensures output == old(output) + RootOutput(graph, tid)
    {
      VisitValid(graph, tid, []);
      DoGather(tid);
    }

    /** Every root of the configuration namespace, in turn. */
    method GatherRoots(roots: seq<nat>)
      requires ValidGraph() && Valid() && currentPath == [] && alreadyProcessed == [] && output == []
      requires RootsBelow(roots, |registry.types|)
      modifies this`output, this`currentPath, this`alreadyProcessed
      ensures Valid() && currentPath == [] && alreadyProcessed == []
      ensures output == RunOutput(graph, roots)
    {
      for i := 0 to |roots|
        invariant Valid() && currentPath == [] && alreadyProcessed == []
        invariant output == RunOutput(graph, roots[..i])
      {
        Gather(roots[i]);
        assert roots[..i + 1][..i] == roots[..i];
      }
      assert roots[..|roots|] == roots;
    }

    method Get(tid: nat) returns (paths: seq<string>)
      ensures paths == PathsTo(output, tid)
      ensures exists idx :: Lists(idx, RecordsFor(output, tid)) && PathsAt(output, idx, paths)
    {
      ghost var positions := PathsInOrder(output, tid);
      paths := [];
      for i := 0 to |output|
        invariant paths == PathsTo(output[..i], tid)
      {
        if output[i].0 == tid {
          paths := paths + [output[i].1];
        }
        assert output[..i + 1][..i] == output[..i];
      }
      assert output[..|output|] == output;
    }
  }

  lemma {:induction false} AttributeEdgesGrow(r: Registry, t: nat, i: nat, n: nat)
    requires t < |r.types| && i <= n <= |r.types[t].attributes|
    ensures AttributeEdges(r, t, i) <= AttributeEdges(r, t, n)
  {
    if i < n { AttributeEdgesGrow(r, t, i, n - 1); }
  }

  lemma {:induction false} ChildEdgesGrow(r: Registry, t: nat, i: nat, n: nat)
    requires i <= n <= |r.types|
    ensures ChildEdges(r, t, i) <= ChildEdges(r, t, n)
  {
    if i < n { ChildEdgesGrow(r, t, i, n - 1); }
  }

  lemma {:induction false} AggregateEdgesGrow(r: Registry, aggregates: Aggregates, t: nat, i: nat, n: nat)
    requires i <= n <= |aggregates| && ValidAggregates(r, aggregates)
    ensures AggregateEdges(r, aggregates, t, i) <= AggregateEdges(r, aggregates, t, n)
  {
    if i < n { AggregateEdgesGrow(r, aggregates, t, i, n - 1); }
  }

  /** The `k`-th out-edge of `t` is the only one between the counts `k` and `next`. */
  ghost predicate OneEdge(edges: seq<Edge>, k: nat, next: nat, e: Edge) {
    next == k + 1 && k < |edges| && edges[k] == e
  }

  lemma AttributeStep(r: Registry, aggregates: Aggregates, t: nat, i: nat)
    requires ValidAggregates(r, aggregates) && t < |r.types| && i < |r.types[t].attributes|
    ensures var a := r.types[t].attributes[i];
            var k, next := |AttributeEdges(r, t, i)|, |AttributeEdges(r, t, i + 1)|;
            match a.checker
            case Pointer(p) =>
              if p == r.objectTid then next == k
              else OneEdge(OutEdges(r, aggregates, t), k, next, Edge(a.name, p))
            case Container(c) => OneEdge(OutEdges(r, aggregates, t), k, next, Edge(a.name + "/[i]", c))
            case Plain => next == k
  {
    AttributeEdgesGrow(r, t, i + 1, |r.types[t].attributes|);
  }

  lemma ChildStep(r: Registry, aggregates: Aggregates, t: nat, j: nat)
    requires ValidAggregates(r, aggregates) && t < |r.types| && j < |r.types|
    ensures var first := |AttributeEdges(r, t, |r.types[t].attributes|)|;
            var k, next := first + |ChildEdges(r, t, j)|, first + |ChildEdges(r, t, j + 1)|;
            if (j, t) in r.childOf then OneEdge(OutEdges(r, aggregates, t), k, next, Edge("$" + r.types[j].name, j))
            else next == k
  {
    ChildEdgesGrow(r, t, j + 1, |r.types|);
  }

  lemma AggregateStep(r: Registry, aggregates: Aggregates, t: nat, j: nat)
    requires ValidAggregates(r, aggregates) && t < |r.types| && j < |aggregates|
    ensures var first := |AttributeEdges(r, t, |r.types[t].attributes|)| + |ChildEdges(r, t, |r.types|)|;
            var k, next := first + |AggregateEdges(r, aggregates, t, j)|, first + |AggregateEdges(r, aggregates, t, j + 1)|;
            var other := if aggregates[j].1 == t then aggregates[j].0 else aggregates[j].1;
            if aggregates[j].0 == t || aggregates[j].1 == t
            then OneEdge(OutEdges(r, aggregates, t), k, next, Edge("$" + r.types[other].name, other))
            else next == k
  {
    AggregateEdgesGrow(r, aggregates, t, j + 1, |aggregates|);
  }

  // ----- the whole run -----

  ghost function RootOutput(g: Graph, root: nat): seq<Record>
    requires WellFormed(g) && root < |g|
  {
    VisitValid(g, root, []);
    Records(g, root, "", Visit(g, root, []))
  }

  ghost predicate RootsBelow(roots: seq<nat>, n: nat) {
    forall i :: 0 <= i < |roots| ==> roots[i] < n
  }

  ghost function RunOutput(g: Graph, roots: seq<nat>): seq<Record>
    requires WellFormed(g) && RootsBelow(roots, |g|)
  {
    if roots == [] then [] else RunOutput(g, roots[..|roots| - 1]) + RootOutput(g, roots[|roots| - 1])
  }

  ghost function PathsTo(output: seq<Record>, tid: nat): seq<string> {
    if output == [] then [] else
      PathsTo(output[..|output| - 1], tid)
      + if output[|output| - 1].0 == tid then [output[|output| - 1].1] else []
  }

  lemma {:induction false} PathsToMembers(output: seq<Record>, tid: nat, path: string)
    ensures path in PathsTo(output, tid) <==> (tid, path) in output
  {
    if output != [] {
      PathsToMembers(output[..|output| - 1], tid, path);
      assert output == output[..|output| - 1] + [output[|output| - 1]];
    }
  }

  /** The positions of the records for `tid`. */
  ghost function RecordsFor(output: seq<Record>, tid: nat): set<nat> {
    set i: nat | i < |output| && output[i].0 == tid
  }

  /** `paths` are the paths of the records at `idx`, in that order. */
  ghost predicate PathsAt(output: seq<Record>, idx: seq<nat>, paths: seq<string>) {
    |paths| == |idx| && forall k :: 0 <= k < |idx| ==> idx[k] < |output| && paths[k] == output[idx[k]].1
  }

  lemma {:induction false} PathsInOrder(output: seq<Record>, tid: nat) returns (idx: seq<nat>)
    ensures Lists(idx, RecordsFor(output, tid)) && PathsAt(output, idx, PathsTo(output, tid))
  {
    if output == [] {
      idx := [];
    } else {
      var n, init := |output| - 1, output[..|output| - 1];
      idx := PathsInOrder(init, tid);
      if output[n].0 == tid {
        ListsSnoc(idx, RecordsFor(init, tid), n);
        assert RecordsFor(output, tid) == RecordsFor(init, tid) + {n};
        idx := idx + [n];
      } else {
        assert RecordsFor(output, tid) == RecordsFor(init, tid);
      }
    }
  }

  // ----- the order of the output -----

  /** `part` is what one root contributes: an entry for each walk that repeats no type, in
      depth-first preorder. */
  ghost predicate RootPart(g: Graph, root: nat, part: seq<Record>, ws: seq<Walk>) {
    && Ordered(ws)
    && (forall w :: w in ws <==> ValidWalk(g, root, w) && NoDup(Vertices(g, root, w)))
    && |part| == |ws|
    && forall i :: 0 <= i < |ws| ==>
         ws[i] in ws && ValidWalk(g, root, ws[i]) && part[i] == (End(g, root, ws[i]), Path(g, root, ws[i]))
  }

  ghost predicate IsRootPart(g: Graph, root: nat, part: seq<Record>) {
    exists ws :: RootPart(g, root, part, ws)
  }

  lemma RootOutputParts(g: Graph, root: nat)
    requires WellFormed(g) && root < |g|
    ensures IsRootPart(g, root, RootOutput(g, root))
  {
    var ws := Visit(g, root, []);
    VisitValid(g, root, []);
    VisitCharacterised(g, root, ws);
    forall i | 0 <= i < |ws|
      ensures RootOutput(g, root)[i] == (End(g, root, ws[i]), Path(g, root, ws[i]))
    {
      assert "" + Path(g, root, ws[i]) == Path(g, root, ws[i]);
    }
    assert RootPart(g, root, RootOutput(g, root), ws);
  }

  /** Part `i` is that of root `i`. */
  ghost predicate PartsOf(g: Graph, roots: seq<nat>, parts: seq<seq<Record>>) {
    |parts| == |roots| && forall i :: 0 <= i < |roots| ==> IsRootPart(g, roots[i], parts[i])
  }

  /** The output of a run, position by position and without the recursion that builds it: the
      parts of the roots one after the other, in the order of the roots. */
  lemma {:induction false} RunOutputInOrder(g: Graph, roots: seq<nat>) returns (parts: seq<seq<Record>>)
    requires WellFormed(g) && RootsBelow(roots, |g|)
    ensures PartsOf(g, roots, parts) && Joined(RunOutput(g, roots), parts)
  {
    if roots == [] {
      parts := [];
      JoinedNothing<Record>();
    } else {
      var init, last := roots[..|roots| - 1], roots[|roots| - 1];
      parts := RunOutputInOrder(g, init);
      RootOutputParts(g, last);
      assert RunOutput(g, roots) == RunOutput(g, init) + RootOutput(g, last);
      hide RunOutput, RootOutput, IsRootPart, Joined;
      JoinedSnoc(RunOutput(g, init), parts, RootOutput(g, last));
      parts := parts + [RootOutput(g, last)];
    }
  }

  /** `w` leads from `root` to `tid` along distinct types, and `path` is its spelling. */
  ghost predicate Spells(g: Graph, root: nat, w: Walk, tid: nat, path: string) {
    && ValidWalk(g, root, w)
    && NoDup(Vertices(g, root, w))
    && End(g, root, w) == tid
    && Path(g, root, w) == path
  }

  lemma RootOutputMembers(g: Graph, root: nat, tid: nat, path: string)
    requires WellFormed(g) && root < |g|
    ensures (tid, path) in RootOutput(g, root) <==> exists w :: Spells(g, root, w, tid, path)
  {
    VisitValid(g, root, []);
    var ws := Visit(g, root, []);
    if (tid, path) in RootOutput(g, root) {
      var i :| 0 <= i < |ws| && RootOutput(g, root)[i] == (tid, path);
      VisitExact(g, root, [], ws[i]);
      assert "" + Path(g, root, ws[i]) == Path(g, root, ws[i]);
      assert Spells(g, root, ws[i], tid, path);
    }
    if w :| Spells(g, root, w, tid, path) {
      VisitExact(g, root, [], w);
      assert w in ws;
      var i :| 0 <= i < |ws| && ws[i] == w;
      assert "" + Path(g, root, w) == Path(g, root, w);
      assert RootOutput(g, root)[i] == (tid, path);
    }
  }

  /** The paths listed for a type are exactly the spellings of the repetition-free walks
      that lead to it from some gathered root. */
  lemma {:induction false} GetExact(g: Graph, roots: seq<nat>, tid: nat, path: string)
    requires WellFormed(g) && RootsBelow(roots, |g|)
    ensures path in PathsTo(RunOutput(g, roots), tid)
            <==> exists r, w :: r in roots && Spells(g, r, w, tid, path)
  {
    PathsToMembers(RunOutput(g, roots), tid, path);
    if roots != [] {
      var last := roots[|roots| - 1];
      assert forall r :: r in roots <==> r in roots[..|roots| - 1] || r == last;
      GetExact(g, roots[..|roots| - 1], tid, path);
      PathsToMembers(RunOutput(g, roots[..|roots| - 1]), tid, path);
      RootOutputMembers(g, last, tid, path);
    }
  }

  /** Completeness: stopping at repeated types loses no reachable type. */
  lemma GetIffReachable(g: Graph, roots: seq<nat>, tid: nat)
    requires WellFormed(g) && RootsBelow(roots, |g|)
    ensures PathsTo(RunOutput(g, roots), tid) != [] <==> exists r :: r in roots && Reachable(g, r, tid)
  {
    var paths := PathsTo(RunOutput(g, roots), tid);
    if paths != [] {
      GetExact(g, roots, tid, paths[0]);
      var r, w :| r in roots && Spells(g, r, w, tid, paths[0]);
      assert Reachable(g, r, tid);
    }
    if r :| r in roots && Reachable(g, r, tid) {
      var w :| ValidWalk(g, r, w) && End(g, r, w) == tid;
      var s := Shorten(g, r, w);
      GetExact(g, roots, tid, Path(g, r, s));
      assert Spells(g, r, s, tid, Path(g, r, s));
    }
  }
}
