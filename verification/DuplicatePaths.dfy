/** When the gathered output lists the same path for the same type more than once: within the
part of one root first, then over a whole run.  Nothing removes such repetitions: `Uniquefy`
works on a copy of its argument. */
module DuplicatePaths {
  import opened Sequences
  import opened Walks
  import opened Introspection

  // ----- repeated entries are different walks with one spelling -----

  /** Two different walks that spell the same path to the same type. */
  ghost predicate Twins(g: Graph, root: nat, a: Walk, b: Walk) {
    && a != b
    && Simple(g, root, a, []) && Simple(g, root, b, [])
    && End(g, root, a) == End(g, root, b) && Path(g, root, a) == Path(g, root, b)
  }

  lemma RootEntry(g: Graph, root: nat, i: nat)
    requires WellFormed(g) && root < |g| && i < |RootOutput(g, root)|
    ensures |RootOutput(g, root)| == |Visit(g, root, [])|
    ensures var w := Visit(g, root, [])[i];
            Simple(g, root, w, []) && RootOutput(g, root)[i] == (End(g, root, w), Path(g, root, w))
  {
    VisitValid(g, root, []);
    var w := Visit(g, root, [])[i];
    VisitExact(g, root, [], w);
    assert "" + Path(g, root, w) == Path(g, root, w);
  }

  lemma EntryOf(g: Graph, root: nat, w: Walk) returns (i: nat)
    requires WellFormed(g) && root < |g| && Simple(g, root, w, [])
    ensures i < |RootOutput(g, root)| == |Visit(g, root, [])| && Visit(g, root, [])[i] == w
  {
    VisitValid(g, root, []);
    VisitExact(g, root, [], w);
    i :| 0 <= i < |Visit(g, root, [])| && Visit(g, root, [])[i] == w;
  }

  /** A root's output repeats an entry if and only if two different walks spell it. */
  lemma NoDupIff(g: Graph, root: nat)
    requires WellFormed(g) && root < |g|
    ensures NoDup(RootOutput(g, root)) <==> forall a, b :: !Twins(g, root, a, b)
  {
    var out, ws := RootOutput(g, root), Visit(g, root, []);
    if i, j :| 0 <= i < j < |out| && out[i] == out[j] {
      RootEntry(g, root, i);
      RootEntry(g, root, j);
      VisitOrdered(g, root, []);
      BeforeAsymmetric(ws[i], ws[j]);
      assert Twins(g, root, ws[i], ws[j]);
    }
    if a, b :| Twins(g, root, a, b) {
      var i := EntryOf(g, root, a);
      var j := EntryOf(g, root, b);
      RootEntry(g, root, i);
      RootEntry(g, root, j);
      assert out[if i < j then i else j] == out[if i < j then j else i];
    }
  }

  // ----- walks, one edge longer or shorter -----

  lemma {:induction false} WalkSnoc(g: Graph, v: nat, w: Walk, k: nat)
    requires WellFormed(g) && ValidWalk(g, v, w) && k < |g[End(g, v, w)]|
    ensures ValidWalk(g, v, w + [k])
    ensures var e := g[End(g, v, w)][k];
            && Vertices(g, v, w + [k]) == Vertices(g, v, w) + [e.target]
            && End(g, v, w + [k]) == e.target
            && Path(g, v, w + [k]) == Path(g, v, w) + ("/" + e.text)
    decreases |w|
  {
    if w == [] {
      assert w + [k] == [k] && [k][1..] == [];
      assert "/" + g[v][k].text + "" == "" + ("/" + g[v][k].text);
    } else {
      var t := g[v][w[0]].target;
      WalkSnoc(g, t, w[1..], k);
      assert (w + [k])[1..] == w[1..] + [k];
      var head, rest, e := "/" + g[v][w[0]].text, Path(g, t, w[1..]), g[End(g, v, w)][k];
      assert head + (rest + ("/" + e.text)) == (head + rest) + ("/" + e.text);
    }
  }

  lemma SimpleSnoc(g: Graph, v: nat, w: Walk, k: nat)
    requires WellFormed(g) && ValidWalk(g, v, w) && k < |g[End(g, v, w)]|
    requires Simple(g, v, w, []) && g[End(g, v, w)][k].target !in Vertices(g, v, w)
    ensures Simple(g, v, w + [k], [])
  {
    WalkSnoc(g, v, w, k);
    var vs, t := Vertices(g, v, w), g[End(g, v, w)][k].target;
    forall i, j | 0 <= i < j < |vs + [t]|
      ensures (vs + [t])[i] != (vs + [t])[j]
    {
      if j == |vs| { assert vs[i] in vs; }
    }
  }

  // ----- two identical edges -----

  /** At the end of some walk from the root, edges `k` and `m` are the same edge twice over, to
      a type not yet on the walk. */
  ghost predicate SameEdgeTwice(g: Graph, root: nat, w: Walk, k: nat, m: nat) {
    && Simple(g, root, w, [])
    && var v := End(g, root, w);
       k < m < |g[v]| && g[v][k] == g[v][m] && g[v][k].target !in Vertices(g, root, w)
  }

  lemma SameEdgeMakesTwins(g: Graph, root: nat, w: Walk, k: nat, m: nat)
    requires WellFormed(g) && SameEdgeTwice(g, root, w, k, m)
    ensures Twins(g, root, w + [k], w + [m])
  {
    WalkSnoc(g, root, w, k);
    WalkSnoc(g, root, w, m);
    SimpleSnoc(g, root, w, k);
    SimpleSnoc(g, root, w, m);
    assert (w + [k])[|w|] != (w + [m])[|w|];
  }

  // ----- reading a path back -----

  /** The first segment of an edge text. */
  function Head(text: string): (h: string) {
    if text == "" || text[0] == '/' then "" else [text[0]] + Head(text[1..])
  }

  lemma {:induction false} HeadOfPath(text: string, rest: string)
    requires rest == "" || rest[0] == '/'
    ensures Head(text + rest) == Head(text)
  {
    if text == "" {
      assert text + rest == rest;
    } else if text[0] != '/' {
      assert (text + rest)[1..] == text[1..] + rest;
      HeadOfPath(text[1..], rest);
    }
  }

  /** At every type the first segment of an edge text tells which edge it is, up to identical
      edges. */
  ghost predicate HeadsDecide(g: Graph) {
    forall v, k, m :: 0 <= v < |g| && 0 <= k < |g[v]| && 0 <= m < |g[v]| ==>
      (Head(g[v][k].text) == Head(g[v][m].text) ==> g[v][k] == g[v][m])
  }

  lemma PathStart(g: Graph, v: nat, w: Walk)
    requires ValidWalk(g, v, w)
    ensures Path(g, v, w) == "" <==> w == []
    ensures w != [] ==> Path(g, v, w)[0] == '/'
  {
  }

  lemma SameFirstEdge(g: Graph, v: nat, a: Walk, b: Walk)
    requires HeadsDecide(g) && ValidWalk(g, v, a) && ValidWalk(g, v, b) && a != [] && b != []
    requires Path(g, v, a) == Path(g, v, b)
    ensures g[v][a[0]] == g[v][b[0]]
    ensures var t := g[v][a[0]].target; Path(g, t, a[1..]) == Path(g, t, b[1..])
  {
    var e, f := g[v][a[0]], g[v][b[0]];
    var p, q := Path(g, e.target, a[1..]), Path(g, f.target, b[1..]);
    PathStart(g, e.target, a[1..]);
    PathStart(g, f.target, b[1..]);
    SameSegment(e.text, p, f.text, q);
  }

  lemma SameSegment(x: string, p: string, y: string, q: string)
    requires "/" + x + p == "/" + y + q
    requires (p == "" || p[0] == '/') && (q == "" || q[0] == '/')
    ensures Head(x) == Head(y) && (x == y ==> p == q)
  {
    assert x + p == ("/" + x + p)[1..] == ("/" + y + q)[1..] == y + q;
    HeadOfPath(x, p);
    HeadOfPath(y, q);
    assert p == (x + p)[|x|..] && q == (y + q)[|y|..];
  }

  /** Where two walks with one spelling part company, they take two identical edges. */
  lemma {:induction false} Parting(g: Graph, v: nat, a: Walk, b: Walk) returns (w: Walk, k: nat, m: nat)
    requires WellFormed(g) && HeadsDecide(g) && a != b
    requires ValidWalk(g, v, a) && ValidWalk(g, v, b) && Path(g, v, a) == Path(g, v, b)
    ensures k != m && w + [k] <= a && w + [m] <= b && ValidWalk(g, v, w)
    ensures var u := End(g, v, w); k < |g[u]| && m < |g[u]| && g[u][k] == g[u][m]
    decreases |a|
  {
    PathStart(g, v, a);
    PathStart(g, v, b);
    SameFirstEdge(g, v, a, b);
    if a[0] != b[0] {
      w, k, m := [], a[0], b[0];
    } else {
      var t := g[v][a[0]].target;
      assert a == [a[0]] + a[1..] && b == [b[0]] + b[1..];
      w, k, m := Parting(g, t, a[1..], b[1..]);
      w := [a[0]] + w;
      assert w[1..] + [k] <= a[1..] && w[1..] + [m] <= b[1..];
      assert w + [k] == [a[0]] + (w[1..] + [k]) && w + [m] == [b[0]] + (w[1..] + [m]);
    }
  }

  lemma {:induction false} SimplePrefix(g: Graph, v: nat, w: Walk, k: nat, longer: Walk, stack: seq<nat>)
    requires WellFormed(g) && Simple(g, v, longer, stack) && w + [k] <= longer
    ensures Simple(g, v, w, stack) && k < |g[End(g, v, w)]|
    ensures g[End(g, v, w)][k].target !in Vertices(g, v, w)
    decreases |w|
  {
    SimpleStep(g, v, longer, stack);
    var t := g[v][longer[0]].target;
    if w == [] {
      assert (w + [k])[0] == k == longer[0];
      assert Vertices(g, v, w) == [v];
      assert Vertices(g, t, longer[1..])[0] == t;
      assert v in stack + [v];
    } else {
      assert (w + [k])[0] == w[0] == longer[0];
      assert w[1..] + [k] == (w + [k])[1..] <= longer[1..];
      SimplePrefix(g, t, w[1..], k, longer[1..], stack + [v]);
      SimpleStep(g, v, w, stack);
      Visited(g, t, w[1..], k, longer[1..]);
    }
  }

  /** The target of edge `k` after `w` is a vertex of any walk that starts with `w + [k]`. */
  lemma {:induction false} Visited(g: Graph, v: nat, w: Walk, k: nat, longer: Walk)
    requires WellFormed(g) && ValidWalk(g, v, longer) && ValidWalk(g, v, w) && w + [k] <= longer
    ensures k < |g[End(g, v, w)]| && g[End(g, v, w)][k].target in Vertices(g, v, longer)
    decreases |w|
  {
    if w == [] {
      assert (w + [k])[0] == k == longer[0];
      var t := g[v][k].target;
      assert Vertices(g, v, longer)[1] == Vertices(g, t, longer[1..])[0] == t;
    } else {
      assert (w + [k])[0] == w[0] == longer[0];
      assert w[1..] + [k] == (w + [k])[1..] <= longer[1..];
      var t := g[v][w[0]].target;
      Visited(g, t, w[1..], k, longer[1..]);
      assert Vertices(g, v, longer) == [v] + Vertices(g, t, longer[1..]);
    }
  }

  lemma TwinsHaveSameEdge(g: Graph, root: nat, a: Walk, b: Walk) returns (w: Walk, k: nat, m: nat)
    requires WellFormed(g) && HeadsDecide(g) && Twins(g, root, a, b)
    ensures SameEdgeTwice(g, root, w, k, m)
  {
    w, k, m := Parting(g, root, a, b);
    SimplePrefix(g, root, w, k, a, []);
    if k > m { k, m := m, k; }
  }

  /** If first segments decide, a root's output repeats an entry exactly when some walked type
      has the same edge twice, to a type not on the walk. */
  lemma RepeatsIff(g: Graph, root: nat)
    requires WellFormed(g) && HeadsDecide(g) && root < |g|
    ensures !NoDup(RootOutput(g, root)) <==> exists w, k, m :: SameEdgeTwice(g, root, w, k, m)
  {
    NoDupIff(g, root);
    if a, b :| Twins(g, root, a, b) {
      var w, k, m := TwinsHaveSameEdge(g, root, a, b);
    }
    if w, k, m :| SameEdgeTwice(g, root, w, k, m) {
      SameEdgeMakesTwins(g, root, w, k, m);
    }
  }

  // ----- registries -----

  ghost predicate AttributeNameOk(name: string) {
    '/' !in name && (name == "" || name[0] != '$')
  }

  /** Names without slashes, distinct among the types and among the attributes of each type, and
      no attribute name that looks like the mark of a child or aggregated type. */
  ghost predicate WellNamed(r: Registry) {
    && (forall x :: 0 <= x < |r.types| ==> '/' !in r.types[x].name)
    && (forall x, y :: 0 <= x < |r.types| && 0 <= y < |r.types| && r.types[x].name == r.types[y].name ==> x == y)
    && (forall t, i :: 0 <= t < |r.types| && 0 <= i < |r.types[t].attributes| ==>
          AttributeNameOk(r.types[t].attributes[i].name))
    && (forall t, i, j :: 0 <= t < |r.types| && 0 <= i < j < |r.types[t].attributes| ==>
          r.types[t].attributes[i].name != r.types[t].attributes[j].name)
  }

  ghost predicate FromAttribute(r: Registry, t: nat, i: nat, e: Edge)
    requires t < |r.types|
  {
    i < |r.types[t].attributes| &&
    var a := r.types[t].attributes[i];
    match a.checker
    case Pointer(p) => e == Edge(a.name, p)
    case Container(c) => e == Edge(a.name + "/[i]", c)
    case Plain => false
  }

  ghost predicate FromType(r: Registry, e: Edge) {
    e.target < |r.types| && e.text == "$" + r.types[e.target].name
  }

  lemma {:induction false} AttributeOrigin(r: Registry, t: nat, n: nat, e: Edge) returns (i: nat)
    requires t < |r.types| && n <= |r.types[t].attributes| && e in AttributeEdges(r, t, n)
    ensures FromAttribute(r, t, i, e)
  {
    if e in AttributeEdges(r, t, n - 1) {
      i := AttributeOrigin(r, t, n - 1, e);
    } else {
      i := n - 1;
    }
  }

  lemma {:induction false} ChildOrigin(r: Registry, t: nat, n: nat, e: Edge)
    requires n <= |r.types| && e in ChildEdges(r, t, n)
    ensures FromType(r, e)
  {
    if e in ChildEdges(r, t, n - 1) { ChildOrigin(r, t, n - 1, e); }
  }

  lemma {:induction false} AggregateOrigin(r: Registry, aggregates: Aggregates, t: nat, n: nat, e: Edge)
    requires n <= |aggregates| && ValidAggregates(r, aggregates) && e in AggregateEdges(r, aggregates, t, n)
    ensures FromType(r, e)
  {
    if e in AggregateEdges(r, aggregates, t, n - 1) { AggregateOrigin(r, aggregates, t, n - 1, e); }
  }

  lemma Origin(r: Registry, aggregates: Aggregates, t: nat, e: Edge) returns (i: nat)
    requires ValidAggregates(r, aggregates) && t < |r.types| && e in OutEdges(r, aggregates, t)
    ensures FromType(r, e) || FromAttribute(r, t, i, e)
  {
    i := 0;
    if e in AttributeEdges(r, t, |r.types[t].attributes|) {
      i := AttributeOrigin(r, t, |r.types[t].attributes|, e);
    } else if e in ChildEdges(r, t, |r.types|) {
      ChildOrigin(r, t, |r.types|, e);
    } else {
      AggregateOrigin(r, aggregates, t, |aggregates|, e);
    }
  }

  lemma {:induction false} HeadOfSegment(text: string)
    requires '/' !in text
    ensures Head(text) == text
  {
    if text != "" {
      HeadOfSegment(text[1..]);
      assert text == [text[0]] + text[1..];
    }
  }

  lemma HeadOfAttribute(r: Registry, t: nat, i: nat, e: Edge)
    requires WellNamed(r) && t < |r.types| && FromAttribute(r, t, i, e)
    ensures Head(e.text) == r.types[t].attributes[i].name && AttributeNameOk(Head(e.text))
  {
    var name := r.types[t].attributes[i].name;
    assert AttributeNameOk(name);
    HeadOfSegment(name);
    HeadOfPath(name, "/[i]");
  }

  lemma HeadOfType(r: Registry, e: Edge)
    requires WellNamed(r) && FromType(r, e)
    ensures Head(e.text) == e.text && !AttributeNameOk(Head(e.text))
  {
    HeadOfSegment(e.text);
  }

  lemma SameHead(r: Registry, aggregates: Aggregates, t: nat, e: Edge, f: Edge)
    requires WellNamed(r) && ValidAggregates(r, aggregates) && t < |r.types|
    requires e in OutEdges(r, aggregates, t) && f in OutEdges(r, aggregates, t)
    requires Head(e.text) == Head(f.text)
    ensures e == f
  {
    var i := Origin(r, aggregates, t, e);
    var j := Origin(r, aggregates, t, f);
    hide OutEdges, Head, AttributeNameOk;
    if FromType(r, e) { HeadOfType(r, e); } else { HeadOfAttribute(r, t, i, e); }
    if FromType(r, f) { HeadOfType(r, f); } else { HeadOfAttribute(r, t, j, f); }
    if FromType(r, e) {
      assert r.types[e.target].name == e.text[1..] && r.types[f.target].name == f.text[1..];
    } else {
      assert i == j;
    }
  }

  lemma WellNamedDecides(r: Registry, aggregates: Aggregates)
    requires WellNamed(r) && ValidAggregates(r, aggregates)
    ensures HeadsDecide(Adjacency(r, aggregates))
  {
    var g: Graph := Adjacency(r, aggregates);
    hide WellNamed, OutEdges, Head;
    forall v: nat, k: nat, m: nat | v < |g| && k < |g[v]| && m < |g[v]| && Head(g[v][k].text) == Head(g[v][m].text)
      ensures g[v][k] == g[v][m]
    {
      assert g[v][k] in g[v] && g[v][m] in g[v];
      SameHead(r, aggregates, v, g[v][k], g[v][m]);
    }
  }

  /** For a well-named registry the output of a root repeats an entry if and only if some type
      reached along distinct types has the same edge twice, to a type not on the way: say, a pair
      of types registered twice for aggregation, or a child that is aggregated as well. */
  lemma RegistryRepeatsIff(r: Registry, aggregates: Aggregates, root: nat)
    requires r.Valid() && WellNamed(r) && ValidAggregates(r, aggregates) && root < |r.types|
    ensures WellFormed(Adjacency(r, aggregates))
    ensures !NoDup(RootOutput(Adjacency(r, aggregates), root))
            <==> exists w, k, m :: SameEdgeTwice(Adjacency(r, aggregates), root, w, k, m)
  {
    AdjacencyWellFormed(r, aggregates);
    WellNamedDecides(r, aggregates);
    hide OutEdges, WellNamed;
    RepeatsIff(Adjacency(r, aggregates), root);
  }

  /** Registering one aggregation twice, as the program does for two of its types, is enough. */
  lemma AggregatedTwice()
    ensures var r := Registry([TypeInfo("ns3::Node", []), TypeInfo("ns3::Icmpv4L4Protocol", [])], 0, {});
            var aggregates := [(0, 1), (0, 1)];
            && r.Valid() && ValidAggregates(r, aggregates) && WellFormed(Adjacency(r, aggregates))
            && !NoDup(RootOutput(Adjacency(r, aggregates), 0))
  {
    var r := Registry([TypeInfo("ns3::Node", []), TypeInfo("ns3::Icmpv4L4Protocol", [])], 0, {});
    var aggregates: Aggregates := [(0, 1), (0, 1)];
    AdjacencyWellFormed(r, aggregates);
    TwoAggregateEdges(r, aggregates);
    DoubleEdge(Adjacency(r, aggregates), Edge("$" + r.types[1].name, 1));
  }

  lemma DoubleEdge(g: Graph, e: Edge)
    requires WellFormed(g) && g != [] && g[0] == [e, e] && e.target != 0
    ensures !NoDup(RootOutput(g, 0))
  {
    assert Vertices(g, 0, []) == [0];
    assert SameEdgeTwice(g, 0, [], 0, 1);
    hide *;
    SameEdgeMakesTwins(g, 0, [], 0, 1);
    NoDupIff(g, 0);
  }

  lemma {:induction false} NoChildren(r: Registry, t: nat, n: nat)
    requires n <= |r.types| && r.childOf == {}
    ensures ChildEdges(r, t, n) == []
  {
    if n > 0 { NoChildren(r, t, n - 1); }
  }

  lemma TwoAggregateEdges(r: Registry, aggregates: Aggregates)
    requires |r.types| == 2 && r.types[0].attributes == [] && r.childOf == {} && aggregates == [(0, 1), (0, 1)]
    ensures ValidAggregates(r, aggregates)
    ensures OutEdges(r, aggregates, 0) == [Edge("$" + r.types[1].name, 1), Edge("$" + r.types[1].name, 1)]
  {
    var e := Edge("$" + r.types[1].name, 1);
    NoChildren(r, 0, 2);
    assert AggregateEdge(r, 0, (0, 1)) == [e];
    assert AggregateEdges(r, aggregates, 0, 0) == [];
    assert AggregateEdges(r, aggregates, 0, 1) == [] + [e] == [e];
    assert AggregateEdges(r, aggregates, 0, 2) == AggregateEdges(r, aggregates, 0, 1) + AggregateEdge(r, 0, aggregates[1]);
  }

  // ----- whole runs: the output accumulates over the roots -----

  /** Walk `a` from root `i` of a run and walk `b` from root `j` are not the same walk from the
      same root, and record the same entry. */
  ghost predicate SharedEntry(g: Graph, roots: seq<nat>, i: nat, a: Walk, j: nat, b: Walk) {
    && i < |roots| && j < |roots| && (i, a) != (j, b)
    && Simple(g, roots[i], a, []) && Simple(g, roots[j], b, [])
    && End(g, roots[i], a) == End(g, roots[j], b) && Path(g, roots[i], a) == Path(g, roots[j], b)
  }

  /** Some walk from root `i` of a run records `e`. */
  ghost predicate RecordedBy(g: Graph, roots: seq<nat>, i: nat, a: Walk, e: Record) {
    i < |roots| && Spells(g, roots[i], a, e.0, e.1)
  }

  lemma SpellsIsSimple(g: Graph, root: nat, w: Walk, e: Record)
    ensures Spells(g, root, w, e.0, e.1)
            <==> Simple(g, root, w, []) && End(g, root, w) == e.0 && Path(g, root, w) == e.1
  {
  }

  lemma {:induction false} RunMembers(g: Graph, roots: seq<nat>, e: Record)
    requires WellFormed(g) && RootsBelow(roots, |g|)
    ensures e in RunOutput(g, roots) <==> exists i, a :: RecordedBy(g, roots, i, a, e)
  {
    if roots != [] {
      var init, last := roots[..|roots| - 1], roots[|roots| - 1];
      RunMembers(g, init, e);
      RootOutputMembers(g, last, e.0, e.1);
      assert (e.0, e.1) == e;
      assert e in RunOutput(g, roots) <==> e in RunOutput(g, init) || e in RootOutput(g, last);
      hide *;
      if i: nat, a :| RecordedBy(g, roots, i, a, e) {
        RecordedLast(g, roots, i, a, e);
      }
      if i: nat, a :| RecordedBy(g, init, i, a, e) {
        RecordedInit(g, roots, i, a, e);
      }
      if a :| Spells(g, last, a, e.0, e.1) {
        RecordedLast(g, roots, |roots| - 1, a, e);
      }
    }
  }

  lemma RecordedInit(g: Graph, roots: seq<nat>, i: nat, a: Walk, e: Record)
    requires roots != [] && RecordedBy(g, roots[..|roots| - 1], i, a, e)
    ensures RecordedBy(g, roots, i, a, e)
  {
  }

  lemma RecordedLast(g: Graph, roots: seq<nat>, i: nat, a: Walk, e: Record)
    requires roots != []
    ensures RecordedBy(g, roots, i, a, e)
            <==> RecordedBy(g, roots[..|roots| - 1], i, a, e) || (i == |roots| - 1 && Spells(g, roots[i], a, e.0, e.1))
  {
    hide Spells;
  }

  lemma NoDupSplit<T>(x: seq<T>, y: seq<T>)
    ensures NoDup(x + y) <==> NoDup(x) && NoDup(y) && forall e :: e in x ==> e !in y
  {
    var s := x + y;
    assert forall i :: 0 <= i < |x| ==> s[i] == x[i];
    assert forall j :: 0 <= j < |y| ==> s[|x| + j] == y[j];
    if NoDup(x) && NoDup(y) && forall e :: e in x ==> e !in y {
      forall i, j | 0 <= i < j < |s|
        ensures s[i] != s[j]
      {
        if i < |x| <= j { assert x[i] in x && y[j - |x|] in y; }
      }
    }
    if NoDup(s) {
      forall i, j | 0 <= i < |x| && 0 <= j < |y|
        ensures x[i] != y[j]
      {
        assert s[i] != s[|x| + j];
      }
    }
  }

  /** An entry of an earlier root that the last root records again. */
  lemma LastShares(g: Graph, roots: seq<nat>, e: Record) returns (i: nat, a: Walk, b: Walk)
    requires WellFormed(g) && RootsBelow(roots, |g|) && roots != []
    requires e in RunOutput(g, roots[..|roots| - 1]) && e in RootOutput(g, roots[|roots| - 1])
    ensures SharedEntry(g, roots, i, a, |roots| - 1, b)
  {
    var init, last := roots[..|roots| - 1], roots[|roots| - 1];
    RunMembers(g, init, e);
    RootOutputMembers(g, last, e.0, e.1);
    assert (e.0, e.1) == e;
    i, a :| RecordedBy(g, init, i, a, e);
    b :| Spells(g, last, b, e.0, e.1);
    SpellsIsSimple(g, init[i], a, e);
    SpellsIsSimple(g, last, b, e);
  }

  /** The other way round: an entry shared with the last root is in both parts. */
  lemma SharedIsIn(g: Graph, roots: seq<nat>, i: nat, a: Walk, b: Walk) returns (e: Record)
    requires WellFormed(g) && RootsBelow(roots, |g|) && i < |roots| - 1
    requires SharedEntry(g, roots, i, a, |roots| - 1, b)
    ensures e in RunOutput(g, roots[..|roots| - 1]) && e in RootOutput(g, roots[|roots| - 1])
  {
    var init, last := roots[..|roots| - 1], roots[|roots| - 1];
    e := (End(g, last, b), Path(g, last, b));
    SpellsIsSimple(g, init[i], a, e);
    SpellsIsSimple(g, last, b, e);
    assert RecordedBy(g, init, i, a, e);
    RunMembers(g, init, e);
    RootOutputMembers(g, last, e.0, e.1);
  }

  lemma SharedSymmetric(g: Graph, roots: seq<nat>, i: nat, a: Walk, j: nat, b: Walk)
    requires SharedEntry(g, roots, i, a, j, b)
    ensures SharedEntry(g, roots, j, b, i, a)
  {
  }

  lemma SharedInit(g: Graph, roots: seq<nat>, i: nat, a: Walk, j: nat, b: Walk)
    requires i < |roots| - 1 && j < |roots| - 1
    ensures SharedEntry(g, roots, i, a, j, b) <==> SharedEntry(g, roots[..|roots| - 1], i, a, j, b)
  {
  }

  lemma SharedLast(g: Graph, roots: seq<nat>, a: Walk, b: Walk)
    requires roots != []
    ensures SharedEntry(g, roots, |roots| - 1, a, |roots| - 1, b) <==> Twins(g, roots[|roots| - 1], a, b)
  {
  }

  /** The accumulated output of a run repeats an entry if and only if two walks share one, from
      the same root or from two. */
  lemma {:induction false} RunNoDupIff(g: Graph, roots: seq<nat>)
    requires WellFormed(g) && RootsBelow(roots, |g|)
    ensures NoDup(RunOutput(g, roots)) <==> forall i, a, j, b :: !SharedEntry(g, roots, i, a, j, b)
  {
    if roots != [] {
      var n, init, last := |roots| - 1, roots[..|roots| - 1], roots[|roots| - 1];
      RunNoDupIff(g, init);
      NoDupIff(g, last);
      NoDupSplit(RunOutput(g, init), RootOutput(g, last));
      hide NoDup, SharedEntry, Twins;
      if i: nat, a, j: nat, b :| SharedEntry(g, init, i, a, j, b) {
        SharedBounds(g, init, i, a, j, b);
        SharedInit(g, roots, i, a, j, b);
      }
      if a, b :| Twins(g, last, a, b) {
        SharedLast(g, roots, a, b);
      }
      if e :| e in RunOutput(g, init) && e in RootOutput(g, last) {
        var i, a, b := LastShares(g, roots, e);
      }
      if i: nat, a, j: nat, b :| SharedEntry(g, roots, i, a, j, b) {
        SharedBounds(g, roots, i, a, j, b);
        SharedSymmetric(g, roots, i, a, j, b);
        if i < n && j < n {
          SharedInit(g, roots, i, a, j, b);
        } else if i == n && j == n {
          SharedLast(g, roots, a, b);
        } else if i < n {
          var e := SharedIsIn(g, roots, i, a, b);
        } else {
          var e := SharedIsIn(g, roots, j, b, a);
        }
      }
    }
  }

  lemma SharedBounds(g: Graph, roots: seq<nat>, i: nat, a: Walk, j: nat, b: Walk)
    requires SharedEntry(g, roots, i, a, j, b)
    ensures i < |roots| && j < |roots|
  {
  }

  /** Gathering a root twice repeats its own entry at least. */
  lemma GatheredTwice(g: Graph, roots: seq<nat>, i: nat, j: nat)
    requires WellFormed(g) && RootsBelow(roots, |g|) && i < j < |roots| && roots[i] == roots[j]
    ensures !NoDup(RunOutput(g, roots))
  {
    assert Vertices(g, roots[i], []) == [roots[i]];
    assert SharedEntry(g, roots, i, [], j, []);
    RunNoDupIff(g, roots);
  }

  /** The roots are distinct and no two have edges with the same first segment. */
  ghost predicate RootsApart(g: Graph, roots: seq<nat>)
    requires RootsBelow(roots, |g|)
  {
    && NoDup(roots)
    && forall i, j, k, m :: 0 <= i < j < |roots| && 0 <= k < |g[roots[i]]| && 0 <= m < |g[roots[j]]| ==>
         Head(g[roots[i]][k].text) != Head(g[roots[j]][m].text)
  }

  lemma FirstSegment(g: Graph, u: nat, v: nat, a: Walk, b: Walk)
    requires ValidWalk(g, u, a) && ValidWalk(g, v, b) && a != [] && b != [] && Path(g, u, a) == Path(g, v, b)
    ensures Head(g[u][a[0]].text) == Head(g[v][b[0]].text)
  {
    var e, f := g[u][a[0]], g[v][b[0]];
    PathStart(g, e.target, a[1..]);
    PathStart(g, f.target, b[1..]);
    SameSegment(e.text, Path(g, e.target, a[1..]), f.text, Path(g, f.target, b[1..]));
  }

  lemma ApartRootsShareNothing(g: Graph, roots: seq<nat>, i: nat, a: Walk, j: nat, b: Walk)
    requires RootsBelow(roots, |g|) && RootsApart(g, roots) && SharedEntry(g, roots, i, a, j, b)
    ensures i == j
  {
    PathStart(g, roots[i], a);
    PathStart(g, roots[j], b);
    if i != j && a != [] {
      FirstSegment(g, roots[i], roots[j], a, b);
    }
  }

  /** For roots that are apart, a run repeats an entry exactly when some root's part does. */
  lemma RunRepeatsIff(g: Graph, roots: seq<nat>)
    requires WellFormed(g) && HeadsDecide(g) && RootsBelow(roots, |g|) && RootsApart(g, roots)
    ensures !NoDup(RunOutput(g, roots)) <==> exists i, w, k, m :: 0 <= i < |roots| && SameEdgeTwice(g, roots[i], w, k, m)
  {
    RunNoDupIff(g, roots);
    hide SharedEntry, SameEdgeTwice, RootsApart, HeadsDecide, NoDup;
    if i: nat, a, j: nat, b :| SharedEntry(g, roots, i, a, j, b) {
      var w, k, m := SharedHasSameEdge(g, roots, i, a, j, b);
    }
    if i: nat, w, k, m :| i < |roots| && SameEdgeTwice(g, roots[i], w, k, m) {
      SameEdgeShares(g, roots, i, w, k, m);
    }
  }

  lemma SharedHasSameEdge(g: Graph, roots: seq<nat>, i: nat, a: Walk, j: nat, b: Walk) returns (w: Walk, k: nat, m: nat)
    requires WellFormed(g) && HeadsDecide(g) && RootsBelow(roots, |g|) && RootsApart(g, roots)
    requires SharedEntry(g, roots, i, a, j, b)
    ensures i < |roots| && SameEdgeTwice(g, roots[i], w, k, m)
  {
    ApartRootsShareNothing(g, roots, i, a, j, b);
    assert Twins(g, roots[i], a, b);
    w, k, m := TwinsHaveSameEdge(g, roots[i], a, b);
  }

  lemma SameEdgeShares(g: Graph, roots: seq<nat>, i: nat, w: Walk, k: nat, m: nat)
    requires WellFormed(g) && i < |roots| && SameEdgeTwice(g, roots[i], w, k, m)
    ensures SharedEntry(g, roots, i, w + [k], i, w + [m])
  {
    SameEdgeMakesTwins(g, roots[i], w, k, m);
  }

  lemma RegistryRunRepeatsIff(r: Registry, aggregates: Aggregates, roots: seq<nat>)
    requires r.Valid() && WellNamed(r) && ValidAggregates(r, aggregates)
    requires RootsBelow(roots, |r.types|) && RootsApart(Adjacency(r, aggregates), roots)
    ensures WellFormed(Adjacency(r, aggregates))
    ensures !NoDup(RunOutput(Adjacency(r, aggregates), roots))
            <==> exists i, w, k, m :: 0 <= i < |roots| && SameEdgeTwice(Adjacency(r, aggregates), roots[i], w, k, m)
  {
    AdjacencyWellFormed(r, aggregates);
    WellNamedDecides(r, aggregates);
    hide OutEdges, WellNamed, RootsApart;
    RunRepeatsIff(Adjacency(r, aggregates), roots);
  }

  /** Two roots with an attribute of the same name to the same type repeat an entry although no
      edge occurs twice. */
  lemma TwoRootsShare()
    ensures var g: Graph := [[Edge("X", 2)], [Edge("X", 2)], []];
            && WellFormed(g) && HeadsDecide(g)
            && (forall root, w, k, m :: !SameEdgeTwice(g, root, w, k, m))
            && !NoDup(RunOutput(g, [0, 1]))
  {
    hide *;
    SharedByTwo([[Edge("X", 2)], [Edge("X", 2)], []], Edge("X", 2));
  }

  lemma SharedByTwo(g: Graph, e: Edge)
    requires |g| == 3 && g[0] == g[1] == [e] && g[2] == [] && e.target == 2
    ensures WellFormed(g) && HeadsDecide(g)
    ensures forall root, w, k, m :: !SameEdgeTwice(g, root, w, k, m)
    ensures !NoDup(RunOutput(g, [0, 1]))
  {
    OneEdgeEach(g, e);
    hide *;
    SharedEnd(g, e);
  }

  lemma OneEdgeEach(g: Graph, e: Edge)
    requires |g| == 3 && g[0] == g[1] == [e] && g[2] == [] && e.target == 2
    ensures WellFormed(g) && HeadsDecide(g)
    ensures forall root, w, k, m :: !SameEdgeTwice(g, root, w, k, m)
  {
    hide Head, Simple, Vertices;
    assert forall v :: 0 <= v < |g| ==> |g[v]| <= 1;
  }

  lemma SharedEnd(g: Graph, e: Edge)
    requires WellFormed(g) && |g| == 3 && g[0] == g[1] == [e] && e.target == 2
    ensures !NoDup(RunOutput(g, [0, 1]))
  {
    var roots: seq<nat> := [0, 1];
    OneEdgeWalk(g, roots[0], e);
    OneEdgeWalk(g, roots[1], e);
    hide Simple, End, Path, NoDup, RunOutput;
    assert SharedEntry(g, roots, 0, [0], 1, [0]);
    RunNoDupIff(g, roots);
  }

  lemma OneEdgeWalk(g: Graph, v: nat, e: Edge)
    requires v < |g| && g[v] == [e] && e.target < |g| && e.target != v
    ensures Simple(g, v, [0], []) && End(g, v, [0]) == e.target && Path(g, v, [0]) == "/" + e.text
  {
    assert [0][1..] == [];
    assert Vertices(g, v, [0]) == [v] + Vertices(g, e.target, []) == [v, e.target];
    assert "/" + e.text + "" == "/" + e.text;
  }
}
