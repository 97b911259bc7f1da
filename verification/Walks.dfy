/** Walks in an edge-labelled multigraph given by ordered adjacency lists.

A walk is written as the sequence of edge positions taken from its start, so that two
walks differ exactly when they take different edges, even between the same vertices.
*/
module Walks {
  import opened Sequences

  datatype Edge = Edge(text: string, target: nat)

  type Graph = seq<seq<Edge>>
  type Walk = seq<nat>

  ghost predicate WellFormed(g: Graph) {
    forall v, k :: 0 <= v < |g| && 0 <= k < |g[v]| ==> g[v][k].target < |g|
  }

  ghost function Universe(g: Graph): set<nat> {
    UpTo(|g|)
  }

  ghost predicate ValidWalk(g: Graph, v: nat, w: Walk)
    decreases |w|
  {
    v < |g| && (w == [] || (w[0] < |g[v]| && ValidWalk(g, g[v][w[0]].target, w[1..])))
  }

  /** Every vertex the walk visits, start included. */
  ghost function Vertices(g: Graph, v: nat, w: Walk): (vs: seq<nat>)
    requires ValidWalk(g, v, w)
    ensures |vs| == |w| + 1 && vs[0] == v
    decreases |w|
  {
    [v] + if w == [] then [] else Vertices(g, g[v][w[0]].target, w[1..])
  }

  ghost function End(g: Graph, v: nat, w: Walk): (e: nat)
    requires ValidWalk(g, v, w)
    ensures e < |g|
    decreases |w|
  {
    if w == [] then v else End(g, g[v][w[0]].target, w[1..])
  }

  /** The configuration path of a walk: each edge text, preceded by a slash. */
  ghost function Path(g: Graph, v: nat, w: Walk): string
    requires ValidWalk(g, v, w)
    decreases |w|
  {
    if w == [] then "" else "/" + g[v][w[0]].text + Path(g, g[v][w[0]].target, w[1..])
  }

  /** A walk that repeats no vertex and avoids `stack`. */
  ghost predicate Simple(g: Graph, v: nat, w: Walk, stack: seq<nat>) {
    && ValidWalk(g, v, w)
    && NoDup(Vertices(g, v, w))
    && forall x :: x in Vertices(g, v, w) ==> x !in stack
  }

  ghost predicate Reachable(g: Graph, source: nat, v: nat) {
    exists w :: ValidWalk(g, source, w) && End(g, source, w) == v
  }

  // ----- depth-first preorder -----

  /** Depth-first preorder on walks: a walk comes before its extensions, and walks that
      part company are ordered by the edge positions at which they do. */
  ghost predicate Before(a: Walk, b: Walk)
    decreases |a|
  {
    b != [] && (a == [] || a[0] < b[0] || (a[0] == b[0] && Before(a[1..], b[1..])))
  }

  ghost predicate Ordered(ws: seq<Walk>) {
    forall i, j :: 0 <= i < j < |ws| ==> Before(ws[i], ws[j])
  }

  lemma {:induction false} BeforeAsymmetric(a: Walk, b: Walk)
    requires Before(a, b)
    ensures a != b && !Before(b, a)
    decreases |a|
  {
    if a != [] && a[0] == b[0] {
      BeforeAsymmetric(a[1..], b[1..]);
    }
  }

  /** Two ordered sequences with the same members are the same sequence. */
  lemma {:induction false} OrderedUnique(a: seq<Walk>, b: seq<Walk>)
    requires Ordered(a) && Ordered(b)
    requires forall w :: w in a <==> w in b
    ensures a == b
  {
    assert a != [] ==> a[0] in b;
    assert b != [] ==> b[0] in a;
    if a != [] {
      var i :| 0 <= i < |b| && b[i] == a[0];
      var j :| 0 <= j < |a| && a[j] == b[0];
      if i > 0 {
        BeforeAsymmetric(b[0], b[i]);
        assert false;
      }
      OrderedRest(a, b);
      OrderedRest(b, a);
      OrderedUnique(a[1..], b[1..]);
      assert a == [a[0]] + a[1..] && b == [b[0]] + b[1..];
    }
  }

  lemma OrderedRest(a: seq<Walk>, b: seq<Walk>)
    requires Ordered(a) && a != [] && b != [] && a[0] == b[0]
    requires forall w :: w in a ==> w in b
    ensures Ordered(a[1..])
    ensures forall w :: w in a[1..] ==> w in b[1..]
  {
    forall w | w in a[1..]
      ensures w in b[1..]
    {
      var k :| 0 <= k < |a[1..]| && a[1..][k] == w;
      assert a[k + 1] == w && w in a;
      BeforeAsymmetric(a[0], a[k + 1]);
      var m :| 0 <= m < |b| && b[m] == w;
      assert m > 0 && b[1..][m - 1] == w;
    }
  }

  // ----- the enumeration a depth-first search makes -----

  ghost function Extend(k: nat, ws: seq<Walk>): (r: seq<Walk>)
    ensures |r| == |ws|
    ensures forall i :: 0 <= i < |r| ==> r[i] == [k] + ws[i]
  {
    seq(|ws|, i requires 0 <= i < |ws| => [k] + ws[i])
  }

  lemma ExtendMembers(k: nat, ws: seq<Walk>, w: Walk)
    ensures w in Extend(k, ws) <==> w != [] && w[0] == k && w[1..] in ws
  {
    var r := Extend(k, ws);
    if w in r {
      var i :| 0 <= i < |r| && r[i] == w;
      assert w == [k] + ws[i] && w[1..] == ws[i];
    }
    if w != [] && w[0] == k && w[1..] in ws {
      var i :| 0 <= i < |ws| && ws[i] == w[1..];
      assert r[i] == [k] + w[1..] == w;
    }
  }

  /** The walks a search started at `v` records when `stack` is being processed. */
  ghost function Visit(g: Graph, v: nat, stack: seq<nat>): seq<Walk>
    requires WellFormed(g) && v < |g|
    decreases Universe(g) - Elems(stack), 0, 0
  {
    if v in stack then [] else
      Shrink(g, v, stack);
      [[]] + Branch(g, v, stack, |g[v]|)
  }

  /** The walks it records below `v` through the first `k` edges. */
  ghost function Branch(g: Graph, v: nat, stack: seq<nat>, k: nat): seq<Walk>
    requires WellFormed(g) && v < |g| && v !in stack && k <= |g[v]|
    decreases Universe(g) - Elems(stack + [v]), 1, k
  {
    if k == 0 then [] else
      Branch(g, v, stack, k - 1) + Extend(k - 1, Visit(g, g[v][k - 1].target, stack + [v]))
  }

  lemma Shrink(g: Graph, v: nat, stack: seq<nat>)
    requires v < |g| && v !in stack
    ensures Universe(g) - Elems(stack + [v]) < Universe(g) - Elems(stack)
  {
    assert v in Universe(g) - Elems(stack);
    assert v in Elems(stack + [v]);
    assert Elems(stack) <= Elems(stack + [v]);
  }

  /** One step of a walk: which walks out of `v` are simple, edge by edge. */
  lemma SimpleStep(g: Graph, v: nat, w: Walk, stack: seq<nat>)
    requires WellFormed(g) && v < |g| && w != []
    ensures Simple(g, v, w, stack) <==>
            v !in stack && w[0] < |g[v]| && Simple(g, g[v][w[0]].target, w[1..], stack + [v])
  {
    if w[0] < |g[v]| && ValidWalk(g, v, w) {
      var rest := Vertices(g, g[v][w[0]].target, w[1..]);
      assert Vertices(g, v, w) == [v] + rest;
      if Simple(g, v, w, stack) {
        forall i, j | 0 <= i < j < |rest|
          ensures rest[i] != rest[j]
        {
          assert ([v] + rest)[i + 1] == rest[i] && ([v] + rest)[j + 1] == rest[j];
        }
        forall x | x in rest
          ensures x !in stack + [v]
        {
          var i :| 0 <= i < |rest| && rest[i] == x;
          assert ([v] + rest)[i + 1] == x;
          assert ([v] + rest)[0] == v;
        }
      }
      if v !in stack && Simple(g, g[v][w[0]].target, w[1..], stack + [v]) {
        forall x | x in rest
          ensures x != v && x !in stack
        {
          assert x !in stack + [v];
        }
        forall i, j | 0 <= i < j < |rest| + 1
          ensures ([v] + rest)[i] != ([v] + rest)[j]
        {
          assert ([v] + rest)[j] == rest[j - 1];
        }
      }
    }
  }

  /** The enumeration holds exactly the simple walks that avoid the stack. */
  lemma {:induction false} VisitExact(g: Graph, v: nat, stack: seq<nat>, w: Walk)
    requires WellFormed(g) && v < |g|
    ensures w in Visit(g, v, stack) <==> Simple(g, v, w, stack)
    decreases |w|, 1
  {
    if v in stack {
      if ValidWalk(g, v, w) { assert v == Vertices(g, v, w)[0]; }
    } else {
      BranchExact(g, v, stack, |g[v]|, w);
      if w == [] {
        assert [[]] + Branch(g, v, stack, |g[v]|) == Visit(g, v, stack);
        assert Visit(g, v, stack)[0] == [];
        assert Vertices(g, v, w) == [v];
      } else {
        SimpleStep(g, v, w, stack);
      }
    }
  }

  lemma {:induction false} BranchExact(g: Graph, v: nat, stack: seq<nat>, k: nat, w: Walk)
    requires WellFormed(g) && v < |g| && v !in stack && k <= |g[v]|
    ensures w in Branch(g, v, stack, k) <==>
            w != [] && w[0] < k && Simple(g, g[v][w[0]].target, w[1..], stack + [v])
    decreases |w|, 0, k
  {
    if k > 0 {
      BranchExact(g, v, stack, k - 1, w);
      var below := Visit(g, g[v][k - 1].target, stack + [v]);
      ExtendMembers(k - 1, below, w);
      if w != [] {
        VisitExact(g, g[v][k - 1].target, stack + [v], w[1..]);
      }
    }
  }

  /** The enumeration is in depth-first preorder, so it repeats nothing. */
  lemma {:induction false} VisitOrdered(g: Graph, v: nat, stack: seq<nat>)
    requires WellFormed(g) && v < |g|
    ensures Ordered(Visit(g, v, stack))
    decreases Universe(g) - Elems(stack), 0, 0
  {
    if v !in stack {
      Shrink(g, v, stack);
      BranchOrdered(g, v, stack, |g[v]|);
      forall i | 0 <= i < |Branch(g, v, stack, |g[v]|)|
        ensures Branch(g, v, stack, |g[v]|)[i] != []
      {
        BranchExact(g, v, stack, |g[v]|, Branch(g, v, stack, |g[v]|)[i]);
      }
    }
  }

  lemma {:induction false} BranchOrdered(g: Graph, v: nat, stack: seq<nat>, k: nat)
    requires WellFormed(g) && v < |g| && v !in stack && k <= |g[v]|
    ensures Ordered(Branch(g, v, stack, k))
    decreases Universe(g) - Elems(stack + [v]), 1, k
  {
    if k > 0 {
      BranchOrdered(g, v, stack, k - 1);
      var early := Branch(g, v, stack, k - 1);
      var below := Visit(g, g[v][k - 1].target, stack + [v]);
      var late := Extend(k - 1, below);
      VisitOrdered(g, g[v][k - 1].target, stack + [v]);
      forall i, j | 0 <= i < j < |early + late|
        ensures Before((early + late)[i], (early + late)[j])
      {
        if j < |early| {
          assert Before(early[i], early[j]);
        } else if i < |early| {
          BranchExact(g, v, stack, k - 1, early[i]);
        } else {
          assert late[i - |early|][1..] == below[i - |early|];
          assert late[j - |early|][1..] == below[j - |early|];
        }
      }
    }
  }

  /** What a search from an empty stack records, said without reference to how it searches:
      the one sequence in preorder whose members are the walks that repeat no vertex. */
  lemma VisitCharacterised(g: Graph, v: nat, ws: seq<Walk>)
    requires WellFormed(g) && v < |g|
    ensures ws == Visit(g, v, []) <==>
            Ordered(ws) && forall w :: w in ws <==> ValidWalk(g, v, w) && NoDup(Vertices(g, v, w))
  {
    forall w
      ensures w in Visit(g, v, []) <==> ValidWalk(g, v, w) && NoDup(Vertices(g, v, w))
    {
      VisitExact(g, v, [], w);
    }
    VisitOrdered(g, v, []);
    if Ordered(ws) && forall w :: w in ws <==> ValidWalk(g, v, w) && NoDup(Vertices(g, v, w)) {
      OrderedUnique(ws, Visit(g, v, []));
    }
  }

  // ----- every walk shortens to a simple one -----

  lemma {:induction false} SuffixFrom(g: Graph, v: nat, w: Walk, x: nat) returns (s: Walk)
    requires WellFormed(g) && Simple(g, v, w, []) && x in Vertices(g, v, w)
    ensures Simple(g, x, s, []) && End(g, x, s) == End(g, v, w)
    decreases |w|
  {
    if x == v {
      s := w;
    } else {
      SimpleStep(g, v, w, []);
      var t := g[v][w[0]].target;
      assert Simple(g, t, w[1..], []);
      s := SuffixFrom(g, t, w[1..], x);
    }
  }

  lemma {:induction false} Shorten(g: Graph, v: nat, w: Walk) returns (s: Walk)
    requires WellFormed(g) && ValidWalk(g, v, w)
    ensures Simple(g, v, s, []) && End(g, v, s) == End(g, v, w)
    decreases |w|
  {
    if w == [] {
      s := [];
      assert Vertices(g, v, s) == [v];
    } else {
      var t := g[v][w[0]].target;
      var rest := Shorten(g, t, w[1..]);
      if v in Vertices(g, t, rest) {
        s := SuffixFrom(g, t, rest, v);
      } else {
        s := [w[0]] + rest;
        assert s[1..] == rest;
        assert Simple(g, t, rest, [] + [v]);
        SimpleStep(g, v, s, []);
      }
    }
  }
}
