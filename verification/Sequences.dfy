/** Facts about finite sequences that several components share. */
module Sequences {

  ghost predicate NoDup<T>(s: seq<T>) {
    forall i, j :: 0 <= i < j < |s| ==> s[i] != s[j]
  }

  ghost function Elems<T>(s: seq<T>): set<T> {
    set x | x in s
  }

  ghost function UpTo(n: nat): (r: set<nat>)
    ensures forall x: nat :: x in r <==> x < n
    ensures |r| == n
  {
    if n == 0 then {} else UpTo(n - 1) + {n - 1}
  }

  lemma {:induction false} NoDupCardinality<T>(s: seq<T>)
    requires NoDup(s)
    ensures |Elems(s)| == |s|
  {
    if s == [] {
      assert Elems(s) == {};
    } else {
      var init, last := s[..|s| - 1], s[|s| - 1];
      NoDupCardinality(init);
      assert last !in init;
      assert Elems(s) == Elems(init) + {last};
    }
  }

  lemma {:induction false} SubsetCardinality<T>(a: set<T>, b: set<T>)
    requires a <= b
    ensures |a| <= |b|
  {
    if a != {} {
      var x :| x in a;
      SubsetCardinality(a - {x}, b - {x});
    }
  }

  /** The pigeonhole principle: more entries than values means a repeated value. */
  lemma Pigeonhole<T>(s: seq<T>, universe: set<T>) returns (i: nat, j: nat)
    requires forall x :: x in s ==> x in universe
    requires |s| > |universe|
    ensures i < j < |s| && s[i] == s[j]
  {
    if NoDup(s) {
      NoDupCardinality(s);
      SubsetCardinality(Elems(s), universe);
    }
    i, j :| 0 <= i < j < |s| && s[i] == s[j];
  }

  /** The entries that lie in `keep`, in their original order. */
  ghost function Keep<T(!new)>(s: seq<T>, keep: set<T>): (r: seq<T>)
    ensures forall x :: x in r <==> x in s && x in keep
  {
    if s == [] then []
    else Keep(s[..|s| - 1], keep) + if s[|s| - 1] in keep then [s[|s| - 1]] else []
  }

  lemma {:induction false} KeepSnoc<T(!new)>(s: seq<T>, x: T, keep: set<T>)
    ensures Keep(s + [x], keep) == Keep(s, keep) + if x in keep then [x] else []
  {
    assert (s + [x])[..|s + [x]| - 1] == s;
  }

  /** Only the members of `s` matter. */
  lemma {:induction false} KeepAgree<T(!new)>(s: seq<T>, a: set<T>, b: set<T>)
    requires forall x :: x in s ==> (x in a <==> x in b)
    ensures Keep(s, a) == Keep(s, b)
  {
    if s != [] {
      assert s[|s| - 1] in s;
      KeepAgree(s[..|s| - 1], a, b);
    }
  }

  lemma {:induction false} KeepAll<T(!new)>(s: seq<T>, keep: set<T>)
    requires forall x :: x in s ==> x in keep
    ensures Keep(s, keep) == s
  {
    if s != [] {
      assert s[|s| - 1] in s;
      KeepAll(s[..|s| - 1], keep);
      assert s == s[..|s| - 1] + [s[|s| - 1]];
    }
  }

  lemma {:induction false} KeepTwice<T(!new)>(s: seq<T>, a: set<T>, b: set<T>)
    ensures Keep(Keep(s, a), b) == Keep(s, a * b)
  {
    if s != [] {
      var init, last := s[..|s| - 1], s[|s| - 1];
      KeepTwice(init, a, b);
      if last in a {
        KeepSnoc(Keep(init, a), last, b);
      } else {
        assert Keep(s, a) == Keep(init, a);
      }
    }
  }

  lemma {:induction false} KeepNoDup<T(!new)>(s: seq<T>, keep: set<T>)
    requires NoDup(s)
    ensures NoDup(Keep(s, keep))
  {
    if s != [] {
      KeepNoDup(s[..|s| - 1], keep);
      assert s[|s| - 1] !in s[..|s| - 1];
    }
  }

  ghost function Flatten<T(!new)>(ss: seq<seq<T>>): (r: seq<T>)
    ensures forall x :: x in r <==> exists i :: 0 <= i < |ss| && x in ss[i]
  {
    if ss == [] then []
    else
      assert forall i :: 0 <= i < |ss| - 1 ==> ss[..|ss| - 1][i] == ss[i];
      Flatten(ss[..|ss| - 1]) + ss[|ss| - 1]
  }

  // ----- selections and concatenations, said without recursion -----

  /** `idx` lists the members of `kept`, each once, in increasing order. */
  ghost predicate Lists(idx: seq<nat>, kept: set<nat>) {
    && (forall j, k :: 0 <= j < k < |idx| ==> idx[j] < idx[k])
    && (forall i :: i in idx <==> i in kept)
  }

  lemma ListsSnoc(idx: seq<nat>, kept: set<nat>, n: nat)
    requires Lists(idx, kept) && forall i :: i in kept ==> i < n
    ensures Lists(idx + [n], kept + {n})
  {
    forall k | 0 <= k < |idx|
      ensures idx[k] < n
    {
      assert idx[k] in kept;
    }
  }

  lemma ListsSize(idx: seq<nat>, kept: set<nat>)
    requires Lists(idx, kept)
    ensures |idx| == |kept|
  {
    NoDupCardinality(idx);
    assert Elems(idx) == kept;
  }

  /** Part `k` of a whole lies between cuts `k` and `k + 1`. */
  ghost predicate PartAt<T(!new)>(whole: seq<T>, part: seq<T>, from: nat, to: nat) {
    from <= to <= |whole| && whole[from..to] == part
  }

  /** `whole` is the parts one after the other, cut at `cuts`. */
  ghost predicate JoinedAt<T(!new)>(whole: seq<T>, parts: seq<seq<T>>, cuts: seq<nat>) {
    && |cuts| == |parts| + 1 && cuts[0] == 0 && cuts[|parts|] == |whole|
    && forall k, m :: 0 <= k < |parts| && m == k + 1 ==> PartAt(whole, parts[k], cuts[k], cuts[m])
  }

  ghost predicate Joined<T(!new)>(whole: seq<T>, parts: seq<seq<T>>) {
    exists cuts :: JoinedAt(whole, parts, cuts)
  }

  lemma JoinedMembers<T(!new)>(whole: seq<T>, parts: seq<seq<T>>)
    requires Joined(whole, parts)
    ensures forall x :: x in whole ==> exists k :: 0 <= k < |parts| && x in parts[k]
  {
    var cuts: seq<nat> :| JoinedAt(whole, parts, cuts);
    forall i | 0 <= i < |whole|
      ensures exists k :: 0 <= k < |parts| && whole[i] in parts[k]
    {
      var k := PartOf(whole, parts, cuts, i, |parts|);
    }
  }

  lemma {:induction false} PartOf<T(!new)>(whole: seq<T>, parts: seq<seq<T>>, cuts: seq<nat>, i: nat, n: nat)
    returns (k: nat)
    requires JoinedAt(whole, parts, cuts) && n <= |parts| && i < cuts[n] <= |whole|
    ensures k < |parts| && whole[i] in parts[k]
  {
    if n > 0 {
      assert PartAt(whole, parts[n - 1], cuts[n - 1], cuts[n]);
      if cuts[n - 1] <= i {
        k := n - 1;
        assert whole[cuts[k]..cuts[n]][i - cuts[k]] == whole[i];
      } else {
        k := PartOf(whole, parts, cuts, i, n - 1);
      }
    }
  }

  lemma JoinedNothing<T(!new)>()
    ensures Joined<T>([], [])
  {
    assert JoinedAt<T>([], [], [0]);
  }

  lemma JoinedSnoc<T(!new)>(whole: seq<T>, parts: seq<seq<T>>, part: seq<T>)
    requires Joined(whole, parts)
    ensures Joined(whole + part, parts + [part])
  {
    var cuts: seq<nat> :| JoinedAt(whole, parts, cuts);
    var more, longer, ends := whole + part, parts + [part], cuts + [|whole| + |part|];
    forall k, m | 0 <= k < |longer| && m == k + 1
      ensures PartAt(more, longer[k], ends[k], ends[m])
    {
      if k < |parts| {
        assert PartAt(whole, parts[k], cuts[k], cuts[m]);
        assert more[ends[k]..ends[m]] == whole[cuts[k]..cuts[m]];
      }
    }
    assert JoinedAt(more, longer, ends);
  }
}
