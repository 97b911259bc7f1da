/** The timeline data classes of utils/grid.py: binary searches that stand for a scan of all
ranges or events, and the bounds that the viewer scales its axis with. */
module Timeline {

  datatype DataRange = DataRange(start: int, end: int, value: string)
  datatype Event = Event(at: int, value: string)

  // ----- ranges -----

  /** Sorted, and none begins before the ones it follows are over; neighbours may touch. */
  ghost predicate Ordered(ranges: seq<DataRange>) {
    && (forall i :: 0 <= i < |ranges| ==> ranges[i].start <= ranges[i].end)
    && (forall i, j :: 0 <= i < j < |ranges| ==> ranges[i].end <= ranges[j].start)
  }

  /** Ordered, and no two touch. */
  ghost predicate Disjoint(ranges: seq<DataRange>) {
    && (forall i :: 0 <= i < |ranges| ==> ranges[i].start <= ranges[i].end)
    && (forall i, j :: 0 <= i < j < |ranges| ==> ranges[i].end < ranges[j].start)
  }

  predicate Contains(r: DataRange, key: int) {
    r.start <= key <= r.end
  }

  ghost predicate Meets(r: DataRange, start: int, end: int) {
    r.start <= end && start <= r.end
  }

  /** The scan the searches replace: every range that meets the window, in order. */
  ghost function Intersecting(ranges: seq<DataRange>, start: int, end: int): seq<DataRange> {
    if ranges == [] then [] else
      var last := ranges[|ranges| - 1];
      Intersecting(ranges[..|ranges| - 1], start, end) + if Meets(last, start, end) then [last] else []
  }

  /** The binary search between positions `l` and `u`. */
  ghost function Probe(ranges: seq<DataRange>, key: int, l: int, u: int): (i: int)
    requires 0 <= l && u < |ranges|
    ensures i == -1 || (0 <= i < |ranges| && Contains(ranges[i], key))
    decreases u - l
  {
    if l > u then -1 else
      var i := (l + u) / 2;
      if Contains(ranges[i], key) then i
      else if key < ranges[i].start then Probe(ranges, key, l, i - 1)
      else Probe(ranges, key, i + 1, u)
  }

  ghost function IndexOf(ranges: seq<DataRange>, key: int): int {
    Probe(ranges, key, 0, |ranges| - 1)
  }

  /** The index of a range holding `key`, or -1 if there is none. */
  ghost predicate IsIndexOf(ranges: seq<DataRange>, key: int, i: int) {
    if i == -1 then forall j :: 0 <= j < |ranges| ==> !Contains(ranges[j], key)
    else 0 <= i < |ranges| && Contains(ranges[i], key)
  }

  lemma {:induction false} ProbeFinds(ranges: seq<DataRange>, key: int, l: int, u: int)
    requires Ordered(ranges) && 0 <= l <= u + 1 <= |ranges|
    requires forall j :: 0 <= j < l ==> !Contains(ranges[j], key)
    requires forall j :: u < j < |ranges| ==> !Contains(ranges[j], key)
    ensures IsIndexOf(ranges, key, Probe(ranges, key, l, u))
    decreases u - l
  {
    if l <= u {
      var i := (l + u) / 2;
      if key < ranges[i].start {
        assert forall j :: i < j < |ranges| ==> ranges[i].start <= ranges[j].start;
        ProbeFinds(ranges, key, l, i - 1);
      } else if ranges[i].end < key {
        assert forall j :: 0 <= j < i ==> ranges[j].end <= ranges[i].end;
        ProbeFinds(ranges, key, i + 1, u);
      }
    }
  }

  /** `get_ranges_bounds`, from what the two searches return. */
  function RangeBounds(n: nat, s: int, e: int): (b: (int, int))
    ensures -1 <= s < n && -1 <= e < n && (s != -1 && e != -1 ==> s <= e) ==> 0 <= b.0 <= b.1 <= n
  {
    if s == -1 && e == -1 then (0, 0)
    else if s == -1 then (0, e + 1)
    else if e == -1 then (s, n)
    else (s, e + 1)
  }

  /** What the two searches for the ends of a window return. */
  ghost predicate Searched(ranges: seq<DataRange>, start: int, end: int, s: int, e: int) {
    IsIndexOf(ranges, start, s) && IsIndexOf(ranges, end, e) && (start == end ==> s == e)
  }

  lemma RangeFound(ranges: seq<DataRange>, key: int)
    requires Ordered(ranges)
    ensures IsIndexOf(ranges, key, IndexOf(ranges, key))
  {
    hide Ordered, IsIndexOf;
    ProbeFinds(ranges, key, 0, |ranges| - 1);
  }

  lemma WindowSearched(ranges: seq<DataRange>, start: int, end: int)
    requires Ordered(ranges)
    ensures Searched(ranges, start, end, IndexOf(ranges, start), IndexOf(ranges, end))
  {
    RangeFound(ranges, start);
    RangeFound(ranges, end);
  }

  lemma IndexOrder(ranges: seq<DataRange>, start: int, end: int, s: int, e: int)
    requires Ordered(ranges) && start <= end && Searched(ranges, start, end, s, e)
    ensures -1 <= s < |ranges| && -1 <= e < |ranges| && (s != -1 && e != -1 ==> s <= e)
  {
  }

  lemma {:induction false} IntersectingConcat(a: seq<DataRange>, b: seq<DataRange>, start: int, end: int)
    ensures Intersecting(a + b, start, end) == Intersecting(a, start, end) + Intersecting(b, start, end)
  {
    if b == [] {
      assert a + b == a;
    } else {
      assert (a + b)[..|a + b| - 1] == a + b[..|b| - 1];
      IntersectingConcat(a, b[..|b| - 1], start, end);
    }
  }

  lemma {:induction false} IntersectingAll(ranges: seq<DataRange>, start: int, end: int)
    ensures |Intersecting(ranges, start, end)| <= |ranges|
    ensures Intersecting(ranges, start, end) == ranges <==> forall i :: 0 <= i < |ranges| ==> Meets(ranges[i], start, end)
  {
    if ranges != [] {
      var init := ranges[..|ranges| - 1];
      IntersectingAll(init, start, end);
      assert ranges == init + [ranges[|ranges| - 1]];
      assert forall i :: 0 <= i < |init| ==> init[i] == ranges[i];
      if Intersecting(ranges, start, end) == ranges {
        assert |Intersecting(ranges, start, end)| == |init| + 1;
        assert Intersecting(ranges, start, end)[..|init|] == init;
      }
    }
  }

  lemma {:induction false} IntersectingNone(ranges: seq<DataRange>, start: int, end: int)
    requires forall i :: 0 <= i < |ranges| ==> !Meets(ranges[i], start, end)
    ensures Intersecting(ranges, start, end) == []
  {
    if ranges != [] {
      IntersectingNone(ranges[..|ranges| - 1], start, end);
    }
  }

  /** The neighbours of the ranges found do not touch the window. */
  ghost predicate NoTouch(ranges: seq<DataRange>, start: int, end: int, s: int, e: int)
    requires -1 <= s < |ranges| && -1 <= e < |ranges|
  {
    && (s > 0 ==> ranges[s - 1].end < start)
    && (0 <= e < |ranges| - 1 ==> end < ranges[e + 1].start)
  }

  /** If no two ranges touch, none touches a window that ends inside another. */
  lemma DisjointNoTouch(ranges: seq<DataRange>, start: int, end: int, s: int, e: int)
    requires Disjoint(ranges) && IsIndexOf(ranges, start, s) && IsIndexOf(ranges, end, e)
    ensures Ordered(ranges) && NoTouch(ranges, start, end, s, e)
  {
  }

  /** A range before or after the slice meets the window only where the two touch, and some range
      does exactly when a neighbour does. */
  lemma OutsideTouches(ranges: seq<DataRange>, start: int, end: int, s: int, e: int, lo: int, hi: int)
    requires Ordered(ranges) && start <= end && Searched(ranges, start, end, s, e) && (s != -1 || e != -1)
    requires (lo, hi) == RangeBounds(|ranges|, s, e)
    ensures 0 <= lo <= hi <= |ranges|
    ensures forall i :: 0 <= i < lo ==> (Meets(ranges[i], start, end) <==> ranges[i].end == start)
    ensures forall i :: hi <= i < |ranges| ==> (Meets(ranges[i], start, end) <==> ranges[i].start == end)
    ensures NoTouch(ranges, start, end, s, e)
            <==> forall i :: 0 <= i < lo || hi <= i < |ranges| ==> !Meets(ranges[i], start, end)
  {
    IndexOrder(ranges, start, end, s, e);
    forall i | 0 <= i < lo
      ensures ranges[i].end <= start && ranges[i].end <= ranges[s - 1].end
    {
      assert ranges[i].end <= ranges[s].start;
      if i < s - 1 { assert ranges[i].end <= ranges[s - 1].start; }
    }
    forall i | hi <= i < |ranges|
      ensures end <= ranges[i].start && ranges[e + 1].start <= ranges[i].start
    {
      assert ranges[e].end <= ranges[i].start;
      if i > e + 1 { assert ranges[e + 1].end <= ranges[i].start; }
    }
  }

  lemma ThreeParts(ranges: seq<DataRange>, lo: int, hi: int, start: int, end: int)
    requires 0 <= lo <= hi <= |ranges|
    ensures Intersecting(ranges, start, end)
            == Intersecting(ranges[..lo], start, end) + Intersecting(ranges[lo..hi], start, end)
               + Intersecting(ranges[hi..], start, end)
  {
    hide *;
    assert ranges == ranges[..lo] + ranges[lo..hi] + ranges[hi..];
    IntersectingConcat(ranges[..lo] + ranges[lo..hi], ranges[hi..], start, end);
    IntersectingConcat(ranges[..lo], ranges[lo..hi], start, end);
  }

  /** Nothing outside a slice meets the window exactly when the slice holds all that a scan
      finds. */
  lemma SliceComplete(ranges: seq<DataRange>, lo: int, hi: int, start: int, end: int)
    requires 0 <= lo <= hi <= |ranges|
    ensures Intersecting(ranges[lo..hi], start, end) == Intersecting(ranges, start, end)
            <==> forall i :: 0 <= i < lo || hi <= i < |ranges| ==> !Meets(ranges[i], start, end)
  {
    ThreeParts(ranges, lo, hi, start, end);
    NothingFound(ranges[..lo], start, end);
    NothingFound(ranges[hi..], start, end);
    hide Intersecting, Meets;
    assert forall i :: 0 <= i < lo ==> ranges[..lo][i] == ranges[i];
    assert forall i :: hi <= i < |ranges| ==> ranges[hi..][i - hi] == ranges[i];
  }

  lemma NothingFound(ranges: seq<DataRange>, start: int, end: int)
    ensures Intersecting(ranges, start, end) == []
            <==> forall i :: 0 <= i < |ranges| ==> !Meets(ranges[i], start, end)
  {
    if forall i :: 0 <= i < |ranges| ==> !Meets(ranges[i], start, end) {
      IntersectingNone(ranges, start, end);
    } else {
      var i :| 0 <= i < |ranges| && Meets(ranges[i], start, end);
      Found(ranges, start, end, i);
    }
  }

  lemma Found(ranges: seq<DataRange>, start: int, end: int, i: nat)
    requires i < |ranges| && Meets(ranges[i], start, end)
    ensures Intersecting(ranges, start, end) != []
  {
    assert ranges == ranges[..i] + ([ranges[i]] + ranges[i + 1..]);
    IntersectingConcat(ranges[..i], [ranges[i]] + ranges[i + 1..], start, end);
    IntersectingConcat([ranges[i]], ranges[i + 1..], start, end);
    assert [ranges[i]][..0] == [];
    assert Intersecting([ranges[i]], start, end) == [ranges[i]];
  }

  /** The slice holds every range meeting the window if an end of the window lies in a range and
      the neighbours of the slice do not touch it. */
  lemma SliceCovers(ranges: seq<DataRange>, start: int, end: int, s: int, e: int)
    requires Ordered(ranges) && start <= end && Searched(ranges, start, end, s, e) && (s != -1 || e != -1)
    ensures var (lo, hi) := RangeBounds(|ranges|, s, e);
            && -1 <= s < |ranges| && -1 <= e < |ranges| && 0 <= lo <= hi <= |ranges|
            && (Intersecting(ranges[lo..hi], start, end) == Intersecting(ranges, start, end)
                <==> NoTouch(ranges, start, end, s, e))
  {
    IndexOrder(ranges, start, end, s, e);
    var (lo, hi) := RangeBounds(|ranges|, s, e);
    OutsideTouches(ranges, start, end, s, e, lo, hi);
    hide *;
    SliceComplete(ranges, lo, hi, start, end);
  }

  /** No range of the slice lies outside the window: always if both ends lie in ranges; if only
      one does, when no range lies wholly beyond the other end. */
  ghost predicate AllInside(ranges: seq<DataRange>, start: int, end: int, s: int, e: int) {
    && (s == -1 && e != -1 ==> forall i :: 0 <= i < |ranges| ==> start <= ranges[i].end)
    && (s != -1 && e == -1 ==> forall i :: 0 <= i < |ranges| ==> ranges[i].start <= end)
  }

  /** When the returned slice is exactly what a scan would find: nothing in it outside the window
      and no neighbour touching it; and, if both ends miss every range, no range in between. */
  ghost predicate SliceExact(ranges: seq<DataRange>, start: int, end: int, s: int, e: int)
    requires -1 <= s < |ranges| && -1 <= e < |ranges|
  {
    && AllInside(ranges, start, end, s, e)
    && NoTouch(ranges, start, end, s, e)
    && (s == -1 && e == -1 ==> forall i :: 0 <= i < |ranges| ==> ranges[i].end < start || end < ranges[i].start)
  }

  lemma SliceExactIff(ranges: seq<DataRange>, start: int, end: int, s: int, e: int)
    requires Ordered(ranges) && start <= end && Searched(ranges, start, end, s, e)
    ensures var (lo, hi) := RangeBounds(|ranges|, s, e);
            && -1 <= s < |ranges| && -1 <= e < |ranges| && 0 <= lo <= hi <= |ranges|
            && (ranges[lo..hi] == Intersecting(ranges, start, end) <==> SliceExact(ranges, start, end, s, e))
  {
    IndexOrder(ranges, start, end, s, e);
    var (lo, hi) := RangeBounds(|ranges|, s, e);
    if s == -1 && e == -1 {
      NothingFound(ranges, start, end);
    } else {
      SliceCovers(ranges, start, end, s, e);
      MeetsInside(ranges, start, end, s, e);
      hide AllInside, NoTouch, Ordered, Searched, RangeBounds;
      SliceIsScan(ranges, ranges[lo..hi], start, end);
    }
  }

  /** A part of the ranges is the scan's answer if and only if it has nothing else and misses
      nothing. */
  lemma SliceIsScan(ranges: seq<DataRange>, slice: seq<DataRange>, start: int, end: int)
    ensures slice == Intersecting(ranges, start, end)
            <==> (forall i :: 0 <= i < |slice| ==> Meets(slice[i], start, end))
                 && Intersecting(slice, start, end) == Intersecting(ranges, start, end)
  {
    IntersectingAll(slice, start, end);
    ScanMeets(ranges, start, end);
  }

  lemma {:induction false} ScanMeets(ranges: seq<DataRange>, start: int, end: int)
    ensures forall i :: 0 <= i < |Intersecting(ranges, start, end)| ==> Meets(Intersecting(ranges, start, end)[i], start, end)
  {
    if ranges != [] { ScanMeets(ranges[..|ranges| - 1], start, end); }
  }

  lemma MeetsInside(ranges: seq<DataRange>, start: int, end: int, s: int, e: int)
    requires Ordered(ranges) && start <= end && Searched(ranges, start, end, s, e) && (s != -1 || e != -1)
    ensures var (lo, hi) := RangeBounds(|ranges|, s, e);
            && 0 <= lo <= hi <= |ranges|
            && ((forall i :: 0 <= i < hi - lo ==> Meets(ranges[lo..hi][i], start, end)) <==> AllInside(ranges, start, end, s, e))
  {
    IndexOrder(ranges, start, end, s, e);
    var (lo, hi) := RangeBounds(|ranges|, s, e);
    forall i | lo <= i < hi
      ensures ranges[lo..hi][i - lo] == ranges[i]
      ensures Meets(ranges[i], start, end) <==>
              (s == -1 ==> start <= ranges[i].end) && (e == -1 ==> ranges[i].start <= end)
    {
      if s != -1 && s < i { assert ranges[s].end <= ranges[i].start; }
      if e != -1 && i < e { assert ranges[i].end <= ranges[e].start; }
    }
    BeyondSlice(ranges, start, end, s, e);
    hide Ordered, Searched;
    if forall i :: 0 <= i < hi - lo ==> Meets(ranges[lo..hi][i], start, end) {
      forall i | lo <= i < hi
        ensures Meets(ranges[i], start, end)
      {
        assert ranges[lo..hi][i - lo] == ranges[i];
      }
    }
  }

  lemma BeyondSlice(ranges: seq<DataRange>, start: int, end: int, s: int, e: int)
    requires Ordered(ranges) && start <= end && IsIndexOf(ranges, start, s) && IsIndexOf(ranges, end, e)
    ensures s == -1 && e != -1 ==> forall i :: e < i < |ranges| ==> start <= ranges[i].end
    ensures s != -1 && e == -1 ==> forall i :: 0 <= i < s ==> ranges[i].start <= end
  {
    if s == -1 && e != -1 {
      forall i | e < i < |ranges|
        ensures start <= ranges[i].end
      {
        assert ranges[e].end <= ranges[i].start;
      }
    }
    if s != -1 && e == -1 {
      forall i | 0 <= i < s
        ensures ranges[i].start <= end
      {
        assert ranges[i].end <= ranges[s].start;
      }
    }
  }

  /** What the slice `found` is to the scan of all ranges. */
  ghost predicate WindowAnswer(ranges: seq<DataRange>, start: int, end: int, s: int, e: int, found: seq<DataRange>)
    requires -1 <= s < |ranges| && -1 <= e < |ranges|
  {
    && (s != -1 || e != -1 ==>
          forall r :: r in ranges && Meets(r, start, end) && r !in found ==> r.end == start || r.start == end)
    && (s != -1 || e != -1 ==>
          (Intersecting(found, start, end) == Intersecting(ranges, start, end) <==> NoTouch(ranges, start, end, s, e)))
    && (found == Intersecting(ranges, start, end) <==> SliceExact(ranges, start, end, s, e))
  }

  lemma Answer(ranges: seq<DataRange>, start: int, end: int, found: seq<DataRange>)
    requires Ordered(ranges) && start <= end
    requires var (lo, hi) := RangeBounds(|ranges|, IndexOf(ranges, start), IndexOf(ranges, end));
             found == Slice(ranges, lo, hi)
    ensures WindowAnswer(ranges, start, end, IndexOf(ranges, start), IndexOf(ranges, end), found)
  {
    var s, e := IndexOf(ranges, start), IndexOf(ranges, end);
    WindowSearched(ranges, start, end);
    SliceExactIff(ranges, start, end, s, e);
    if s != -1 || e != -1 {
      SliceCovers(ranges, start, end, s, e);
      MissedTouches(ranges, start, end, s, e);
    }
    hide Ordered, Searched, IndexOf, Intersecting, SliceExact, NoTouch, Meets;
  }

  lemma MissedTouches(ranges: seq<DataRange>, start: int, end: int, s: int, e: int)
    requires Ordered(ranges) && start <= end && Searched(ranges, start, end, s, e) && (s != -1 || e != -1)
    ensures var (lo, hi) := RangeBounds(|ranges|, s, e);
            && 0 <= lo <= hi <= |ranges|
            && forall r :: r in ranges && Meets(r, start, end) && r !in ranges[lo..hi] ==> r.end == start || r.start == end
  {
    var (lo, hi) := RangeBounds(|ranges|, s, e);
    OutsideTouches(ranges, start, end, s, e, lo, hi);
    hide *;
    forall r | r in ranges && Meets(r, start, end) && r !in ranges[lo..hi]
      ensures r.end == start || r.start == end
    {
      var i :| 0 <= i < |ranges| && ranges[i] == r;
    }
  }

  /** Windows the searches answer wrongly: with both ends in gaps they miss the range between,
      and with one end in a gap they return a range that is over before the window. */
  lemma GapWindows()
    ensures var ranges := [DataRange(0, 1, "a"), DataRange(5, 6, "b"), DataRange(10, 11, "c")];
            && Disjoint(ranges)
            && IsIndexOf(ranges, 3, -1) && IsIndexOf(ranges, 8, -1) && IsIndexOf(ranges, 5, 1)
            && Intersecting(ranges, 3, 8) == Intersecting(ranges, 3, 5) == [ranges[1]]
            && RangeBounds(3, -1, -1) == (0, 0) && !SliceExact(ranges, 3, 8, -1, -1)
            && RangeBounds(3, -1, 1) == (0, 2) && !SliceExact(ranges, 3, 5, -1, 1)
  {
    var a, b, c := DataRange(0, 1, "a"), DataRange(5, 6, "b"), DataRange(10, 11, "c");
    MiddleOnly(a, b, c, 3, 8);
    MiddleOnly(a, b, c, 3, 5);
    assert Meets([a, b, c][1], 3, 8) && !Meets([a, b, c][0], 3, 5);
  }

  lemma MiddleOnly(a: DataRange, b: DataRange, c: DataRange, start: int, end: int)
    requires !Meets(a, start, end) && Meets(b, start, end) && !Meets(c, start, end)
    ensures Intersecting([a, b, c], start, end) == [b]
  {
    assert [a][..0] == [] && Intersecting([a], start, end) == [];
    assert [a, b][..1] == [a] && Intersecting([a, b], start, end) == [b];
    assert [a, b, c][..2] == [a, b];
  }

  /** Where two ranges touch, the search for the shared end stops at the first, and a window that
      ends there misses the second although it meets it. */
  lemma SharedEnd()
    ensures var ranges := [DataRange(0, 5, "a"), DataRange(5, 9, "b")];
            && Ordered(ranges) && IndexOf(ranges, 3) == 0 && IndexOf(ranges, 5) == 0
            && RangeBounds(2, 0, 0) == (0, 1)
            && Intersecting(ranges, 3, 5) == ranges && !NoTouch(ranges, 3, 5, 0, 0)
  {
    var ranges := [DataRange(0, 5, "a"), DataRange(5, 9, "b")];
    assert Contains(ranges[0], 3) && Contains(ranges[0], 5);
    assert forall i :: 0 <= i < |ranges| ==> Meets(ranges[i], 3, 5);
    IntersectingAll(ranges, 3, 5);
  }

  // ----- events -----

  /** Sorted; several events may have the same time. */
  ghost predicate InOrder(events: seq<Event>) {
    forall i, j :: 0 <= i < j < |events| ==> events[i].at <= events[j].at
  }

  ghost predicate Increasing(events: seq<Event>) {
    forall i, j :: 0 <= i < j < |events| ==> events[i].at < events[j].at
  }

  /** Where an event at `key` is, or, if there is none, would be inserted. */
  ghost predicate IsPositionOf(events: seq<Event>, key: int, l: int) {
    && 0 <= l <= |events|
    && (forall j :: 0 <= j < l ==> events[j].at <= key)
    && (forall j :: l <= j < |events| ==> key <= events[j].at)
    && (OccursIn(events, key) ==> l < |events| && events[l].at == key)
  }

  ghost predicate OccursIn(events: seq<Event>, at: int) {
    exists x :: x in events && x.at == at
  }

  /** The binary search for an event, between positions `l` and `u`. */
  ghost function ProbeEvent(events: seq<Event>, key: int, l: int, u: int): (i: int)
    requires 0 <= l <= u + 1 <= |events|
    ensures l <= i <= u + 1
    decreases u - l
  {
    if l > u then l else
      var i := (l + u) / 2;
      if key == events[i].at then i
      else if key < events[i].at then ProbeEvent(events, key, l, i - 1)
      else ProbeEvent(events, key, i + 1, u)
  }

  ghost function PositionOf(events: seq<Event>, key: int): int {
    ProbeEvent(events, key, 0, |events| - 1)
  }

  /** Every event before `l` is too early for `key`, and every one from `u` on too late. */
  ghost predicate Narrowed(events: seq<Event>, key: int, l: int, u: int) {
    && 0 <= l <= u <= |events|
    && (forall j :: 0 <= j < l ==> events[j].at < key)
    && (forall j :: u <= j < |events| ==> key < events[j].at)
  }

  lemma Narrow(events: seq<Event>, key: int, l: int, u: int, i: int)
    requires InOrder(events) && Narrowed(events, key, l, u) && l <= i < u
    ensures key < events[i].at ==> Narrowed(events, key, l, i)
    ensures events[i].at < key ==> Narrowed(events, key, i + 1, u)
    ensures events[i].at == key ==> IsPositionOf(events, key, i)
  {
  }

  lemma NoEventAt(events: seq<Event>, key: int, l: int)
    requires Narrowed(events, key, l, l)
    ensures IsPositionOf(events, key, l)
  {
  }

  lemma {:induction false} ProbeEventFinds(events: seq<Event>, key: int, l: int, u: int)
    requires InOrder(events) && 0 <= l <= u + 1 <= |events| && Narrowed(events, key, l, u + 1)
    ensures IsPositionOf(events, key, ProbeEvent(events, key, l, u))
    decreases u - l
  {
    hide InOrder, Narrowed, IsPositionOf;
    if l > u {
      NoEventAt(events, key, l);
    } else {
      var i := (l + u) / 2;
      Narrow(events, key, l, u + 1, i);
      if key < events[i].at {
        ProbeEventFinds(events, key, l, i - 1);
      } else if events[i].at < key {
        ProbeEventFinds(events, key, i + 1, u);
      }
    }
  }

  lemma EventFound(events: seq<Event>, key: int)
    requires InOrder(events)
    ensures IsPositionOf(events, key, PositionOf(events, key))
  {
    hide InOrder, IsPositionOf;
    ProbeEventFinds(events, key, 0, |events| - 1);
  }

  /** Python's `xs[lo:hi]` for bounds that are not negative. */
  function Slice<T>(xs: seq<T>, lo: int, hi: int): seq<T> {
    var from, to := Clamp(lo, |xs|), Clamp(hi, |xs|);
    if from < to then xs[from..to] else []
  }

  function Clamp(k: int, n: nat): nat {
    if k < 0 then 0 else if k > n then n else k
  }

  /** Nothing before the window is in the slice, and at most one event after it, which comes
      last; that one is there exactly when the window ends between two events.  Every event
      strictly inside the window is in the slice. */
  lemma EventSlice(events: seq<Event>, start: int, end: int, s: int, e: int)
    requires InOrder(events) && start <= end
    requires IsPositionOf(events, start, s) && IsPositionOf(events, end, e)
    ensures forall i :: 0 <= i < |events| && start < events[i].at < end ==> s <= i < e
    ensures forall i :: s <= i < Clamp(e + 1, |events|) ==> start <= events[i].at && (i < e ==> events[i].at <= end)
    ensures (forall i :: s <= i < Clamp(e + 1, |events|) ==> events[i].at <= end)
            <==> e == |events| || events[e].at == end
  {
    if s > e { assert events[e].at == end; }
    if e < |events| && events[e].at == end {
      assert forall i :: 0 <= i < e ==> events[i].at <= end;
    }
  }

  /** If no two events have the same time, those at the two ends of the window are in it too. */
  lemma EventSliceDistinct(events: seq<Event>, start: int, end: int, s: int, e: int)
    requires Increasing(events) && start <= end
    requires IsPositionOf(events, start, s) && IsPositionOf(events, end, e)
    ensures forall i :: 0 <= i < |events| && start <= events[i].at <= end ==> s <= i < e + 1
  {
    forall i | 0 <= i < |events| && start <= events[i].at <= end
      ensures s <= i < e + 1
    {
      assert events[i] in events;
      assert start == events[i].at ==> OccursIn(events, start);
      assert end == events[i].at ==> OccursIn(events, end);
    }
  }

  lemma SliceHolds<T>(xs: seq<T>, lo: int, hi: int, i: nat)
    requires 0 <= lo <= i < hi && i < |xs|
    ensures xs[i] in Slice(xs, lo, hi)
  {
    assert Slice(xs, lo, hi)[i - lo] == xs[i];
  }

  lemma EventsKept(events: seq<Event>, start: int, end: int, s: int, e: int)
    requires InOrder(events) && start <= end
    requires IsPositionOf(events, start, s) && IsPositionOf(events, end, e)
    ensures forall x :: x in events && start < x.at < end ==> x in Slice(events, s, e + 1)
    ensures Increasing(events) ==> forall x :: x in events && start <= x.at <= end ==> x in Slice(events, s, e + 1)
  {
    hide *;
    forall x | x in events && (start < x.at < end || (Increasing(events) && start <= x.at <= end))
      ensures x in Slice(events, s, e + 1)
    {
      EventKept(events, start, end, s, e, x);
    }
  }

  lemma EventKept(events: seq<Event>, start: int, end: int, s: int, e: int, x: Event)
    requires InOrder(events) && start <= end
    requires IsPositionOf(events, start, s) && IsPositionOf(events, end, e)
    requires x in events && (start < x.at < end || (Increasing(events) && start <= x.at <= end))
    ensures x in Slice(events, s, e + 1)
  {
    EventSlice(events, start, end, s, e);
    if Increasing(events) { EventSliceDistinct(events, start, end, s, e); }
    assert 0 <= s;
    hide *;
    var i: nat :| i < |events| && events[i] == x;
    SliceHolds(events, s, e + 1, i);
  }

  lemma EventsExtra(events: seq<Event>, start: int, end: int, s: int, e: int)
    requires InOrder(events) && start <= end
    requires IsPositionOf(events, start, s) && IsPositionOf(events, end, e)
    ensures var found := Slice(events, s, e + 1);
            forall i :: 0 <= i < |found| ==> start <= found[i].at && (i < |found| - 1 ==> found[i].at <= end)
  {
    EventSlice(events, start, end, s, e);
    assert 0 <= s <= |events| && 0 <= e <= |events|;
    hide InOrder, IsPositionOf;
    var found, n := Slice(events, s, e + 1), Clamp(e + 1, |events|);
    assert forall i :: 0 <= i < |found| ==> s + i < n && found[i] == events[s + i] && |found| == n - s;
  }

  // ----- bounds -----

  ghost predicate RangesWithin(ranges: seq<DataRange>, lo: int, hi: int) {
    forall r :: r in ranges ==> lo <= r.start && r.end <= hi
  }

  ghost predicate EventsWithin(events: seq<Event>, lo: int, hi: int) {
    forall x :: x in events ==> lo <= x.at <= hi
  }

  ghost predicate RangeStartsAt(ranges: seq<DataRange>, at: int) {
    exists r :: r in ranges && r.start == at
  }

  ghost predicate RangeEndsAt(ranges: seq<DataRange>, at: int) {
    exists r :: r in ranges && r.end == at
  }

  // ----- the classes -----

  class TimelineDataRange {
    var ranges: seq<DataRange>

    constructor ()
      ensures ranges == []
    {
      ranges := [];
    }

    method AddRange(range: DataRange)
      modifies this
      ensures ranges == old(ranges) + [range]
    {
      ranges := ranges + [range];
    }

    /** On ranges that are ordered, a range holding the key, and -1 only if there is none. */
    method Search(key: int) returns (i: int)
      ensures i == IndexOf(ranges, key)
      ensures i == -1 || (0 <= i < |ranges| && Contains(ranges[i], key))
      ensures Ordered(ranges) ==> IsIndexOf(ranges, key, i)
    {
      hide Ordered, IsIndexOf;
      if Ordered(ranges) { RangeFound(ranges, key); }
      var l, u := 0, |ranges| - 1;
      while l <= u
        invariant 0 <= l <= u + 1 <= |ranges|
        invariant Probe(ranges, key, l, u) == IndexOf(ranges, key)
      {
        i := (l + u) / 2;
        if Contains(ranges[i], key) {
          return;
        } else if key < ranges[i].start {
          u := i - 1;
        } else {
          l := i + 1;
        }
      }
      i := -1;
    }

    method GetRangesBounds(start: int, end: int) returns (lo: int, hi: int)
      ensures (lo, hi) == RangeBounds(|ranges|, IndexOf(ranges, start), IndexOf(ranges, end))
      ensures Ordered(ranges) && start <= end ==> 0 <= lo <= hi <= |ranges|
    {
      var s := Search(start);
      var e := Search(end);
      if Ordered(ranges) && start <= end {
        WindowSearched(ranges, start, end);
        IndexOrder(ranges, start, end, s, e);
      }
      if s == -1 && e == -1 {
        return 0, 0;
      } else if s == -1 {
        return 0, e + 1;
      } else if e == -1 {
        return s, |ranges|;
      } else {
        return s, e + 1;
      }
    }

    /** The slice that `GetRangesBounds` names.  On ordered ranges: if an end of the window lies
        in a range, every range it meets is there, unless it only touches the window; and
        exactly when the slice is all that a scan finds. */
    method GetRanges(start: int, end: int) returns (found: seq<DataRange>)
      ensures var s, e := IndexOf(ranges, start), IndexOf(ranges, end);
              var (lo, hi) := RangeBounds(|ranges|, s, e);
              && found == Slice(ranges, lo, hi)
              && (Ordered(ranges) && start <= end ==> WindowAnswer(ranges, start, end, s, e, found))
    {
      var s := Search(start);
      var e := Search(end);
      if s == -1 && e == -1 {
        found := [];
      } else if s == -1 {
        found := Slice(ranges, 0, e + 1);
      } else if e == -1 {
        found := Slice(ranges, s, |ranges|);
      } else {
        found := Slice(ranges, s, e + 1);
      }
      if Ordered(ranges) && start <= end {
        hide Ordered, IndexOf, WindowAnswer;
        Answer(ranges, start, end, found);
      }
    }

    method GetBounds() returns (lo: int, hi: int)
      requires Ordered(ranges)
      ensures RangesWithin(ranges, lo, hi)
      ensures if ranges == [] then lo == hi == 0 else RangeStartsAt(ranges, lo) && RangeEndsAt(ranges, hi)
    {
      if |ranges| > 0 {
        lo, hi := ranges[0].start, ranges[|ranges| - 1].end;
        assert ranges[0] in ranges && ranges[|ranges| - 1] in ranges;
      } else {
        lo, hi := 0, 0;
      }
    }
  }

  class TimelineEvent {
    var events: seq<Event>

    constructor ()
      ensures events == []
    {
      events := [];
    }

    method AddEvent(event: Event)
      modifies this
      ensures events == old(events) + [event]
    {
      events := events + [event];
    }

    method Search(key: int) returns (l: int)
      ensures l == PositionOf(events, key)
      ensures InOrder(events) ==> IsPositionOf(events, key, l)
    {
      hide InOrder, IsPositionOf;
      if InOrder(events) { EventFound(events, key); }
      l := 0;
      var u := |events| - 1;
      while l <= u
        invariant 0 <= l <= u + 1 <= |events|
        invariant ProbeEvent(events, key, l, u) == PositionOf(events, key)
      {
        var i := (l + u) / 2;
        if key == events[i].at {
          return i;
        } else if key < events[i].at {
          u := i - 1;
        } else {
          l := i + 1;
        }
      }
    }

    method GetEventsBounds(start: int, end: int) returns (lo: int, hi: int)
      ensures lo == PositionOf(events, start) && hi == PositionOf(events, end) + 1
      ensures InOrder(events) ==> IsPositionOf(events, start, lo) && IsPositionOf(events, end, hi - 1)
    {
      lo := Search(start);
      var e := Search(end);
      hi := e + 1;
    }

    /** A contiguous slice: every event inside the window, those at its ends too if no two events
        have the same time, and at most one after it. */
    method GetEvents(start: int, end: int) returns (found: seq<Event>)
      ensures found == Slice(events, PositionOf(events, start), PositionOf(events, end) + 1)
      ensures InOrder(events) && start <= end ==>
                && (forall x :: x in events && start < x.at < end ==> x in found)
                && (Increasing(events) ==> forall x :: x in events && start <= x.at <= end ==> x in found)
                && forall i :: 0 <= i < |found| ==> start <= found[i].at && (i < |found| - 1 ==> found[i].at <= end)
    {
      var s := Search(start);
      var e := Search(end);
      found := Slice(events, s, e + 1);
      if InOrder(events) && start <= end {
        EventsKept(events, start, end, s, e);
        EventsExtra(events, start, end, s, e);
      }
    }

    method GetBounds() returns (lo: int, hi: int)
      requires InOrder(events)
      ensures EventsWithin(events, lo, hi)
      ensures if events == [] then lo == hi == 0 else OccursIn(events, lo) && OccursIn(events, hi)
    {
      if |events| > 0 {
        lo, hi := events[0].at, events[|events| - 1].at;
        assert events[0] in events && events[|events| - 1] in events;
      } else {
        lo, hi := 0, 0;
      }
    }
  }

  class Timeline {
    var ranges: seq<TimelineDataRange>
    var eventStr: seq<TimelineEvent>
    var eventInt: seq<TimelineEvent>

    constructor ()
      ensures ranges == [] && eventStr == [] && eventInt == []
    {
      ranges, eventStr, eventInt := [], [], [];
    }

    ghost predicate Sorted()
      reads this, ranges, eventStr, eventInt
    {
      && (forall r :: r in ranges ==> Ordered(r.ranges))
      && (forall e :: e in eventStr ==> InOrder(e.events))
      && (forall e :: e in eventInt ==> InOrder(e.events))
    }

    /** Everything stored lies between `lo` and `hi`. */
    ghost predicate Within(lo: int, hi: int)
      reads this, ranges, eventStr, eventInt
    {
      AllRangesWithin(ranges, lo, hi) && AllEventsWithin(eventStr, lo, hi) && AllEventsWithin(eventInt, lo, hi)
    }

    /** Something stored starts at `at`; or is an event then. */
    ghost predicate StartsAt(at: int)
      reads this, ranges, eventStr, eventInt
    {
      SomeRangeStarts(ranges, at) || SomeEventAt(eventStr, at) || SomeEventAt(eventInt, at)
    }

    /** Something stored ends at `at`; or is an event then. */
    ghost predicate EndsAt(at: int)
      reads this, ranges, eventStr, eventInt
    {
      SomeRangeEnds(ranges, at) || SomeEventAt(eventStr, at) || SomeEventAt(eventInt, at)
    }

    /** The tightest bounds that enclose everything stored, and zero: the folds start there. */
    method GetBounds() returns (lo: int, hi: int)
      requires Sorted()
      ensures Within(lo, hi) && lo <= 0 <= hi
      ensures (lo == 0 || StartsAt(lo)) && (hi == 0 || EndsAt(hi))
      ensures StartsAt(lo) <==> exists at :: at <= 0 && StartsAt(at)
      ensures EndsAt(hi) <==> exists at :: at >= 0 && EndsAt(at)
    {
      hide AllRangesWithin, AllEventsWithin, SomeRangeStarts, SomeRangeEnds, SomeEventAt;
      lo, hi := FoldRanges(ranges);
      ghost var lo0, hi0 := lo, hi;
      lo, hi := Widen(eventStr, lo, hi);
      ghost var lo1, hi1 := lo, hi;
      lo, hi := Widen(eventInt, lo, hi);
      RangesWider(ranges, lo0, hi0, lo, hi);
      EventsWider(eventStr, lo1, hi1, lo, hi);
      hide StartsAt, EndsAt, Within;
      TightIff(lo, hi);
    }

    /** The bounds are attained exactly when something stored starts at or before zero, and
        something ends at or after it. */
    lemma TightIff(lo: int, hi: int)
      requires Within(lo, hi) && lo <= 0 <= hi && (lo == 0 || StartsAt(lo)) && (hi == 0 || EndsAt(hi))
      ensures StartsAt(lo) <==> exists at :: at <= 0 && StartsAt(at)
      ensures EndsAt(hi) <==> exists at :: at >= 0 && EndsAt(at)
    {
      hide StartsAt, EndsAt, Within;
      Enclosed(lo, hi);
    }

    lemma Enclosed(lo: int, hi: int)
      requires Within(lo, hi)
      ensures forall at :: StartsAt(at) ==> lo <= at
      ensures forall at :: EndsAt(at) ==> at <= hi
    {
    }

    lemma WithinWider(lo: int, hi: int, lo': int, hi': int)
      requires Within(lo, hi) && lo' <= lo && hi <= hi'
      ensures Within(lo', hi')
    {
      hide AllRangesWithin, AllEventsWithin;
      RangesWider(ranges, lo, hi, lo', hi');
      EventsWider(eventStr, lo, hi, lo', hi');
      EventsWider(eventInt, lo, hi, lo', hi');
    }
  }

  // ----- the folds of a timeline's bounds -----

  ghost predicate AllRangesWithin(lists: seq<TimelineDataRange>, lo: int, hi: int)
    reads lists
  {
    forall i :: 0 <= i < |lists| ==> RangesWithin(lists[i].ranges, lo, hi)
  }

  ghost predicate AllEventsWithin(lists: seq<TimelineEvent>, lo: int, hi: int)
    reads lists
  {
    forall i :: 0 <= i < |lists| ==> EventsWithin(lists[i].events, lo, hi)
  }

  ghost predicate SomeRangeStarts(lists: seq<TimelineDataRange>, at: int)
    reads lists
  {
    exists r :: r in lists && RangeStartsAt(r.ranges, at)
  }

  ghost predicate SomeRangeEnds(lists: seq<TimelineDataRange>, at: int)
    reads lists
  {
    exists r :: r in lists && RangeEndsAt(r.ranges, at)
  }

  ghost predicate SomeEventAt(lists: seq<TimelineEvent>, at: int)
    reads lists
  {
    exists e :: e in lists && OccursIn(e.events, at)
  }

  lemma RangesWider(lists: seq<TimelineDataRange>, lo: int, hi: int, lo': int, hi': int)
    requires AllRangesWithin(lists, lo, hi) && lo' <= lo && hi <= hi'
    ensures AllRangesWithin(lists, lo', hi')
  {
  }

  lemma EventsWider(lists: seq<TimelineEvent>, lo: int, hi: int, lo': int, hi': int)
    requires AllEventsWithin(lists, lo, hi) && lo' <= lo && hi <= hi'
    ensures AllEventsWithin(lists, lo', hi')
  {
  }

  /** The first loop. */
  method FoldRanges(lists: seq<TimelineDataRange>) returns (lo: int, hi: int)
    requires forall r :: r in lists ==> Ordered(r.ranges)
    ensures lo <= 0 <= hi && AllRangesWithin(lists, lo, hi)
    ensures (lo == 0 || SomeRangeStarts(lists, lo)) && (hi == 0 || SomeRangeEnds(lists, hi))
  {
    hide RangeStartsAt, RangeEndsAt;
    lo, hi := 0, 0;
    for i := 0 to |lists|
      invariant lo <= 0 <= hi
      invariant forall j :: 0 <= j < i ==> RangesWithin(lists[j].ranges, lo, hi)
      invariant (lo == 0 || SomeRangeStarts(lists, lo)) && (hi == 0 || SomeRangeEnds(lists, hi))
    {
      assert lists[i] in lists;
      var rangeLo, rangeHi := lists[i].GetBounds();
      if rangeLo < lo { lo := rangeLo; }
      if rangeHi > hi { hi := rangeHi; }
    }
  }

  /** The loop the two lists of events share. */
  method Widen(lists: seq<TimelineEvent>, from: int, to: int) returns (lo: int, hi: int)
    requires from <= 0 <= to && forall e :: e in lists ==> InOrder(e.events)
    ensures lo <= from && to <= hi && AllEventsWithin(lists, lo, hi)
    ensures (lo == from || SomeEventAt(lists, lo)) && (hi == to || SomeEventAt(lists, hi))
  {
    hide OccursIn;
    lo, hi := from, to;
    for i := 0 to |lists|
      invariant lo <= from && to <= hi
      invariant forall j :: 0 <= j < i ==> EventsWithin(lists[j].events, lo, hi)
      invariant (lo == from || SomeEventAt(lists, lo)) && (hi == to || SomeEventAt(lists, hi))
    {
      assert lists[i] in lists;
      var evLo, evHi := lists[i].GetBounds();
      if evLo < lo { lo := evLo; }
      if evHi > hi { hi := evHi; }
    }
  }

  /** With one event, at 5, the bounds are 0 and 5: the lower one is not attained. */
  method BoundsOfOneEvent() returns (lo: int, hi: int)
    ensures lo == 0 && hi == 5
  {
    var list := new TimelineEvent();
    list.AddEvent(Event(5, "x"));
    var timeline := new Timeline();
    timeline.eventStr := [list];
    hide *;
    OneEvent(timeline, list);
    lo, hi := timeline.GetBounds();
    OneEvent(timeline, list);
    TightAt(timeline, lo, hi);
  }

  lemma TightAt(timeline: Timeline, lo: int, hi: int)
    requires timeline.EndsAt(5) && forall at :: timeline.StartsAt(at) || timeline.EndsAt(at) ==> at == 5
    requires (lo == 0 || timeline.StartsAt(lo)) && (timeline.EndsAt(hi) <==> exists at :: at >= 0 && timeline.EndsAt(at))
    requires lo <= 0
    ensures lo == 0 && hi == 5
  {
    hide *;
  }

  lemma OneEvent(timeline: Timeline, list: TimelineEvent)
    requires timeline.ranges == [] && timeline.eventStr == [list] && timeline.eventInt == []
    requires list.events == [Event(5, "x")]
    ensures timeline.Sorted() && timeline.EndsAt(5)
    ensures forall at :: timeline.StartsAt(at) || timeline.EndsAt(at) ==> at == 5
  {
    assert Event(5, "x") in list.events && list in timeline.eventStr;
    assert OccursIn(list.events, 5);
  }

  class Timelines {
    var timelines: seq<Timeline>

    constructor ()
      ensures timelines == []
    {
      timelines := [];
    }

    method GetBounds() returns (lo: int, hi: int)
      requires forall t :: t in timelines ==> t.Sorted()
      ensures lo <= 0 <= hi && forall t :: t in timelines ==> t.Within(lo, hi)
      ensures lo == 0 || exists t :: t in timelines && t.StartsAt(lo)
      ensures hi == 0 || exists t :: t in timelines && t.EndsAt(hi)
      ensures (exists t :: t in timelines && t.StartsAt(lo)) <==> exists t, at :: t in timelines && at <= 0 && t.StartsAt(at)
      ensures (exists t :: t in timelines && t.EndsAt(hi)) <==> exists t, at :: t in timelines && at >= 0 && t.EndsAt(at)
    {
      hide Timeline.Within, Timeline.StartsAt, Timeline.EndsAt;
      lo, hi := 0, 0;
      for i := 0 to |timelines|
        invariant lo <= 0 <= hi
        invariant lo == 0 || exists t :: t in timelines && t.StartsAt(lo)
        invariant hi == 0 || exists t :: t in timelines && t.EndsAt(hi)
        invariant forall j :: 0 <= j < i ==> timelines[j].Within(lo, hi)
      {
        assert timelines[i] in timelines;
        var tLo, tHi := timelines[i].GetBounds();
        ghost var lo0, hi0 := lo, hi;
        if tLo < lo { lo := tLo; }
        if tHi > hi { hi := tHi; }
        timelines[i].WithinWider(tLo, tHi, lo, hi);
        forall j | 0 <= j < i
          ensures timelines[j].Within(lo, hi)
        {
          timelines[j].WithinWider(lo0, hi0, lo, hi);
        }
      }
      forall t | t in timelines
        ensures forall at :: t.StartsAt(at) ==> lo <= at
        ensures forall at :: t.EndsAt(at) ==> at <= hi
      {
        t.Enclosed(lo, hi);
      }
    }
  }
}
