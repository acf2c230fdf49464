/** Timelines of the visualiser (utils/grid.py): binary searches over ranges and events in order
    of time, and the selections made with them.

    A window is given by its two ends, both of which belong to it.  An end that no range covers
    is said to fall into a gap. */
module Grid {
  datatype DataRange = DataRange(start: int, end: int, value: string)
  datatype TimedEvent = TimedEvent(at: int, value: string)

  // ----- Selections

  function Select<T>(s: seq<T>, p: T -> bool): seq<T> {
    if s == [] then [] else Select(s[..|s| - 1], p) + if p(s[|s| - 1]) then [s[|s| - 1]] else []
  }

  // What holds of a contiguous part only selects that part.
  lemma {:induction false} SelectIsSlice<T>(s: seq<T>, p: T -> bool, lo: nat, hi: nat)
    requires lo <= hi <= |s| && forall k :: 0 <= k < |s| ==> (p(s[k]) <==> lo <= k < hi)
    ensures Select(s, p) == s[lo..hi]
    decreases |s|
  {
    if s != [] {
      var n := |s| - 1;
      SelectIsSlice(s[..n], p, if lo < n then lo else n, if hi < n then hi else n);
      SliceLast(s, lo, hi);
    }
  }

  lemma SliceLast<T>(s: seq<T>, lo: nat, hi: nat)
    requires lo <= hi <= |s| && s != []
    ensures var n := |s| - 1;
      s[lo..hi] == s[..n][if lo < n then lo else n..if hi < n then hi else n] + if lo <= n < hi then [s[n]] else []
  {
  }

  // s[lo:hi]
  function Slice<T>(s: seq<T>, lo: nat, hi: nat): seq<T>
    requires hi <= |s|
  {
    if lo <= hi then s[lo..hi] else []
  }

  // ----- Ranges

  predicate Covers(r: DataRange, key: int) {
    r.start <= key <= r.end
  }

  predicate Covered(ranges: seq<DataRange>, key: int) {
    exists k :: 0 <= k < |ranges| && Covers(ranges[k], key)
  }

  // In order of time, as the visualiser sorts them; ranges may touch at a point.
  ghost predicate InTime(ranges: seq<DataRange>) {
    && (forall k :: 0 <= k < |ranges| ==> ranges[k].start <= ranges[k].end)
    && (forall i, j :: 0 <= i < j < |ranges| ==> ranges[i].end <= ranges[j].start)
  }

  // Without a common point.
  ghost predicate Disjoint(ranges: seq<DataRange>) {
    && (forall k :: 0 <= k < |ranges| ==> ranges[k].start <= ranges[k].end)
    && (forall i, j :: 0 <= i < j < |ranges| ==> ranges[i].end < ranges[j].start)
  }

  function Meeting(ranges: seq<DataRange>, start: int, end: int): seq<DataRange> {
    Select(ranges, (r: DataRange) => r.start <= end && start <= r.end)
  }

  // The ranges that do not end before the window, and those that do not start after it.
  function EndingFrom(ranges: seq<DataRange>, start: int): seq<DataRange> {
    Select(ranges, (r: DataRange) => start <= r.end)
  }

  function StartingTo(ranges: seq<DataRange>, end: int): seq<DataRange> {
    Select(ranges, (r: DataRange) => r.start <= end)
  }

  /* What a window selects, also if its ends are given in the wrong order: the ranges that meet
     it if both ends are covered, nothing if none is, and otherwise only the covered end counts. */
  function Selected(ranges: seq<DataRange>, start: int, end: int): seq<DataRange> {
    if Covered(ranges, start) then
      if Covered(ranges, end) then Meeting(ranges, start, end) else EndingFrom(ranges, start)
    else
      if Covered(ranges, end) then StartingTo(ranges, end) else []
  }

  // The ranges before `lo` end before the window, those from `hi` on start after it.
  ghost predicate Borders(ranges: seq<DataRange>, start: int, end: int, lo: nat, hi: nat) {
    && lo <= |ranges| && hi <= |ranges|
    && (forall k :: 0 <= k < |ranges| ==> (ranges[k].end < start <==> k < lo))
    && (forall k :: 0 <= k < |ranges| ==> (ranges[k].start > end <==> hi <= k))
  }

  lemma {:induction false} FindBorders(ranges: seq<DataRange>, start: int, end: int) returns (lo: nat, hi: nat)
    requires Disjoint(ranges)
    ensures Borders(ranges, start, end, lo, hi)
    decreases |ranges|
  {
    if ranges == [] {
      lo, hi := 0, 0;
    } else {
      var n := |ranges| - 1;
      var front := ranges[..n];
      lo, hi := FindBorders(front, start, end);
      assert forall k :: 0 <= k < n ==> front[k] == ranges[k];
      if ranges[n].end < start {
        lo := n + 1;
      }
      if ranges[n].start <= end {
        hi := n + 1;
      }
    }
  }

  lemma SelectionsAreSlices(ranges: seq<DataRange>, start: int, end: int, lo: nat, hi: nat)
    requires Disjoint(ranges) && Borders(ranges, start, end, lo, hi)
    ensures Meeting(ranges, start, end) == Slice(ranges, lo, hi)
    ensures EndingFrom(ranges, start) == ranges[lo..]
    ensures StartingTo(ranges, end) == ranges[..hi]
  {
    SelectIsSlice(ranges, (r: DataRange) => r.start <= end && start <= r.end, lo, if lo <= hi then hi else lo);
    SelectIsSlice(ranges, (r: DataRange) => start <= r.end, lo, |ranges|);
    SelectIsSlice(ranges, (r: DataRange) => r.start <= end, 0, hi);
  }

  // With the ends in order and one of them in a gap, the selection goes beyond the window: to
  // the last range, or back to the first.
  lemma BeyondTheWindow(ranges: seq<DataRange>, start: int, end: int)
    requires Disjoint(ranges) && start <= end
    ensures EndingFrom(ranges, start) == Meeting(ranges, start, end) + Select(ranges, (r: DataRange) => r.start > end)
    ensures StartingTo(ranges, end) == Select(ranges, (r: DataRange) => r.end < start) + Meeting(ranges, start, end)
  {
    var lo, hi := FindBorders(ranges, start, end);
    SelectionsAreSlices(ranges, start, end, lo, hi);
    SelectIsSlice(ranges, (r: DataRange) => r.start > end, hi, |ranges|);
    SelectIsSlice(ranges, (r: DataRange) => r.end < start, 0, lo);
    BordersInOrder(ranges, start, end, lo, hi);
    CutTwice(ranges, lo, hi);
  }

  lemma BordersInOrder(ranges: seq<DataRange>, start: int, end: int, lo: nat, hi: nat)
    requires Disjoint(ranges) && Borders(ranges, start, end, lo, hi) && start <= end
    ensures lo <= hi
  {
    assert hi < |ranges| ==> end < ranges[hi].start <= ranges[hi].end;
  }

  lemma CutTwice<T>(s: seq<T>, lo: nat, hi: nat)
    requires lo <= hi <= |s|
    ensures s[lo..] == s[lo..hi] + s[hi..] && s[..hi] == s[..lo] + s[lo..hi]
  {
  }

  // A window selects exactly the ranges that meet it if and only if
  // - with both ends in gaps, no range lies inside it;
  // - otherwise, no range precedes a start, and none follows an end, that falls into a gap.
  lemma ExactIff(ranges: seq<DataRange>, start: int, end: int)
    requires Disjoint(ranges)
    ensures Selected(ranges, start, end) == Meeting(ranges, start, end) <==>
      if !Covered(ranges, start) && !Covered(ranges, end) then
        forall k :: 0 <= k < |ranges| ==> !(start < ranges[k].start && ranges[k].end < end)
      else
        && (Covered(ranges, start) || ranges == [] || start <= ranges[0].end)
        && (Covered(ranges, end) || ranges == [] || ranges[|ranges| - 1].start <= end)
  {
    var lo, hi := FindBorders(ranges, start, end);
    SelectionsAreSlices(ranges, start, end, lo, hi);
    var coveredStart, coveredEnd := Covered(ranges, start), Covered(ranges, end);
    if !coveredStart && !coveredEnd {
      GapsAround(ranges, start, end, lo, hi);
    } else if !coveredStart {
      StartInGap(ranges, start, end, lo, hi);
    } else if !coveredEnd {
      EndInGap(ranges, start, end, lo, hi);
    }
  }

  lemma StartInGap(ranges: seq<DataRange>, start: int, end: int, lo: nat, hi: nat)
    requires Disjoint(ranges) && Borders(ranges, start, end, lo, hi) && !Covered(ranges, start) && Covered(ranges, end)
    ensures ranges[..hi] == Slice(ranges, lo, hi) <==> start <= ranges[0].end
  {
    var k :| 0 <= k < |ranges| && Covers(ranges[k], end);
    assert k < hi;
    if ranges[..hi] == Slice(ranges, lo, hi) {
      assert |ranges[..hi]| == |Slice(ranges, lo, hi)|;
    }
  }

  lemma EndInGap(ranges: seq<DataRange>, start: int, end: int, lo: nat, hi: nat)
    requires Disjoint(ranges) && Borders(ranges, start, end, lo, hi) && Covered(ranges, start) && !Covered(ranges, end)
    ensures ranges[lo..] == Slice(ranges, lo, hi) <==> ranges[|ranges| - 1].start <= end
  {
    var k :| 0 <= k < |ranges| && Covers(ranges[k], start);
    assert lo <= k;
    if ranges[lo..] == Slice(ranges, lo, hi) {
      assert |ranges[lo..]| == |Slice(ranges, lo, hi)|;
    }
  }

  lemma GapsAround(ranges: seq<DataRange>, start: int, end: int, lo: nat, hi: nat)
    requires Disjoint(ranges) && Borders(ranges, start, end, lo, hi)
    requires !Covered(ranges, start) && !Covered(ranges, end)
    ensures lo < hi <==> exists k :: 0 <= k < |ranges| && start < ranges[k].start && ranges[k].end < end
  {
    if lo < hi {
      assert !Covers(ranges[lo], start) && !Covers(ranges[lo], end);
    }
  }

  // Two ranges in one window, both ends in gaps, nothing selected.
  lemma GapsLoseRanges()
    ensures var ranges := [DataRange(1, 2, "a"), DataRange(4, 5, "b")];
      Disjoint(ranges) && Selected(ranges, 0, 6) == [] && Meeting(ranges, 0, 6) == ranges
  {
    var ranges := [DataRange(1, 2, "a"), DataRange(4, 5, "b")];
    SelectIsSlice(ranges, (r: DataRange) => r.start <= 6 && 0 <= r.end, 0, 2);
  }

  // ----- The selection, by the ranges that the searches hit

  // Where a search between l and u ends; at a point where ranges touch, it can hit any of them.
  function Hit(ranges: seq<DataRange>, key: int, l: nat, u: int): int
    requires l <= u + 1 <= |ranges|
    decreases u - l + 1
  {
    if l > u then -1
    else
      var i := (l + u) / 2;
      if Covers(ranges[i], key) then i
      else if key < ranges[i].start then Hit(ranges, key, l, i - 1)
      else Hit(ranges, key, i + 1, u)
  }

  ghost predicate Finds(ranges: seq<DataRange>, key: int, i: int) {
    if Covered(ranges, key) then 0 <= i < |ranges| && Covers(ranges[i], key) else i == -1
  }

  // Only ranges from l to u can cover the key.
  ghost predicate Narrowed(ranges: seq<DataRange>, key: int, l: nat, u: int) {
    && l <= u + 1 <= |ranges|
    && (forall k :: 0 <= k < l ==> ranges[k].end < key)
    && (forall k :: u < k < |ranges| ==> key < ranges[k].start)
  }

  lemma {:induction false} HitFinds(ranges: seq<DataRange>, key: int, l: nat, u: int)
    requires InTime(ranges) && Narrowed(ranges, key, l, u)
    ensures Finds(ranges, key, Hit(ranges, key, l, u))
    decreases u - l + 1
  {
    if l <= u {
      var i := (l + u) / 2;
      if !Covers(ranges[i], key) {
        NarrowedAt(ranges, key, l, u, i);
        if key < ranges[i].start {
          HitFinds(ranges, key, l, i - 1);
        } else {
          HitFinds(ranges, key, i + 1, u);
        }
      }
    }
  }

  lemma NarrowedAt(ranges: seq<DataRange>, key: int, l: nat, u: int, i: nat)
    requires InTime(ranges) && Narrowed(ranges, key, l, u) && l <= i <= u && !Covers(ranges[i], key)
    ensures if key < ranges[i].start then Narrowed(ranges, key, l, i - 1) else Narrowed(ranges, key, i + 1, u)
  {
  }

  // From a range that covers the start to one that covers the end; the first range stands in for
  // a start in a gap, the last one for such an end; nothing if both are.
  ghost predicate Chosen(ranges: seq<DataRange>, start: int, end: int, lo: nat, hi: nat) {
    hi <= |ranges| &&
    if !Covered(ranges, start) && !Covered(ranges, end) then lo == hi == 0
    else
      && (if Covered(ranges, start) then lo < |ranges| && Covers(ranges[lo], start) else lo == 0)
      && (if Covered(ranges, end) then 0 < hi && Covers(ranges[hi - 1], end) else hi == |ranges|)
      && (start == end ==> hi == lo + 1) && (start <= end ==> lo < hi)
  }

  // What is selected does not lie outside the covered ends, and what reaches into them is selected.
  lemma ChosenMeet(ranges: seq<DataRange>, start: int, end: int, lo: nat, hi: nat)
    requires InTime(ranges) && Chosen(ranges, start, end, lo, hi)
    requires Covered(ranges, start) || Covered(ranges, end)
    ensures forall k :: lo <= k < hi ==>
      && (Covered(ranges, start) ==> start <= ranges[k].end)
      && (Covered(ranges, end) ==> ranges[k].start <= end)
    ensures forall k :: 0 <= k < |ranges| && !(lo <= k < hi) ==>
      || (Covered(ranges, start) && ranges[k].end <= start)
      || (Covered(ranges, end) && end <= ranges[k].start)
  {
  }

  // With two touching ranges, the window of their common point selects only one of them.
  lemma TouchingLosesRange(lo: nat, hi: nat)
    requires Chosen([DataRange(1, 2, "a"), DataRange(2, 3, "b")], 2, 2, lo, hi)
    ensures |Slice([DataRange(1, 2, "a"), DataRange(2, 3, "b")], lo, hi)| == 1
  {
    assert Covers([DataRange(1, 2, "a"), DataRange(2, 3, "b")][0], 2);
  }

  // The bounds of the selection, from what the two searches return.
  function Bounds(n: nat, s: int, e: int): (r: (nat, nat))
    requires -1 <= s < n && -1 <= e < n
    ensures r.1 <= n
  {
    if s == -1 && e == -1 then (0, 0) else (if s == -1 then 0 else s, if e == -1 then n else e + 1)
  }

  lemma HitsInside(ranges: seq<DataRange>, start: int, end: int, s: int, e: int)
    requires Finds(ranges, start, s) && Finds(ranges, end, e)
    ensures -1 <= s < |ranges| && -1 <= e < |ranges|
  {
  }

  lemma HitsChoose(ranges: seq<DataRange>, start: int, end: int, s: int, e: int, lo: nat, hi: nat)
    requires InTime(ranges) && Finds(ranges, start, s) && Finds(ranges, end, e) && (start == end ==> s == e)
    requires -1 <= s < |ranges| && -1 <= e < |ranges| && (lo, hi) == Bounds(|ranges|, s, e)
    ensures Chosen(ranges, start, end, lo, hi) && (start <= end ==> lo <= hi)
    ensures Disjoint(ranges) ==> Slice(ranges, lo, hi) == Selected(ranges, start, end)
  {
    if Disjoint(ranges) {
      CoveredBorders(ranges, start, end, s, e);
    }
  }

  ghost predicate ChosenSlice(ranges: seq<DataRange>, start: int, end: int, selected: seq<DataRange>) {
    exists lo: nat, hi: nat :: Chosen(ranges, start, end, lo, hi) && selected == Slice(ranges, lo, hi)
  }

  lemma HitsSelect(ranges: seq<DataRange>, start: int, end: int, s: int, e: int, selected: seq<DataRange>)
    requires InTime(ranges) && Finds(ranges, start, s) && Finds(ranges, end, e) && (start == end ==> s == e)
    requires -1 <= s < |ranges| && -1 <= e < |ranges|
    requires selected ==
      if s == -1 && e == -1 then [] else if s == -1 then ranges[..e + 1] else if e == -1 then ranges[s..]
      else Slice(ranges, s, e + 1)
    ensures ChosenSlice(ranges, start, end, selected)
    ensures Disjoint(ranges) ==> selected == Selected(ranges, start, end)
  {
    var (lo, hi) := Bounds(|ranges|, s, e);
    HitsChoose(ranges, start, end, s, e, lo, hi);
    assert selected == Slice(ranges, lo, hi);
  }

  lemma WholeHitFinds(ranges: seq<DataRange>, key: int, hit: int)
    requires hit == Hit(ranges, key, 0, |ranges| - 1)
    ensures InTime(ranges) ==> Finds(ranges, key, hit)
  {
    if InTime(ranges) {
      HitFinds(ranges, key, 0, |ranges| - 1);
    }
  }

  class TimelineDataRange {
    var ranges: seq<DataRange>

    constructor ()
      ensures ranges == []
    {
      ranges := [];
    }

    method AddRange(range: DataRange)
      modifies this
      ensures ranges == old(ranges) + [range]
    {
      ranges := ranges + [range];
    }

    // Finds a range that covers the key, if the ranges are in time.
    method Search(key: int) returns (i: int)
      ensures i == Hit(ranges, key, 0, |ranges| - 1)
      ensures InTime(ranges) ==> Finds(ranges, key, i)
    {
      ghost var hit := Hit(ranges, key, 0, |ranges| - 1);
      var l, u := 0, |ranges| - 1;
      while l <= u
        invariant 0 <= l <= u + 1 <= |ranges| && Hit(ranges, key, l, u) == hit
      {
        i := (l + u) / 2;
        if key >= ranges[i].start && key <= ranges[i].end {
          WholeHitFinds(ranges, key, hit);
          return i;
        } else if key < ranges[i].start {
          u := i - 1;
        } else {
          l := i + 1;
        }
      }
      WholeHitFinds(ranges, key, hit);
      return -1;
    }

    // The bounds of the selection; they can be in the wrong order if the ends are.
    method GetRangesBounds(start: int, end: int) returns (lo: nat, hi: nat)
      requires InTime(ranges)
      ensures Chosen(ranges, start, end, lo, hi) && (start <= end ==> lo <= hi)
      ensures Disjoint(ranges) ==> Slice(ranges, lo, hi) == Selected(ranges, start, end)
    {
      var s := Search(start);
      var e := Search(end);
      HitsInside(ranges, start, end, s, e);
      if s == -1 && e == -1 {
        lo, hi := 0, 0;
      } else if s == -1 {
        lo, hi := 0, e + 1;
      } else if e == -1 {
        lo, hi := s, |ranges|;
      } else {
        lo, hi := s, e + 1;
      }
      HitsChoose(ranges, start, end, s, e, lo, hi);
    }

    method GetRanges(start: int, end: int) returns (selected: seq<DataRange>)
      requires InTime(ranges)
      ensures ChosenSlice(ranges, start, end, selected)
      ensures Disjoint(ranges) ==> selected == Selected(ranges, start, end)
    {
      var s := Search(start);
      var e := Search(end);
      HitsInside(ranges, start, end, s, e);
      if s == -1 && e == -1 {
        selected := [];
      } else if s == -1 {
        selected := ranges[..e + 1];
      } else if e == -1 {
        selected := ranges[s..];
      } else {
        selected := Slice(ranges, s, e + 1);
      }
      HitsSelect(ranges, start, end, s, e, selected);
    }
  }

  // The searches find the borders of the window where its ends are covered.
  lemma CoveredBorders(ranges: seq<DataRange>, start: int, end: int, s: int, e: int)
    requires Disjoint(ranges) && Finds(ranges, start, s) && Finds(ranges, end, e)
    ensures Selected(ranges, start, end) ==
      if s == -1 && e == -1 then [] else Slice(ranges, if s == -1 then 0 else s, if e == -1 then |ranges| else e + 1)
  {
    var lo, hi := FindBorders(ranges, start, end);
    SelectionsAreSlices(ranges, start, end, lo, hi);
    if s >= 0 {
      StartBorder(ranges, start, end, lo, hi, s);
    }
    if e >= 0 {
      EndBorder(ranges, start, end, lo, hi, e);
    }
  }

  lemma StartBorder(ranges: seq<DataRange>, start: int, end: int, lo: nat, hi: nat, s: nat)
    requires Disjoint(ranges) && Borders(ranges, start, end, lo, hi) && s < |ranges| && Covers(ranges[s], start)
    ensures lo == s
  {
    assert lo < |ranges| ==> start <= ranges[lo].end;
  }

  lemma EndBorder(ranges: seq<DataRange>, start: int, end: int, lo: nat, hi: nat, e: nat)
    requires Disjoint(ranges) && Borders(ranges, start, end, lo, hi) && e < |ranges| && Covers(ranges[e], end)
    ensures hi == e + 1
  {
    assert hi > 0 ==> ranges[hi - 1].start <= end;
  }

  // ----- Events

  ghost predicate Sorted(events: seq<TimedEvent>) {
    forall i, j :: 0 <= i < j < |events| ==> events[i].at <= events[j].at
  }

  // No two at the same time.
  ghost predicate Increasing(events: seq<TimedEvent>) {
    forall i, j :: 0 <= i < j < |events| ==> events[i].at < events[j].at
  }

  function Inside(events: seq<TimedEvent>, start: int, end: int): seq<TimedEvent> {
    Select(events, (e: TimedEvent) => start <= e.at <= end)
  }

  predicate Happens(events: seq<TimedEvent>, at: int) {
    exists k :: 0 <= k < |events| && events[k].at == at
  }

  // Where a search between l and u ends; of several events at the time, it can hit any.
  function EventHit(events: seq<TimedEvent>, key: int, l: nat, u: int): nat
    requires l <= u + 1 <= |events|
    decreases u - l + 1
  {
    if l > u then l
    else
      var i := (l + u) / 2;
      if key == events[i].at then i
      else if key < events[i].at then EventHit(events, key, l, i - 1)
      else EventHit(events, key, i + 1, u)
  }

  // One step of the search.
  lemma EventHitStep(events: seq<TimedEvent>, key: int, l: nat, u: int, i: nat)
    requires l <= u < |events| && i == (l + u) / 2
    ensures key == events[i].at ==> EventHit(events, key, l, u) == i
    ensures key < events[i].at ==> EventHit(events, key, l, i - 1) == EventHit(events, key, l, u)
    ensures key > events[i].at ==> EventHit(events, key, i + 1, u) == EventHit(events, key, l, u)
  {
  }

  // Only events from l to u can happen at the time.
  ghost predicate EventsNarrowed(events: seq<TimedEvent>, key: int, l: nat, u: int) {
    && l <= u + 1 <= |events|
    && (forall k :: 0 <= k < l ==> events[k].at < key)
    && (forall k :: u < k < |events| ==> key < events[k].at)
  }

  lemma {:induction false} EventHitIsBorder(events: seq<TimedEvent>, key: int, l: nat, u: int)
    requires Sorted(events) && EventsNarrowed(events, key, l, u)
    ensures EventBorder(events, key, EventHit(events, key, l, u))
    decreases u - l + 1
  {
    if l <= u {
      var i := (l + u) / 2;
      EventsNarrowedAt(events, key, l, u, i);
      if key < events[i].at {
        EventHitIsBorder(events, key, l, i - 1);
      } else if events[i].at < key {
        EventHitIsBorder(events, key, i + 1, u);
      }
    } else {
      NoEventBorder(events, key, l);
    }
  }

  lemma SearchEnds(events: seq<TimedEvent>, key: int, hit: nat)
    requires hit == EventHit(events, key, 0, |events| - 1)
    ensures Sorted(events) ==> EventBorder(events, key, hit)
  {
    if Sorted(events) {
      EventHitIsBorder(events, key, 0, |events| - 1);
    }
  }

  lemma EventsNarrowedAt(events: seq<TimedEvent>, key: int, l: nat, u: int, i: nat)
    requires Sorted(events) && EventsNarrowed(events, key, l, u) && l <= i <= u
    ensures key < events[i].at ==> EventsNarrowed(events, key, l, i - 1)
    ensures events[i].at < key ==> EventsNarrowed(events, key, i + 1, u)
    ensures events[i].at == key ==> EventBorder(events, key, i)
  {
  }

  lemma NoEventBorder(events: seq<TimedEvent>, key: int, l: nat)
    requires EventsNarrowed(events, key, l, l - 1)
    ensures EventBorder(events, key, l)
  {
  }

  // An event at the time if there is one, otherwise the first later one.
  ghost predicate EventBorder(events: seq<TimedEvent>, key: int, l: nat) {
    && l <= |events|
    && (forall k :: 0 <= k < l ==> events[k].at <= key)
    && (forall k :: l <= k < |events| ==> events[k].at >= key)
    && (Happens(events, key) ==> l < |events| && events[l].at == key)
  }

  // s[lo:hi + 1], where the end may lie beyond the list.
  function UpTo<T>(s: seq<T>, lo: nat, hi: nat): seq<T>
    requires hi <= |s|
  {
    Slice(s, lo, if hi + 1 <= |s| then hi + 1 else |s|)
  }

  // From the border of the start to that of the end, both included.
  ghost predicate ChosenEvents(events: seq<TimedEvent>, start: int, end: int, s: nat, e: nat) {
    EventBorder(events, start, s) && EventBorder(events, end, e) && (start == end ==> s == e)
  }

  // The selection has every event between the ends and, where there are such, one at each end; it
  // has no event outside, except that the first later one follows if none happens at the end.
  lemma ChosenEventsInside(events: seq<TimedEvent>, start: int, end: int, s: nat, e: nat)
    requires Sorted(events) && start <= end && ChosenEvents(events, start, end, s, e)
    ensures s <= e
    ensures forall k :: s <= k <= e && k < |events| ==>
      start <= events[k].at && (events[k].at <= end || (k == e && !Happens(events, end)))
    ensures forall k :: 0 <= k < |events| && start < events[k].at < end ==> s <= k < e
    ensures Happens(events, start) ==> s < |events| && events[s].at == start
    ensures Happens(events, end) ==> e < |events| && events[e].at == end
  {
    assert e < |events| ==> events[e].at >= end;
  }

  class TimelineEvent {
    var events: seq<TimedEvent>

    constructor ()
      ensures events == []
    {
      events := [];
    }

    method AddEvent(event: TimedEvent)
      modifies this
      ensures events == old(events) + [event]
    {
      events := events + [event];
    }

    // An event at the time of the key, or else the first later one.
    method Search(key: int) returns (l: nat)
      ensures l == EventHit(events, key, 0, |events| - 1)
      ensures Sorted(events) ==> EventBorder(events, key, l)
    {
      ghost var hit := EventHit(events, key, 0, |events| - 1);
      l := 0;
      var u := |events| - 1;
      while l <= u
        invariant 0 <= l <= u + 1 <= |events| && EventHit(events, key, l, u) == hit
      {
        var i := (l + u) / 2;
        EventHitStep(events, key, l, u, i);
        if key == events[i].at {
          SearchEnds(events, key, hit);
          return i;
        } else if key < events[i].at {
          u := i - 1;
        } else {
          l := i + 1;
        }
      }
      SearchEnds(events, key, hit);
    }

    // If no two happen at the same time: all events of the window, followed by the first later one
    // unless an event happens exactly at its end.  With the ends in the wrong order: the first
    // event from the start on, unless one lies between the ends.
    method GetEvents(start: int, end: int) returns (selected: seq<TimedEvent>)
      requires Sorted(events)
      ensures exists s: nat, e: nat :: ChosenEvents(events, start, end, s, e) && selected == UpTo(events, s, e)
      ensures Increasing(events) && start <= end ==>
        selected == Inside(events, start, end) + if Happens(events, end) then [] else First(Later(events, end))
      ensures Increasing(events) && end < start ==>
        selected == if Inside(events, end, start - 1) == [] then First(Later(events, start - 1)) else []
    {
      var s := Search(start);
      var e := Search(end);
      if Increasing(events) {
        OneBorder(events, start, s);
        OneBorder(events, end, e);
        EventsInWindow(events, start, end, s, e);
      }
      assert ChosenEvents(events, start, end, s, e);
      selected := UpTo(events, s, e);
    }
  }

  // If no two events happen at the same time, the border is the number of earlier events.
  lemma OneBorder(events: seq<TimedEvent>, key: int, l: nat)
    requires Increasing(events) && EventBorder(events, key, l)
    ensures forall k :: 0 <= k < |events| ==> (events[k].at < key <==> k < l)
  {
    assert l < |events| && l > 0 ==> events[l - 1].at < events[l].at;
    assert Happens(events, key) <==> l < |events| && events[l].at == key by {
      assert l < |events| ==> events[l].at >= key;
    }
  }

  function Later(events: seq<TimedEvent>, at: int): seq<TimedEvent> {
    Select(events, (e: TimedEvent) => e.at > at)
  }

  function First<T>(s: seq<T>): seq<T> {
    if s == [] then [] else [s[0]]
  }

  // The events from a to b are a slice, and so are those after b.
  lemma EventSlices(events: seq<TimedEvent>, a: int, b: int, lo: nat, hi: nat)
    requires Increasing(events) && lo <= hi <= |events|
    requires forall k :: 0 <= k < |events| ==> (events[k].at < a <==> k < lo)
    requires forall k :: 0 <= k < |events| ==> (events[k].at <= b <==> k < hi)
    ensures Inside(events, a, b) == events[lo..hi] && Later(events, b) == events[hi..]
  {
    SelectIsSlice(events, (e: TimedEvent) => a <= e.at <= b, lo, hi);
    SelectIsSlice(events, (e: TimedEvent) => e.at > b, hi, |events|);
  }

  lemma EventsInWindow(events: seq<TimedEvent>, start: int, end: int, s: nat, e: nat)
    requires Increasing(events) && s <= |events| && e <= |events|
    requires forall k :: 0 <= k < |events| ==> (events[k].at < start <==> k < s)
    requires forall k :: 0 <= k < |events| ==> (events[k].at < end <==> k < e)
    ensures var selected := UpTo(events, s, e);
      if start <= end then
        selected == Inside(events, start, end) + if Happens(events, end) then [] else First(Later(events, end))
      else
        selected == if Inside(events, end, start - 1) == [] then First(Later(events, start - 1)) else []
  {
    if start <= end {
      assert e < |events| ==> events[e].at >= end;
      var hi := if e < |events| && events[e].at == end then e + 1 else e;
      EventSlices(events, start, end, s, hi);
      assert Happens(events, end) <==> hi == e + 1;
      NextOne(events, s, e);
    } else {
      assert s < |events| ==> events[s].at >= start;
      EventSlices(events, end, start - 1, e, s);
    }
  }

  lemma NextOne<T>(s: seq<T>, lo: nat, hi: nat)
    requires lo <= hi <= |s|
    ensures s[lo..hi] + First(s[hi..]) == s[lo..if hi < |s| then hi + 1 else hi]
  {
  }
}
