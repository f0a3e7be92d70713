/** The union of watched timeline ranges: UniquePlaybackTracker of frontend/src/hooks/use-media-progress.ts. */
module Playback {
  /** A JavaScript number as `Number.isFinite` sees it. */
  datatype Number = Finite(value: real) | NotFinite

  datatype Range = Range(start: real, end: real)

  function Min(a: real, b: real): real { if a < b then a else b }
  function Max(a: real, b: real): real { if a > b then a else b }

  /** What the loop of `add` makes of the ranges still ahead and the pending one. */
  function Merge(ranges: seq<Range>, pending: Range): seq<Range> {
    if ranges == [] then [pending]
    else if ranges[0].end < pending.start then [ranges[0]] + Merge(ranges[1..], pending)
    else if pending.end < ranges[0].start then [pending] + Merge(ranges[1..], ranges[0])
    else Merge(ranges[1..], Hull(pending, ranges[0]))
  }

  function Hull(a: Range, b: Range): Range {
    Range(Min(a.start, b.start), Max(a.end, b.end))
  }

  /** The interval a call adds, if it adds one: negative times are moved to zero. */
  predicate Accepted(start: Number, end: Number) {
    start.Finite? && end.Finite? && start.value < end.value
  }

  function Clamped(start: real, end: real): Range {
    var s := Max(0.0, start);
    Range(s, Max(s, end))
  }

  function Added(ranges: seq<Range>, start: Number, end: Number): seq<Range> {
    if Accepted(start, end) then Merge(ranges, Clamped(start.value, end.value)) else ranges
  }

  function Total(ranges: seq<Range>): real {
    if ranges == [] then 0.0 else ranges[0].end - ranges[0].start + Total(ranges[1..])
  }

  /** `Math.round(total * 1_000)` */
  function PlayedMs(ranges: seq<Range>): int {
    (Total(ranges) * 1000.0 + 0.5).Floor
  }

  /** One turn of the loop moves a finished range from the front of the result to `merged`, or none. */
  lemma Behind(merged: seq<Range>, ahead: seq<Range>, pending: Range)
    requires ahead != [] && ahead[0].end < pending.start
    ensures merged + Merge(ahead, pending) == merged + [ahead[0]] + Merge(ahead[1..], pending)
  {
  }

  lemma Beyond(merged: seq<Range>, ahead: seq<Range>, pending: Range)
    requires ahead != [] && !(ahead[0].end < pending.start) && pending.end < ahead[0].start
    ensures merged + Merge(ahead, pending) == merged + [pending] + Merge(ahead[1..], ahead[0])
  {
  }

  lemma Touching(ahead: seq<Range>, pending: Range)
    requires ahead != [] && !(ahead[0].end < pending.start) && !(pending.end < ahead[0].start)
    ensures Merge(ahead, pending) == Merge(ahead[1..], Hull(pending, ahead[0]))
  {
  }

  lemma Finish(pending: Range)
    ensures Merge([], pending) == [pending]
  {
  }

  class UniquePlaybackTracker {
    var ranges: seq<Range>

    constructor ()
      ensures ranges == []
    {
      ranges := [];
    }

    method Add(startSeconds: Number, endSeconds: Number)
      modifies this
      ensures ranges == Added(old(ranges), startSeconds, endSeconds)
    {
      if startSeconds.NotFinite? || endSeconds.NotFinite? || endSeconds.value <= startSeconds.value {
        return;
      }
      var start := Max(0.0, startSeconds.value);
      var end := Max(start, endSeconds.value);
      var merged: seq<Range> := [];
      var pending := Range(start, end);
      ghost var all := Merge(ranges, pending);
      assert Added(ranges, startSeconds, endSeconds) == all;
      hide Merge, Added, Min, Max;
      var ahead := ranges;
      while ahead != []
        invariant ranges == old(ranges)
        invariant all == merged + Merge(ahead, pending)
      {
        var range := ahead[0];
        if range.end < pending.start {
          Behind(merged, ahead, pending);
          merged := merged + [range];
        } else if pending.end < range.start {
          Beyond(merged, ahead, pending);
          merged := merged + [pending];
          pending := range;
        } else {
          Touching(ahead, pending);
          pending := Range(Min(pending.start, range.start), Max(pending.end, range.end));
        }
        ahead := ahead[1..];
      }
      Finish(pending);
      ranges := merged + [pending];
    }

    function Played(): int
      reads this
    {
      PlayedMs(ranges)
    }
  }

  // ----- the shape of the list and the set it covers -----

  /** Sorted, each range a proper one, and a gap between any two. */
  predicate Separated(ranges: seq<Range>) {
    && (forall i :: 0 <= i < |ranges| ==> ranges[i].start <= ranges[i].end)
    && (forall i, j :: 0 <= i < j < |ranges| ==> ranges[i].end < ranges[j].start)
  }

  predicate Holds(r: Range, x: real) {
    r.start <= x <= r.end
  }

  predicate Covers(ranges: seq<Range>, x: real) {
    exists i :: 0 <= i < |ranges| && Holds(ranges[i], x)
  }

  lemma CoversCons(r: Range, ranges: seq<Range>, x: real)
    ensures Covers([r] + ranges, x) <==> Holds(r, x) || Covers(ranges, x)
  {
    var all := [r] + ranges;
    if Holds(r, x) {
      assert all[0] == r;
    }
    if i :| 0 <= i < |ranges| && Holds(ranges[i], x) {
      assert all[i + 1] == ranges[i];
    }
  }

  lemma SeparatedCons(r: Range, ranges: seq<Range>)
    ensures Separated([r] + ranges)
       <==> Separated(ranges) && r.start <= r.end && forall j :: 0 <= j < |ranges| ==> r.end < ranges[j].start
  {
    var all := [r] + ranges;
    assert all[0] == r;
    assert forall j :: 0 <= j < |ranges| ==> all[j + 1] == ranges[j];
    if Separated(all) {
      forall i | 0 <= i < |ranges| ensures ranges[i].start <= ranges[i].end && r.end < ranges[i].start {
        assert all[i + 1] == ranges[i];
      }
      forall i, j | 0 <= i < j < |ranges| ensures ranges[i].end < ranges[j].start {
        assert all[i + 1] == ranges[i] && all[j + 1] == ranges[j];
      }
    }
  }

  /** Merging keeps the shape, and nothing starts before what went in. */
  lemma {:induction false} MergeSeparates(ranges: seq<Range>, pending: Range, low: real)
    requires Separated(ranges) && pending.start <= pending.end
    requires low < pending.start && forall i :: 0 <= i < |ranges| ==> low < ranges[i].start
    ensures Separated(Merge(ranges, pending))
    ensures forall i :: 0 <= i < |Merge(ranges, pending)| ==> low < Merge(ranges, pending)[i].start
  {
    if ranges != [] {
      var head, tail := ranges[0], ranges[1..];
      assert ranges == [head] + tail;
      SeparatedCons(head, tail);
      if head.end < pending.start {
        MergeSeparates(tail, pending, head.end);
        SeparatedCons(head, Merge(tail, pending));
      } else if pending.end < head.start {
        MergeSeparates(tail, head, pending.end);
        SeparatedCons(pending, Merge(tail, head));
      } else {
        MergeSeparates(tail, Hull(pending, head), low);
      }
    }
  }

  lemma {:induction false} MergeCovers(ranges: seq<Range>, pending: Range, x: real)
    requires pending.start <= pending.end
    requires forall i :: 0 <= i < |ranges| ==> ranges[i].start <= ranges[i].end
    ensures Covers(Merge(ranges, pending), x) <==> Covers(ranges, x) || Holds(pending, x)
  {
    if ranges == [] {
      CoversCons(pending, [], x);
      assert [pending] + [] == [pending];
    } else {
      var head, tail := ranges[0], ranges[1..];
      assert ranges == [head] + tail;
      CoversCons(head, tail, x);
      if head.end < pending.start {
        MergeCovers(tail, pending, x);
        CoversCons(head, Merge(tail, pending), x);
      } else if pending.end < head.start {
        MergeCovers(tail, head, x);
        CoversCons(pending, Merge(tail, head), x);
      } else {
        MergeCovers(tail, Hull(pending, head), x);
      }
    }
  }

  lemma FirstStarts(a: seq<Range>, b: seq<Range>)
    requires Separated(a) && Separated(b) && a != [] && b != []
    requires forall x :: Covers(a, x) <==> Covers(b, x)
    ensures a[0].start <= b[0].start
  {
    var x := b[0].start;
    assert Holds(b[0], x);
    assert Covers(a, x);
    var i :| 0 <= i < |a| && Holds(a[i], x);
    assert i > 0 ==> a[0].end < a[i].start;
  }

  lemma FirstCovers(a: seq<Range>, x: real)
    requires a != []
    ensures Holds(a[0], x) ==> Covers(a, x)
  {
  }

  /** Just behind the end of its first range there is a point that a list does not cover. */
  lemma GapPoint(a: seq<Range>, limit: real) returns (x: real)
    requires Separated(a) && a != [] && a[0].end < limit
    ensures a[0].end < x < limit && !Covers(a, x)
  {
    var bound := if |a| > 1 then Min(limit, a[1].start) else limit;
    x := (a[0].end + bound) / 2.0;
    forall i | 0 <= i < |a| ensures !Holds(a[i], x) {
      assert i > 1 ==> a[1].end < a[i].start;
    }
  }

  lemma FirstEnds(a: seq<Range>, b: seq<Range>)
    requires Separated(a) && Separated(b) && a != [] && b != []
    requires a[0].start == b[0].start
    requires forall x :: Covers(a, x) <==> Covers(b, x)
    ensures b[0].end <= a[0].end
  {
    if a[0].end < b[0].end {
      var x := GapPoint(a, b[0].end);
      FirstCovers(b, x);
    }
  }

  lemma TailCovers(a: seq<Range>, x: real)
    requires Separated(a) && a != []
    ensures Covers(a[1..], x) <==> Covers(a, x) && a[0].end < x
  {
    assert a == [a[0]] + a[1..];
    CoversCons(a[0], a[1..], x);
    SeparatedCons(a[0], a[1..]);
    if i :| 0 <= i < |a[1..]| && Holds(a[1..][i], x) {
      assert a[0].end < a[1..][i].start;
    }
  }

  /** A covered set has only one separated list. */
  lemma {:induction false} SeparatedIsCanonical(a: seq<Range>, b: seq<Range>)
    requires Separated(a) && Separated(b)
    requires forall x :: Covers(a, x) <==> Covers(b, x)
    ensures a == b
  {
    if a == [] || b == [] {
      if a != [] {
        FirstCovers(a, a[0].start);
      }
      if b != [] {
        FirstCovers(b, b[0].start);
      }
    } else {
      FirstStarts(a, b);
      FirstStarts(b, a);
      FirstEnds(a, b);
      FirstEnds(b, a);
      assert a[0] == b[0];
      assert a == [a[0]] + a[1..] && b == [b[0]] + b[1..];
      SeparatedCons(a[0], a[1..]);
      SeparatedCons(b[0], b[1..]);
      forall x ensures Covers(a[1..], x) <==> Covers(b[1..], x) {
        TailCovers(a, x);
        TailCovers(b, x);
      }
      SeparatedIsCanonical(a[1..], b[1..]);
    }
  }

  // ----- whole histories of calls -----

  datatype Call = Call(start: Number, end: Number)

  function After(calls: seq<Call>): seq<Range> {
    if calls == [] then []
    else
      var last := calls[|calls| - 1];
      Added(After(calls[..|calls| - 1]), last.start, last.end)
  }

  predicate Watched(c: Call, x: real) {
    Accepted(c.start, c.end) && Holds(Clamped(c.start.value, c.end.value), x)
  }

  lemma {:induction false} HistoryIsUnion(calls: seq<Call>)
    ensures Separated(After(calls))
    ensures forall i :: 0 <= i < |After(calls)| ==> 0.0 <= After(calls)[i].start
    ensures forall x :: Covers(After(calls), x) <==> exists c :: c in calls && Watched(c, x)
  {
    if calls != [] {
      var before, last := calls[..|calls| - 1], calls[|calls| - 1];
      HistoryIsUnion(before);
      assert calls == before + [last];
      if Accepted(last.start, last.end) {
        var r := Clamped(last.start.value, last.end.value);
        MergeSeparates(After(before), r, -1.0);
        MergeNotNegative(After(before), r);
        forall x ensures Covers(After(calls), x) <==> exists c :: c in calls && Watched(c, x) {
          MergeCovers(After(before), r, x);
          assert Holds(r, x) <==> Watched(last, x);
        }
      }
    }
  }

  lemma {:induction false} MergeNotNegative(ranges: seq<Range>, pending: Range)
    requires 0.0 <= pending.start && forall i :: 0 <= i < |ranges| ==> 0.0 <= ranges[i].start
    ensures forall i :: 0 <= i < |Merge(ranges, pending)| ==> 0.0 <= Merge(ranges, pending)[i].start
  {
    if ranges != [] {
      if ranges[0].end < pending.start {
        MergeNotNegative(ranges[1..], pending);
      } else if pending.end < ranges[0].start {
        MergeNotNegative(ranges[1..], ranges[0]);
      } else {
        MergeNotNegative(ranges[1..], Hull(pending, ranges[0]));
      }
    }
  }

  /** Order and repetition of the calls make no difference: seeking back and replaying adds nothing. */
  lemma OrderAndRepetitionDoNotMatter(a: seq<Call>, b: seq<Call>)
    requires forall c :: c in a <==> c in b
    ensures After(a) == After(b)
  {
    HistoryIsUnion(a);
    HistoryIsUnion(b);
    SeparatedIsCanonical(After(a), After(b));
  }

  // ----- lengths -----

  function Shared(a: Range, b: Range): real {
    Max(0.0, Min(a.end, b.end) - Max(a.start, b.start))
  }

  function Overlap(ranges: seq<Range>, r: Range): real {
    if ranges == [] then 0.0 else Shared(ranges[0], r) + Overlap(ranges[1..], r)
  }

  lemma {:induction false} OverlapAhead(ranges: seq<Range>, r: Range)
    requires Separated(ranges) && r.start <= r.end
    requires forall i :: 0 <= i < |ranges| ==> r.end < ranges[i].start
    ensures Overlap(ranges, r) == 0.0
  {
    if ranges != [] {
      assert ranges == [ranges[0]] + ranges[1..];
      SeparatedCons(ranges[0], ranges[1..]);
      OverlapAhead(ranges[1..], r);
    }
  }

  /** Growing a range backwards past everything ahead changes no overlap. */
  lemma {:induction false} OverlapSameEnd(ranges: seq<Range>, a: Range, b: Range)
    requires Separated(ranges) && a.start <= a.end && b.start <= b.end
    requires forall i :: 0 <= i < |ranges| ==> Shared(ranges[i], a) == Shared(ranges[i], b)
    ensures Overlap(ranges, a) == Overlap(ranges, b)
  {
    if ranges != [] {
      assert ranges == [ranges[0]] + ranges[1..];
      SeparatedCons(ranges[0], ranges[1..]);
      OverlapSameEnd(ranges[1..], a, b);
    }
  }

  /** Exact accounting: a call adds its own length less what was watched before. */
  lemma {:induction false} MergeLength(ranges: seq<Range>, pending: Range)
    requires Separated(ranges) && pending.start <= pending.end
    ensures Total(Merge(ranges, pending))
         == Total(ranges) + (pending.end - pending.start) - Overlap(ranges, pending)
  {
    if ranges != [] {
      var head, tail := ranges[0], ranges[1..];
      assert ranges == [head] + tail;
      SeparatedCons(head, tail);
      if head.end < pending.start {
        MergeLength(tail, pending);
      } else if pending.end < head.start {
        MergeLength(tail, head);
        OverlapAhead(tail, head);
        OverlapAhead(tail, pending);
      } else {
        var hull := Hull(pending, head);
        MergeLength(tail, hull);
        forall i | 0 <= i < |tail| ensures Shared(tail[i], hull) == Shared(tail[i], pending) {
          assert head.end < tail[i].start;
        }
        OverlapSameEnd(tail, hull, pending);
      }
    }
  }

  lemma {:induction false} OverlapBounded(ranges: seq<Range>, r: Range)
    requires Separated(ranges) && r.start <= r.end
    ensures 0.0 <= Overlap(ranges, r) <= r.end - r.start
    ensures ranges != [] ==> Overlap(ranges, r) <= Max(0.0, r.end - Max(r.start, ranges[0].start))
  {
    if ranges != [] {
      var head, tail := ranges[0], ranges[1..];
      assert ranges == [head] + tail;
      SeparatedCons(head, tail);
      OverlapBounded(tail, r);
    }
  }

  lemma {:induction false} TotalNotNegative(ranges: seq<Range>)
    requires Separated(ranges)
    ensures Total(ranges) >= 0.0
  {
    if ranges != [] {
      assert ranges == [ranges[0]] + ranges[1..];
      SeparatedCons(ranges[0], ranges[1..]);
      TotalNotNegative(ranges[1..]);
    }
  }

  /** One call never shortens the total and never adds more than its own length. */
  lemma AddedLength(ranges: seq<Range>, start: Number, end: Number)
    requires Separated(ranges)
    ensures Total(ranges) <= Total(Added(ranges, start, end))
    ensures PlayedMs(ranges) <= PlayedMs(Added(ranges, start, end))
    ensures Accepted(start, end) ==>
              var r := Clamped(start.value, end.value);
              Total(Added(ranges, start, end)) == Total(ranges) + (r.end - r.start) - Overlap(ranges, r)
              && Total(Added(ranges, start, end)) <= Total(ranges) + (end.value - start.value)
  {
    if Accepted(start, end) {
      var r := Clamped(start.value, end.value);
      MergeLength(ranges, r);
      OverlapBounded(ranges, r);
    }
  }

  function Requested(calls: seq<Call>): real {
    if calls == [] then 0.0
    else
      var last := calls[|calls| - 1];
      Requested(calls[..|calls| - 1])
      + if Accepted(last.start, last.end) then last.end.value - last.start.value else 0.0
  }

  lemma {:induction false} NeverInflated(calls: seq<Call>)
    ensures 0.0 <= Total(After(calls)) <= Requested(calls)
  {
    HistoryIsUnion(calls);
    TotalNotNegative(After(calls));
    if calls != [] {
      var before, last := calls[..|calls| - 1], calls[|calls| - 1];
      NeverInflated(before);
      HistoryIsUnion(before);
      AddedLength(After(before), last.start, last.end);
    }
  }
}
