/**
 What the progress reporter of frontend/src/hooks/use-media-progress.ts counts and sends, said from the
 events alone.
 */
module MediaHistory {
  import opened Wrappers
  import opened Playback
  import opened MediaProgress

  /** Is the page in the foreground? As the last visibility change says. */
  predicate Foreground(visible: bool, events: seq<Event>) {
    if events == [] then visible
    else
      var before, last := events[..|events| - 1], events[|events| - 1];
      if last.VisibilityChange? then last.m.visible else Foreground(visible, before)
  }

  /** Is the video playing? Since it was told so, and until it pauses, ends or waits. */
  predicate Rolling(events: seq<Event>) {
    events != []
    && (var before, last := events[..|events| - 1], events[|events| - 1];
        match last
        case Playing(_) => true
        case Pause(_) => false
        case Ended(_) => false
        case Waiting(_) => false
        case VisibilityChange(m) => (m.visible && !m.paused && !m.ended) || Rolling(before)
        case _ => Rolling(before))
  }

  /** The position from which the next stretch counts, if there is one. */
  function Position(events: seq<Event>): Option<real> {
    if events == [] then None
    else
      var before, last := events[..|events| - 1], events[|events| - 1];
      match last
      case Seeking => None
      case Waiting(_) => None
      case VisibilityChange(m) =>
        if !m.visible then None
        else if m.paused || m.ended then Position(before)
        else Some(m.currentTime)
      case _ => Some(last.m.currentTime)
  }

  lemma StepMoves(s: State, e: Event)
    ensures var s' := Step(s, e);
            && s'.foreground == (if e.VisibilityChange? then e.m.visible else s.foreground)
            && s'.playing == (match e
                              case Playing(_) => true
                              case Pause(_) => false
                              case Ended(_) => false
                              case Waiting(_) => false
                              case VisibilityChange(m) => (m.visible && !m.paused && !m.ended) || s.playing
                              case _ => s.playing)
            && s'.lastPosition == (match e
                                   case Seeking => None
                                   case Waiting(_) => None
                                   case VisibilityChange(m) =>
                                     if !m.visible then None
                                     else if m.paused || m.ended then s.lastPosition
                                     else Some(m.currentTime)
                                   case _ => Some(e.m.currentTime))
  {
    hide ReportNow, Added;
    if !e.Seeking? {
      var t := Sample(s, e.m);
      ReportMovesNothing(t, e.m);
      ReportMovesNothing(t.(playing := false), e.m);
      ReportMovesNothing(t.(playing := false, lastPosition := None), e.m);
      ReportMovesNothing(t.(foreground := false, lastPosition := None), e.m);
    }
  }

  lemma ReportMovesNothing(s: State, m: Media)
    ensures var s' := ReportNow(s, m);
            s'.foreground == s.foreground && s'.playing == s.playing && s'.lastPosition == s.lastPosition
  {
    hide Crossed, PlayedMs, DurationMs;
    var totalMs := DurationMs(m.duration);
    var playedMs := Least(PlayedMs(s.ranges), totalMs);
    EmitAllMovesNothing(s, Crossed(MILESTONES, s, playedMs, totalMs), playedMs, totalMs);
  }

  lemma {:induction false} EmitAllMovesNothing(s: State, crossed: seq<int>, playedMs: int, totalMs: int)
    ensures var s' := EmitAll(s, crossed, playedMs, totalMs);
            s'.foreground == s.foreground && s'.playing == s.playing && s'.lastPosition == s.lastPosition
    decreases crossed
  {
    if crossed != [] {
      EmitAllMovesNothing(Emit(s.(reported := s.reported + {crossed[0]}), crossed[0], playedMs, totalMs),
                          crossed[1..], playedMs, totalMs);
    }
  }

  /** The reporter's variables are what the events say. */
  lemma {:induction false} StateFollowsEvents(visible: bool, events: seq<Event>)
    ensures var s := Run(visible, events);
            s.foreground == Foreground(visible, events) && s.playing == Rolling(events)
            && s.lastPosition == Position(events)
  {
    hide Step;
    if events != [] {
      StateFollowsEvents(visible, events[..|events| - 1]);
      StepMoves(Run(visible, events[..|events| - 1]), events[|events| - 1]);
    }
  }

  /** Event `i` found the stretch of the timeline that holds instant `x` played: in the foreground, while
      rolling, not seeking, and no longer than fifteen seconds. Time before zero counts as zero. */
  predicate PlayedBy(visible: bool, events: seq<Event>, i: nat, x: real) {
    i < |events|
    && (var before, e := events[..i], events[i];
        && (e.TimeUpdate? || e.Pause? || e.Ended? || e.Waiting? || e.Unmount? || (e.VisibilityChange? && !e.m.visible))
        && Foreground(visible, before) && Rolling(before) && !e.m.seeking
        && Position(before).Some?
        && (var from, to := Position(before).value, e.m.currentTime;
            from < to <= from + 15.0 && from <= x <= Max(0.0, to) && 0.0 <= x))
  }

  /** Said of the events alone: an instant of the timeline is counted if and only if some event found it
      played. */
  lemma CountedIffPlayed(visible: bool, events: seq<Event>, x: real)
    ensures Covers(Run(visible, events).ranges, x) <==> exists i: nat :: PlayedBy(visible, events, i, x)
  {
    hide Run, Covers, Foreground, Rolling, Position;
    HistoryIsPlayed(visible, events, x);
    forall i: nat ensures PlayedBy(visible, events, i, x) <==> PlayedAt(visible, events, i, x) {
      if i < |events| {
        StateFollowsEvents(visible, events[..i]);
      }
    }
    if i :| PlayedAt(visible, events, i, x) {
      InRange(visible, events, i, x);
      assert PlayedBy(visible, events, i, x);
    }
    if i: nat :| PlayedBy(visible, events, i, x) {
      assert PlayedAt(visible, events, i, x);
    }
  }

  // ----- calls of the tracker -----

  /** A call covers an instant if both its ends are finite, the end is later, and the instant lies between
      them, moved up to zero where they are negative. */
  lemma WatchedIff(c: Call, x: real)
    ensures Watched(c, x)
       <==> && c.start.Finite? && c.end.Finite? && c.start.value < c.end.value
            && x >= 0.0 && x >= c.start.value && (x <= c.end.value || x == 0.0)
  {
  }

  // ----- durations -----

  /** The played time in whole milliseconds, rounded to the nearest, half up. */
  lemma PlayedIsRounded(ranges: seq<Range>)
    ensures PlayedMs(ranges) as real - 0.5 <= Total(ranges) * 1000.0 < PlayedMs(ranges) as real + 0.5
  {
  }

  /** The duration in whole milliseconds, rounded to the nearest, half up; at most four hours; zero if it is
      not a positive number. */
  lemma DurationIsRounded(d: Number)
    ensures d.NotFinite? ==> DurationMs(d) == 0
    ensures d.Finite? && d.value * 1000.0 < 0.5 ==> DurationMs(d) == 0
    ensures d.Finite? && 0.5 <= d.value * 1000.0 < 14_399_999.5 ==>
              DurationMs(d) as real - 0.5 <= d.value * 1000.0 < DurationMs(d) as real + 0.5
    ensures d.Finite? && d.value * 1000.0 >= 14_399_999.5 ==> DurationMs(d) == 14_400_000
  {
  }

  // ----- reports -----

  /** What a report sends at this moment, milestone by milestone. */
  predicate NewMilestone(s: State, playedMs: int, totalMs: int, x: int) {
    x in {25, 50, 75, 95} && x !in s.reported && playedMs * 100 >= x * totalMs
  }

  lemma {:induction false} CrossedIff(milestones: seq<int>, s: State, playedMs: int, totalMs: int, x: int)
    ensures x in Crossed(milestones, s, playedMs, totalMs)
       <==> x in milestones && x !in s.reported && playedMs * 100 >= x * totalMs
  {
    if milestones != [] {
      CrossedIff(milestones[1..], s, playedMs, totalMs, x);
      assert milestones == [milestones[0]] + milestones[1..];
    }
  }

  lemma {:induction false} EmitAllSends(s: State, crossed: seq<int>, playedMs: int, totalMs: int)
    ensures var s' := EmitAll(s, crossed, playedMs, totalMs);
            && |s'.sent| == |s.sent| + |crossed| && s.sent <= s'.sent
            && (forall k :: |s.sent| <= k < |s'.sent| ==>
                  s'.sent[k] == Report(playedMs, totalMs, s.sequence + (k - |s.sent|) + 1, crossed[k - |s.sent|]))
    decreases crossed
  {
    if crossed != [] {
      var s1 := Emit(s.(reported := s.reported + {crossed[0]}), crossed[0], playedMs, totalMs);
      EmitAllSends(s1, crossed[1..], playedMs, totalMs);
    }
  }

  /** A report with a known duration and more played than before sends one observation for each milestone
      newly reached; with none reached it sends one without a milestone if five seconds more have been played
      than at the last one, and otherwise nothing. Each carries the played time, at most the duration. */
  lemma ReportsSay(s: State, m: Media)
    ensures var totalMs := DurationMs(m.duration);
            var playedMs := if PlayedMs(s.ranges) < totalMs then PlayedMs(s.ranges) else totalMs;
            var s' := ReportNow(s, m);
            if totalMs == 0 || playedMs <= s.lastReportedMs then s' == s
            else
              && s.sent <= s'.sent
              && (forall k :: |s.sent| <= k < |s'.sent| ==>
                    s'.sent[k].playedMs == playedMs && s'.sent[k].totalMs == totalMs)
              && (if exists x :: NewMilestone(s, playedMs, totalMs, x) then
                    forall x :: NewMilestone(s, playedMs, totalMs, x)
                      <==> exists k :: |s.sent| <= k < |s'.sent| && s'.sent[k].milestone == x
                  else if playedMs - s.lastReportedMs >= 5000 then
                    s'.sent == s.sent + [Report(playedMs, totalMs, s.sequence + 1, 0)]
                  else s' == s)
  {
    hide DurationMs, PlayedMs, Crossed;
    var totalMs := DurationMs(m.duration);
    var playedMs := Least(PlayedMs(s.ranges), totalMs);
    var crossed := Crossed(MILESTONES, s, playedMs, totalMs);
    forall x ensures NewMilestone(s, playedMs, totalMs, x) <==> x in crossed {
      CrossedIff(MILESTONES, s, playedMs, totalMs, x);
    }
    EmitAllSends(s, crossed, playedMs, totalMs);
    if totalMs != 0 && playedMs > s.lastReportedMs && crossed != [] {
      var s' := ReportNow(s, m);
      assert crossed[0] in crossed;
      forall x ensures x in crossed <==> exists k :: |s.sent| <= k < |s'.sent| && s'.sent[k].milestone == x {
        if x in crossed {
          var i :| 0 <= i < |crossed| && crossed[i] == x;
          assert s'.sent[|s.sent| + i].milestone == x;
        }
        if k :| |s.sent| <= k < |s'.sent| && s'.sent[k].milestone == x {
          assert crossed[k - |s.sent|] == x;
        }
      }
    }
  }
}
