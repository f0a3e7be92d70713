/** The progress reporter of frontend/src/hooks/use-media-progress.ts: one mounted video and its events. */
module MediaProgress {
  import opened Playback
  import opened Wrappers

  const REPORT_INTERVAL_MS := 5_000
  const MAX_MEDIA_DURATION_MS := 14_400_000
  const MILESTONES: seq<int> := [25, 50, 75, 95]

  datatype Report = Report(playedMs: int, totalMs: int, sequence: nat, milestone: int)

  /** What a handler reads from the element and the document. */
  datatype Media = Media(
    currentTime: real, duration: Number, seeking: bool, paused: bool, ended: bool, visible: bool)

  datatype Event =
    | Playing(m: Media)
    | TimeUpdate(m: Media)
    | Pause(m: Media)
    | Ended(m: Media)
    | Waiting(m: Media)
    | Seeking
    | Seeked(m: Media)
    | VisibilityChange(m: Media)
    | Unmount(m: Media)

  datatype State = State(
    ranges: seq<Range>,
    reported: set<int>,
    lastPosition: Option<real>,
    lastReportedMs: int,
    sequence: nat,
    foreground: bool,
    playing: bool,
    sent: seq<Report>)

  function Initial(visible: bool): State {
    State([], {}, None, 0, 0, visible, false, [])
  }

  function DurationMs(d: Number): int {
    if d.NotFinite? then 0
    else
      var value := (d.value * 1000.0 + 0.5).Floor;
      if value <= 0 then 0
      else if value < MAX_MEDIA_DURATION_MS then value else MAX_MEDIA_DURATION_MS
  }

  function Sample(s: State, m: Media): State {
    var s1 :=
      if s.foreground && s.playing && !m.seeking
         && s.lastPosition.Some? && m.currentTime - s.lastPosition.value <= 15.0
      then s.(ranges := Added(s.ranges, Finite(s.lastPosition.value), Finite(m.currentTime)))
      else s;
    s1.(lastPosition := Some(m.currentTime))
  }

  function Emit(s: State, milestone: int, playedMs: int, totalMs: int): State {
    s.(sequence := s.sequence + 1,
       sent := s.sent + [Report(playedMs, totalMs, s.sequence + 1, milestone)],
       lastReportedMs := if s.lastReportedMs > playedMs then s.lastReportedMs else playedMs)
  }

  /** `completion >= milestone / 100`, cross-multiplied. */
  predicate Attained(milestone: int, playedMs: int, totalMs: int) {
    playedMs * 100 >= milestone * totalMs
  }

  /** The milestones attained and not yet reported. */
  function Crossed(milestones: seq<int>, s: State, playedMs: int, totalMs: int): seq<int> {
    if milestones == [] then []
    else
      (if Attained(milestones[0], playedMs, totalMs) && milestones[0] !in s.reported then [milestones[0]] else [])
      + Crossed(milestones[1..], s, playedMs, totalMs)
  }

  function EmitAll(s: State, crossed: seq<int>, playedMs: int, totalMs: int): State
    decreases crossed
  {
    if crossed == [] then s
    else
      EmitAll(Emit(s.(reported := s.reported + {crossed[0]}), crossed[0], playedMs, totalMs),
              crossed[1..], playedMs, totalMs)
  }

  function Least(a: int, b: int): int { if a < b then a else b }

  function ReportNow(s: State, m: Media): State {
    var totalMs := DurationMs(m.duration);
    if totalMs == 0 then s
    else
      var playedMs := Least(PlayedMs(s.ranges), totalMs);
      if playedMs <= s.lastReportedMs then s
      else
        var crossed := Crossed(MILESTONES, s, playedMs, totalMs);
        if crossed != [] then EmitAll(s, crossed, playedMs, totalMs)
        else if playedMs - s.lastReportedMs >= REPORT_INTERVAL_MS then Emit(s, 0, playedMs, totalMs)
        else s
  }

  function Step(s: State, e: Event): State {
    match e
    case Playing(m) => s.(playing := true, lastPosition := Some(m.currentTime))
    case TimeUpdate(m) => ReportNow(Sample(s, m), m)
    case Pause(m) => ReportNow(Sample(s, m).(playing := false), m)
    case Ended(m) => ReportNow(Sample(s, m).(playing := false), m)
    case Waiting(m) => ReportNow(Sample(s, m).(playing := false, lastPosition := None), m)
    case Seeking => s.(lastPosition := None)
    case Seeked(m) => s.(lastPosition := Some(m.currentTime))
    case VisibilityChange(m) =>
      if !m.visible then ReportNow(Sample(s, m).(foreground := false, lastPosition := None), m)
      else if !m.paused && !m.ended then s.(foreground := true, playing := true, lastPosition := Some(m.currentTime))
      else s.(foreground := true)
    case Unmount(m) => ReportNow(Sample(s, m), m)
  }

  function Run(visible: bool, events: seq<Event>): State {
    if events == [] then Initial(visible)
    else Step(Run(visible, events[..|events| - 1]), events[|events| - 1])
  }

  /** The closure variables of the effect, changed by its handlers. */
  class Reporter {
    const tracker: UniquePlaybackTracker
    var reportedMilestones: set<int>
    var lastPositionSeconds: Option<real>
    var lastReportedPlayedMs: int
    var playbackSequence: nat
    var foreground: bool
    var playing: bool
    var sent: seq<Report>

    constructor (visible: bool)
      ensures fresh(tracker) && View() == Initial(visible)
    {
      tracker := new UniquePlaybackTracker();
      reportedMilestones, lastPositionSeconds, lastReportedPlayedMs := {}, None, 0;
      playbackSequence, foreground, playing, sent := 0, visible, false, [];
    }

    function View(): State
      reads this, tracker
    {
      State(tracker.ranges, reportedMilestones, lastPositionSeconds, lastReportedPlayedMs,
            playbackSequence, foreground, playing, sent)
    }

    method SampleNow(m: Media)
      modifies this, tracker
      ensures View() == Sample(old(View()), m)
    {
      var current := m.currentTime;
      if foreground && playing && !m.seeking
         && lastPositionSeconds.Some? && current - lastPositionSeconds.value <= 15.0 {
        tracker.Add(Finite(lastPositionSeconds.value), Finite(current));
      }
      lastPositionSeconds := Some(current);
    }

    method EmitOne(milestone: int, playedMs: int, totalMs: int)
      modifies this
      ensures View() == Emit(old(View()), milestone, playedMs, totalMs)
    {
      playbackSequence := playbackSequence + 1;
      sent := sent + [Report(playedMs, totalMs, playbackSequence, milestone)];
      lastReportedPlayedMs := if lastReportedPlayedMs > playedMs then lastReportedPlayedMs else playedMs;
    }

    method ReportProgress(m: Media)
      modifies this
      ensures View() == ReportNow(old(View()), m)
    {
      hide DurationMs, PlayedMs, Crossed;
      var totalMs := DurationMs(m.duration);
      if totalMs == 0 { return; }
      var playedMs := Least(tracker.Played(), totalMs);
      if playedMs <= lastReportedPlayedMs { return; }
      var crossed := Crossed(MILESTONES, View(), playedMs, totalMs);
      var i := 0;
      while i < |crossed|
        invariant i <= |crossed|
        invariant EmitAll(old(View()), crossed, playedMs, totalMs)
               == EmitAll(View(), crossed[i..], playedMs, totalMs)
        invariant i == 0 ==> View() == old(View())
      {
        assert crossed[i..][1..] == crossed[i + 1..];
        reportedMilestones := reportedMilestones + {crossed[i]};
        EmitOne(crossed[i], playedMs, totalMs);
        i := i + 1;
      }
      if crossed == [] && playedMs - lastReportedPlayedMs >= REPORT_INTERVAL_MS {
        EmitOne(0, playedMs, totalMs);
      }
    }

    method Handle(e: Event)
      modifies this, tracker
      ensures View() == Step(old(View()), e)
    {
      match e
      case Playing(m) =>
        playing := true;
        lastPositionSeconds := Some(m.currentTime);
      case TimeUpdate(m) =>
        SampleNow(m);
        ReportProgress(m);
      case Pause(m) =>
        SampleNow(m);
        playing := false;
        ReportProgress(m);
      case Ended(m) =>
        SampleNow(m);
        playing := false;
        ReportProgress(m);
      case Waiting(m) =>
        SampleNow(m);
        playing := false;
        lastPositionSeconds := None;
        ReportProgress(m);
      case Seeking =>
        lastPositionSeconds := None;
      case Seeked(m) =>
        lastPositionSeconds := Some(m.currentTime);
      case VisibilityChange(m) =>
        if !m.visible {
          SampleNow(m);
          foreground := false;
          lastPositionSeconds := None;
          ReportProgress(m);
        } else {
          foreground := true;
          if !m.paused && !m.ended {
            playing := true;
            lastPositionSeconds := Some(m.currentTime);
          }
        }
      case Unmount(m) =>
        SampleNow(m);
        ReportProgress(m);
    }
  }

  // ----- every run -----

  /** The non-zero milestones among the reports, in the order sent. */
  function Milestones(sent: seq<Report>): seq<int> {
    if sent == [] then []
    else
      var last := sent[|sent| - 1];
      Milestones(sent[..|sent| - 1]) + if last.milestone != 0 then [last.milestone] else []
  }

  /** Reports count up, played time never falls, and no milestone is claimed before it is attained. */
  ghost predicate Counted(s: State) {
    && s.sequence == |s.sent|
    && s.lastReportedMs == (if s.sent == [] then 0 else s.sent[|s.sent| - 1].playedMs)
    && (forall i :: 0 <= i < |s.sent| ==>
          && s.sent[i].sequence == i + 1
          && 0 < s.sent[i].playedMs <= s.sent[i].totalMs
          && (s.sent[i].milestone != 0 ==> Attained(s.sent[i].milestone, s.sent[i].playedMs, s.sent[i].totalMs)))
    && (forall i, j :: 0 <= i <= j < |s.sent| ==> s.sent[i].playedMs <= s.sent[j].playedMs)
  }

  ghost predicate Orderly(s: State) {
    && Separated(s.ranges)
    && Counted(s)
    && Milestones(s.sent) <= MILESTONES
    && s.reported == Elements(Milestones(s.sent))
  }

  function Elements(s: seq<int>): set<int> {
    set x | x in s
  }

  lemma EmitKeepsCounted(s: State, milestone: int, playedMs: int, totalMs: int)
    requires Counted(s) && s.lastReportedMs <= playedMs && 0 < playedMs <= totalMs
    requires milestone != 0 ==> Attained(milestone, playedMs, totalMs)
    ensures Counted(Emit(s, milestone, playedMs, totalMs))
    ensures Emit(s, milestone, playedMs, totalMs).lastReportedMs == playedMs
  {
    hide Attained;
  }

  lemma EmitKeepsOrderly(s: State, milestone: int, playedMs: int, totalMs: int)
    requires Orderly(s) && s.lastReportedMs <= playedMs && 0 < playedMs <= totalMs
    requires milestone != 0 ==> Attained(milestone, playedMs, totalMs)
    requires milestone != 0 ==> Milestones(s.sent) + [milestone] <= MILESTONES
    ensures var s' := Emit(s.(reported := s.reported + if milestone != 0 then {milestone} else {}),
                           milestone, playedMs, totalMs);
            Orderly(s') && s'.lastReportedMs == playedMs
            && Milestones(s'.sent) == Milestones(s.sent) + if milestone != 0 then [milestone] else []
  {
    hide Attained, Counted;
    var s0 := s.(reported := s.reported + if milestone != 0 then {milestone} else {});
    assert Counted(s0) by { CountedIgnoresReported(s, s0.reported); }
    EmitKeepsCounted(s0, milestone, playedMs, totalMs);
    var report := Report(playedMs, totalMs, s.sequence + 1, milestone);
    assert (s.sent + [report])[..|s.sent|] == s.sent;
    assert Milestones(s.sent + [report]) == Milestones(s.sent) + if milestone != 0 then [milestone] else [];
  }

  lemma CountedIgnoresReported(s: State, reported: set<int>)
    requires Counted(s)
    ensures Counted(s.(reported := reported))
  {
    hide Attained;
  }

  /** The crossed milestones are the next ones in the list, without a gap. */
  lemma CrossedIsNext(s: State, playedMs: int, totalMs: int)
    requires Orderly(s) && totalMs > 0
    ensures Milestones(s.sent) + Crossed(MILESTONES, s, playedMs, totalMs) <= MILESTONES
    ensures forall x :: x in Crossed(MILESTONES, s, playedMs, totalMs) ==> x != 0 && Attained(x, playedMs, totalMs)
  {
    hide Attained, Crossed, Counted;
    var k := |Milestones(s.sent)|;
    assert Milestones(s.sent) == MILESTONES[..k];
    CrossedFrom(0, k, s, playedMs, totalMs);
    assert MILESTONES[0..] == MILESTONES;
  }

  lemma MilestonesAscend(i: nat, j: nat)
    requires i < j < |MILESTONES|
    ensures 0 < MILESTONES[i] < MILESTONES[j]
  {
  }

  lemma AttainedBelow(a: int, b: int, playedMs: int, totalMs: int)
    requires a <= b && totalMs > 0 && Attained(b, playedMs, totalMs)
    ensures Attained(a, playedMs, totalMs)
  {
    assert a * totalMs <= b * totalMs;
  }

  /** Behind a milestone that is not attained none is. */
  lemma {:induction false} NoneCrossed(i: nat, s: State, playedMs: int, totalMs: int)
    requires i < |MILESTONES| && totalMs > 0 && !Attained(MILESTONES[i], playedMs, totalMs)
    ensures Crossed(MILESTONES[i..], s, playedMs, totalMs) == []
    decreases |MILESTONES| - i
  {
    hide Attained;
    assert MILESTONES[i..][1..] == MILESTONES[i + 1..];
    if i + 1 < |MILESTONES| {
      MilestonesAscend(i, i + 1);
      if Attained(MILESTONES[i + 1], playedMs, totalMs) {
        AttainedBelow(MILESTONES[i], MILESTONES[i + 1], playedMs, totalMs);
      }
      NoneCrossed(i + 1, s, playedMs, totalMs);
    }
  }

  lemma {:induction false} CrossedFrom(i: nat, k: nat, s: State, playedMs: int, totalMs: int)
    requires i <= |MILESTONES| && k <= |MILESTONES| && totalMs > 0
    requires s.reported == Elements(MILESTONES[..k])
    ensures var c := Crossed(MILESTONES[i..], s, playedMs, totalMs);
            var n := if i < k then k else i;
            && n + |c| <= |MILESTONES| && c == MILESTONES[n..n + |c|]
            && forall x :: x in c ==> x != 0 && Attained(x, playedMs, totalMs)
    decreases |MILESTONES| - i
  {
    hide Attained, Elements;
    if i < |MILESTONES| {
      ReportedIff(i, k);
      if !Attained(MILESTONES[i], playedMs, totalMs) {
        NoneCrossed(i, s, playedMs, totalMs);
      } else {
        CrossedFrom(i + 1, k, s, playedMs, totalMs);
        var rest := Crossed(MILESTONES[i + 1..], s, playedMs, totalMs);
        assert MILESTONES[i..][1..] == MILESTONES[i + 1..];
        if i >= k {
          assert [MILESTONES[i]] + MILESTONES[i + 1..i + 1 + |rest|] == MILESTONES[i..i + 1 + |rest|];
        }
      }
    }
  }

  lemma ReportedIff(i: nat, k: nat)
    requires i < |MILESTONES| && k <= |MILESTONES|
    ensures MILESTONES[i] in Elements(MILESTONES[..k]) <==> i < k
    ensures MILESTONES[i] != 0
  {
    if i < k {
      assert MILESTONES[..k][i] == MILESTONES[i];
    }
    assert forall a, b :: 0 <= a < b < |MILESTONES| ==> MILESTONES[a] < MILESTONES[b];
  }

  lemma {:induction false} EmitAllKeepsOrderly(s: State, crossed: seq<int>, playedMs: int, totalMs: int)
    requires Orderly(s) && s.lastReportedMs <= playedMs && 0 < playedMs <= totalMs
    requires forall x :: x in crossed ==> x != 0 && Attained(x, playedMs, totalMs)
    requires Milestones(s.sent) + crossed <= MILESTONES
    ensures Orderly(EmitAll(s, crossed, playedMs, totalMs))
    decreases crossed
  {
    hide Orderly, Attained;
    if crossed != [] {
      assert Milestones(s.sent) + crossed == Milestones(s.sent) + [crossed[0]] + crossed[1..];
      assert crossed[0] in crossed && forall x :: x in crossed[1..] ==> x in crossed;
      EmitKeepsOrderly(s, crossed[0], playedMs, totalMs);
      var s1 := Emit(s.(reported := s.reported + {crossed[0]}), crossed[0], playedMs, totalMs);
      EmitAllKeepsOrderly(s1, crossed[1..], playedMs, totalMs);
    }
  }

  lemma ReportKeepsOrderly(s: State, m: Media)
    requires Orderly(s)
    ensures Orderly(ReportNow(s, m))
  {
    hide Orderly, Crossed, Attained;
    var totalMs := DurationMs(m.duration);
    var playedMs := Least(PlayedMs(s.ranges), totalMs);
    if totalMs != 0 && playedMs > s.lastReportedMs {
      LastReportedNotNegative(s);
      CrossedIsNext(s, playedMs, totalMs);
      var crossed := Crossed(MILESTONES, s, playedMs, totalMs);
      if crossed != [] {
        EmitAllKeepsOrderly(s, crossed, playedMs, totalMs);
      } else {
        EmitKeepsOrderly(s, 0, playedMs, totalMs);
        assert s.(reported := s.reported + {}) == s;
      }
    }
  }

  lemma LastReportedNotNegative(s: State)
    requires Orderly(s)
    ensures s.lastReportedMs >= 0
  {
  }

  lemma SampleKeepsOrderly(s: State, m: Media)
    requires Orderly(s)
    ensures Orderly(Sample(s, m))
  {
    if s.lastPosition.Some? && s.lastPosition.value < m.currentTime {
      var r := Clamped(s.lastPosition.value, m.currentTime);
      var low := Lower(s.ranges, r.start);
      MergeSeparates(s.ranges, r, low);
    }
  }

  /** A number below every start. */
  lemma {:induction false} Lower(ranges: seq<Range>, x: real) returns (low: real)
    ensures low < x && forall i :: 0 <= i < |ranges| ==> low < ranges[i].start
  {
    if ranges == [] {
      low := x - 1.0;
    } else {
      low := Lower(ranges[1..], Min(x, ranges[0].start));
      forall i | 0 <= i < |ranges| ensures low < ranges[i].start {
        assert i > 0 ==> ranges[i] == ranges[1..][i - 1];
      }
    }
  }

  lemma Reposition(s: State, foreground: bool, playing: bool, lastPosition: Option<real>)
    requires Orderly(s)
    ensures Orderly(s.(foreground := foreground, playing := playing, lastPosition := lastPosition))
  {
  }

  lemma StepKeepsOrderly(s: State, e: Event)
    requires Orderly(s)
    ensures Orderly(Step(s, e))
  {
    hide Orderly, ReportNow, Sample;
    if !e.Seeking? {
      SampleKeepsOrderly(s, e.m);
      var t := Sample(s, e.m);
      Reposition(t, t.foreground, false, t.lastPosition);
      Reposition(t, t.foreground, false, None);
      Reposition(t, false, t.playing, None);
      Reposition(s, true, true, Some(e.m.currentTime));
      Reposition(s, s.foreground, true, Some(e.m.currentTime));
      Reposition(s, s.foreground, s.playing, Some(e.m.currentTime));
      Reposition(s, true, s.playing, s.lastPosition);
      ReportKeepsOrderly(t, e.m);
      ReportKeepsOrderly(t.(playing := false), e.m);
      ReportKeepsOrderly(t.(playing := false, lastPosition := None), e.m);
      ReportKeepsOrderly(t.(foreground := false, lastPosition := None), e.m);
    } else {
      Reposition(s, s.foreground, s.playing, None);
    }
  }

  /** Over any run, with the duration changing as it likes: sequence numbers count up from one, played
      time never falls and never exceeds the duration it is reported with, and the milestones sent are
      the first few of 25, 50, 75, 95, each once, in order, and each reached. */
  lemma {:induction false} RunsAreOrderly(visible: bool, events: seq<Event>)
    ensures Orderly(Run(visible, events))
  {
    hide Step;
    if events != [] {
      RunsAreOrderly(visible, events[..|events| - 1]);
      StepKeepsOrderly(Run(visible, events[..|events| - 1]), events[|events| - 1]);
    }
  }

  // ----- what counts as played, and that attained milestones are sent -----

  /** Does the handler of this event take a sample? */
  predicate Samples(e: Event) {
    e.TimeUpdate? || e.Pause? || e.Ended? || e.Waiting? || e.Unmount? || (e.VisibilityChange? && !e.m.visible)
  }

  /** The media played through instant `x` of its timeline between the last position and this event: in
      the foreground, not seeking, and with no jump of more than fifteen seconds. */
  predicate PlayedThrough(s: State, e: Event, x: real) {
    && Samples(e) && s.foreground && s.playing && !e.m.seeking
    && s.lastPosition.Some? && e.m.currentTime - s.lastPosition.value <= 15.0
    && Watched(Call(Finite(s.lastPosition.value), Finite(e.m.currentTime)), x)
  }

  lemma {:induction false} EmitAllKeepsRanges(s: State, crossed: seq<int>, playedMs: int, totalMs: int)
    ensures EmitAll(s, crossed, playedMs, totalMs).ranges == s.ranges
    ensures EmitAll(s, crossed, playedMs, totalMs).reported == s.reported + Elements(crossed)
    decreases crossed
  {
    if crossed != [] {
      EmitAllKeepsRanges(Emit(s.(reported := s.reported + {crossed[0]}), crossed[0], playedMs, totalMs),
                         crossed[1..], playedMs, totalMs);
      assert crossed == [crossed[0]] + crossed[1..];
      assert Elements(crossed) == {crossed[0]} + Elements(crossed[1..]);
    }
  }

  lemma ReportKeepsRanges(s: State, m: Media)
    ensures ReportNow(s, m).ranges == s.ranges
  {
    var totalMs := DurationMs(m.duration);
    var playedMs := Least(PlayedMs(s.ranges), totalMs);
    EmitAllKeepsRanges(s, Crossed(MILESTONES, s, playedMs, totalMs), playedMs, totalMs);
  }

  lemma StepRanges(s: State, e: Event)
    ensures Step(s, e).ranges == if Samples(e) then Sample(s, e.m).ranges else s.ranges
  {
    hide ReportNow, Sample;
    if Samples(e) {
      var t := Sample(s, e.m);
      ReportKeepsRanges(t, e.m);
      ReportKeepsRanges(t.(playing := false), e.m);
      ReportKeepsRanges(t.(playing := false, lastPosition := None), e.m);
      ReportKeepsRanges(t.(foreground := false, lastPosition := None), e.m);
    }
  }

  lemma StepCovers(s: State, e: Event, x: real)
    requires Orderly(s)
    ensures Covers(Step(s, e).ranges, x) <==> Covers(s.ranges, x) || PlayedThrough(s, e, x)
  {
    hide Step, Merge, Covers;
    StepRanges(s, e);
    if Samples(e) && s.lastPosition.Some? && s.lastPosition.value < e.m.currentTime {
      MergeCovers(s.ranges, Clamped(s.lastPosition.value, e.m.currentTime), x);
    }
  }

  predicate PlayedAt(visible: bool, events: seq<Event>, i: nat, x: real) {
    i < |events| && PlayedThrough(Run(visible, events[..i]), events[i], x)
  }

  lemma PlayedAtPrefix(visible: bool, events: seq<Event>, i: nat, x: real)
    requires i < |events| - 1
    ensures PlayedAt(visible, events, i, x) <==> PlayedAt(visible, events[..|events| - 1], i, x)
  {
    hide PlayedThrough, Run;
    assert events[..|events| - 1][..i] == events[..i];
  }

  /** The played time counts exactly the instants that some event found played through: nothing skipped,
      nothing in the background or while paused. */
  lemma {:induction false} HistoryIsPlayed(visible: bool, events: seq<Event>, x: real)
    ensures Covers(Run(visible, events).ranges, x) <==> exists i :: PlayedAt(visible, events, i, x)
  {
    hide Step, PlayedThrough, Covers, Orderly, PlayedAt;
    if events == [] {
      NothingPlayed(visible, x);
    } else {
      var n := |events| - 1;
      HistoryIsPlayed(visible, events[..n], x);
      RunsAreOrderly(visible, events[..n]);
      StepCovers(Run(visible, events[..n]), events[n], x);
      LastPlayed(visible, events, x);
      if i :| PlayedAt(visible, events[..n], i, x) {
        InRange(visible, events[..n], i, x);
        PlayedAtPrefix(visible, events, i, x);
      }
      if i :| PlayedAt(visible, events, i, x) && i != n {
        InRange(visible, events, i, x);
        PlayedAtPrefix(visible, events, i, x);
      }
    }
  }

  lemma InRange(visible: bool, events: seq<Event>, i: nat, x: real)
    requires PlayedAt(visible, events, i, x)
    ensures i < |events|
  {
  }

  lemma NothingPlayed(visible: bool, x: real)
    ensures !Covers(Run(visible, []).ranges, x) && forall i :: !PlayedAt(visible, [], i, x)
  {
  }

  lemma LastPlayed(visible: bool, events: seq<Event>, x: real)
    requires events != []
    ensures var n := |events| - 1;
            PlayedAt(visible, events, n, x) <==> PlayedThrough(Run(visible, events[..n]), events[n], x)
  {
    hide PlayedThrough, Run;
  }

  lemma {:induction false} CrossedHas(milestones: seq<int>, s: State, playedMs: int, totalMs: int, x: int)
    requires x in milestones && Attained(x, playedMs, totalMs)
    ensures x in s.reported || x in Crossed(milestones, s, playedMs, totalMs)
  {
    hide Attained;
    if milestones[0] != x {
      CrossedHas(milestones[1..], s, playedMs, totalMs, x);
    }
  }

  /** A report that has anything new to say leaves no attained milestone unsent. */
  lemma AttainedIsSent(visible: bool, events: seq<Event>, m: Media, x: int)
    requires x in MILESTONES
    ensures var s := Run(visible, events);
            var totalMs := DurationMs(m.duration);
            var playedMs := Least(PlayedMs(s.ranges), totalMs);
            totalMs > 0 && playedMs > s.lastReportedMs && Attained(x, playedMs, totalMs) ==>
              x in Milestones(ReportNow(s, m).sent)
  {
    hide Run, Orderly, Attained, Crossed, DurationMs;
    RunsAreOrderly(visible, events);
    var s := Run(visible, events);
    var totalMs := DurationMs(m.duration);
    var playedMs := Least(PlayedMs(s.ranges), totalMs);
    if totalMs > 0 && playedMs > s.lastReportedMs && Attained(x, playedMs, totalMs) {
      ReportKeepsOrderly(s, m);
      CrossedHas(MILESTONES, s, playedMs, totalMs, x);
      EmitAllKeepsRanges(s, Crossed(MILESTONES, s, playedMs, totalMs), playedMs, totalMs);
      ReportedIsSent(ReportNow(s, m), x);
    }
  }

  lemma ReportedIsSent(s: State, x: int)
    requires Orderly(s)
    ensures x in s.reported <==> x in Milestones(s.sent)
  {
  }
}
