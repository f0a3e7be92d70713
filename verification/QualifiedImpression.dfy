/**
 Qualified impressions and dwell reports: frontend/src/hooks/use-qualified-impression.ts. Any number of
 cards share the page, its visibility and the set of tokens already observed. Times are milliseconds.
 */
module QualifiedImpression {
  import opened Wrappers

  type Token = string

  const MIN_VISIBLE_FRACTION := 0.5
  const MIN_VISIBLE_DURATION_MS := 1000.0
  const MAX_DWELL_MS := 3600000

  datatype Report = Impression(fraction: real) | Dwell(activeMs: int, sequence: nat)

  /** A report as sent, with the card it came from. */
  datatype Entry = Entry(card: nat, token: Token, report: Report)

  /** `seen[k]` belongs to the specification: how long the card had really been visible when entry `k`
      was sent, without a break for an impression and in all for a dwell report. */
  datatype Page = Page(observed: set<Token>, visible: bool, sent: seq<Entry>, seen: seq<real>)

  /** The variables of one mounted effect. `since` and `seenBefore` belong to the specification: the
      start of the present qualifying visibility and the length of the earlier ones. */
  datatype Card = Card(
    id: nat, token: Token, active: bool,
    timer: Option<real>, ticking: bool, fraction: real,
    startedAt: Option<real>, dwell: real, lastReported: int, sequence: nat, qualified: bool,
    since: Option<real>, seenBefore: real)

  datatype Local = Local(card: Card, page: Page)

  function Min(a: real, b: real): real { if a < b then a else b }

  function Round(x: real): int { (x + 0.5).Floor }

  function Capped(x: real): real { Min(MAX_DWELL_MS as real, x) }

  function Seen(c: Card, now: real): real {
    c.seenBefore + if c.since.Some? then now - c.since.value else 0.0
  }

  // ----- the closures -----

  function Accumulate(c: Card, now: real): Card {
    if c.startedAt.None? then c
    else c.(dwell := Min(MAX_DWELL_MS as real, c.dwell + now - c.startedAt.value), startedAt := Some(now))
  }

  function ReportDwell(l: Local, now: real): Local {
    var c := Accumulate(l.card, now);
    var rounded := Round(c.dwell);
    if !c.qualified || rounded <= c.lastReported then l.(card := c)
    else
      var c1 := c.(sequence := c.sequence + 1, lastReported := rounded);
      var entry := Entry(c.id, c.token, Dwell(rounded, c.sequence + 1));
      Local(if c1.dwell >= MAX_DWELL_MS as real && c1.ticking then c1.(ticking := false, startedAt := None) else c1,
            l.page.(sent := l.page.sent + [entry], seen := l.page.seen + [Seen(c, now)]))
  }

  function StopDwell(l: Local, now: real): Local {
    var l1 := ReportDwell(l, now);
    l1.(card := l1.card.(startedAt := None, ticking := false))
  }

  function StartDwell(c: Card, now: real): Card {
    if c.startedAt.Some? || c.dwell >= MAX_DWELL_MS as real then c
    else c.(startedAt := Some(now), ticking := true)
  }

  function StartImpressionTimer(c: Card, p: Page, now: real): Card {
    if c.qualified || c.timer.Some? || !p.visible then c else c.(timer := Some(now))
  }

  function TimerFires(l: Local, now: real): Local {
    var c := l.card.(timer := None);
    if c.token in l.page.observed then l.(card := c)
    else
      var seen := if c.since.Some? then now - c.since.value else 0.0;
      Local(c.(qualified := true),
            l.page.(observed := l.page.observed + {c.token},
                    sent := l.page.sent + [Entry(c.id, c.token, Impression(c.fraction))],
                    seen := l.page.seen + [seen]))
  }

  /** The common body of the intersection callback and of handleVisibilityChange. */
  function Refresh(l: Local, now: real): Local {
    if l.page.visible && l.card.fraction >= MIN_VISIBLE_FRACTION
    then l.(card := Mark(StartDwell(StartImpressionTimer(l.card, l.page, now), now), true, now))
    else
      var l1 := StopDwell(l.(card := l.card.(timer := None)), now);
      l1.(card := Mark(l1.card, false, now))
  }

  /** Specification bookkeeping: qualifying visibility begins, goes on or ends. */
  function Mark(c: Card, qualifies: bool, now: real): Card {
    if qualifies then (if c.since.Some? then c else c.(since := Some(now)))
    else c.(since := None, seenBefore := Seen(c, now))
  }

  function Mounted(id: nat, token: Token, p: Page): Card {
    Card(id, token, token != [] && token !in p.observed, None, false, 0.0, None, 0.0, 0, 0, false, None, 0.0)
  }

  /** The effect's clean-up. */
  function Unmounted(l: Local, now: real): Local {
    var l1 := StopDwell(l.(card := l.card.(timer := None)), now);
    l1.(card := Mark(l1.card, false, now).(active := false))
  }

  // ----- one card as an object -----

  class PageState {
    var observedTokens: set<Token>
    var visible: bool
    var sent: seq<Entry>
    ghost var seen: seq<real>

    constructor (visible: bool)
      ensures View() == Page({}, visible, [], [])
    {
      observedTokens, sent, seen := {}, [], [];
      this.visible := visible;
    }

    ghost function View(): Page
      reads this
    {
      Page(observedTokens, visible, sent, seen)
    }
  }

  class CardEffect {
    const page: PageState
    const id: nat
    const observationToken: Token
    var active: bool
    var impressionTimer: Option<real>
    var dwellTimer: bool
    var visibleFraction: real
    var dwellStartedAt: Option<real>
    var activeDwellMs: real
    var lastReportedDwellMs: int
    var observationSequence: nat
    var qualified: bool
    ghost var since: Option<real>
    ghost var seenBefore: real

    constructor (page: PageState, id: nat, token: Token)
      ensures this.page == page && View() == Mounted(id, token, page.View())
    {
      this.page, this.id, observationToken := page, id, token;
      active := token != [] && token !in page.observedTokens;
      impressionTimer, dwellTimer, visibleFraction, dwellStartedAt := None, false, 0.0, None;
      activeDwellMs, lastReportedDwellMs, observationSequence, qualified := 0.0, 0, 0, false;
      since, seenBefore := None, 0.0;
    }

    ghost function View(): Card
      reads this
    {
      Card(id, observationToken, active, impressionTimer, dwellTimer, visibleFraction, dwellStartedAt,
           activeDwellMs, lastReportedDwellMs, observationSequence, qualified, since, seenBefore)
    }

    ghost function Both(): Local
      reads this, page
    {
      Local(View(), page.View())
    }

    method Report(now: real)
      modifies this, page
      ensures Both() == ReportDwell(old(Both()), now)
    {
      if dwellStartedAt.Some? {
        activeDwellMs := Min(MAX_DWELL_MS as real, activeDwellMs + now - dwellStartedAt.value);
        dwellStartedAt := Some(now);
      }
      var rounded := Round(activeDwellMs);
      if !qualified || rounded <= lastReportedDwellMs { return; }
      page.seen := page.seen + [Seen(View(), now)];
      observationSequence := observationSequence + 1;
      lastReportedDwellMs := rounded;
      page.sent := page.sent + [Entry(id, observationToken, Dwell(rounded, observationSequence))];
      if activeDwellMs >= MAX_DWELL_MS as real && dwellTimer {
        dwellTimer := false;
        dwellStartedAt := None;
      }
    }

    method Stop(now: real)
      modifies this, page
      ensures Both() == StopDwell(old(Both()), now)
    {
      Report(now);
      dwellStartedAt := None;
      dwellTimer := false;
    }

    method ImpressionTimeout(now: real)
      modifies this, page
      ensures Both() == TimerFires(old(Both()), now)
    {
      impressionTimer := None;
      if observationToken in page.observedTokens { return; }
      page.observedTokens := page.observedTokens + {observationToken};
      qualified := true;
      page.seen := page.seen + [if since.Some? then now - since.value else 0.0];
      page.sent := page.sent + [Entry(id, observationToken, Impression(visibleFraction))];
    }

    method HandleChange(now: real)
      modifies this, page
      ensures Both() == Refresh(old(Both()), now)
    {
      if page.visible && visibleFraction >= MIN_VISIBLE_FRACTION {
        if !qualified && impressionTimer.None? {
          impressionTimer := Some(now);
        }
        if dwellStartedAt.None? && activeDwellMs < MAX_DWELL_MS as real {
          dwellStartedAt := Some(now);
          dwellTimer := true;
        }
        since := if since.Some? then since else Some(now);
      } else {
        impressionTimer := None;
        Stop(now);
        seenBefore := Seen(View(), now);
        since := None;
      }
    }

    method Cleanup(now: real)
      modifies this, page
      ensures Both() == Unmounted(old(Both()), now)
    {
      impressionTimer := None;
      Stop(now);
      seenBefore := Seen(View(), now);
      since := None;
      active := false;
    }
  }

  // ----- a page full of cards -----

  datatype System = System(cards: seq<Card>, page: Page, clock: real)

  datatype Event =
    | Mount(token: Token, now: real)
    | Intersect(i: nat, fraction: real, now: real)
    | VisibilityChange(visible: bool, now: real)
    | ImpressionTimer(i: nat, now: real)
    | DwellInterval(i: nat, now: real)
    | Unmount(i: nat, now: real)

  /** `document` dispatches visibilitychange to every mounted card in turn. */
  function RefreshFrom(y: System, k: nat): System
    requires k <= |y.cards|
    decreases |y.cards| - k
  {
    if k == |y.cards| then y
    else if !y.cards[k].active then RefreshFrom(y, k + 1)
    else RefreshFrom(Put(y, k, Refresh(Local(y.cards[k], y.page), y.clock)), k + 1)
  }

  function Put(y: System, i: nat, l: Local): System
    requires i < |y.cards|
  {
    y.(cards := y.cards[i := l.card], page := l.page)
  }

  predicate Active(y: System, i: nat) {
    i < |y.cards| && y.cards[i].active
  }

  function Step(y0: System, e: Event): System {
    if e.now < y0.clock then y0
    else
      var y := y0.(clock := e.now);
      match e
      case Mount(token, now) => y.(cards := y.cards + [Mounted(|y.cards|, token, y.page)])
      case Intersect(i, fraction, now) =>
        if Active(y, i)
        then Put(y, i, Refresh(Local(y.cards[i].(fraction := fraction), y.page), now)) else y
      case VisibilityChange(visible, now) => RefreshFrom(y.(page := y.page.(visible := visible)), 0)
      case ImpressionTimer(i, now) =>
        // setTimeout never fires early
        if Active(y, i) && y.cards[i].timer.Some? && now >= y.cards[i].timer.value + MIN_VISIBLE_DURATION_MS
        then Put(y, i, TimerFires(Local(y.cards[i], y.page), now)) else y
      case DwellInterval(i, now) =>
        if Active(y, i) && y.cards[i].ticking
        then Put(y, i, ReportDwell(Local(y.cards[i], y.page), now)) else y
      case Unmount(i, now) =>
        if Active(y, i) then Put(y, i, Unmounted(Local(y.cards[i], y.page), now)) else y
  }

  function Run(visible: bool, es: seq<Event>): System {
    if es == [] then System([], Page({}, visible, [], []), 0.0)
    else Step(Run(visible, es[..|es| - 1]), es[|es| - 1])
  }

  // ----- one card's timers tell the truth -----

  /** The dwell clock, stopped or running, shows the true visible time up to the cap. */
  predicate Truthful(c: Card, now: real) {
    && (!c.active ==> c.timer.None? && c.startedAt.None? && c.since.None?)
    && (c.ticking <==> c.startedAt.Some?)
    && (c.since.Some? ==> c.since.value <= now)
    && (c.timer.Some? ==> c.since.Some? && c.since.value <= c.timer.value <= now)
    && (c.startedAt.Some? ==> c.since.Some? && c.startedAt.value <= now)
    && 0.0 <= c.dwell <= MAX_DWELL_MS as real
    && c.lastReported <= Round(c.dwell)
    && 0.0 <= c.seenBefore
    && Capped(c.dwell + if c.startedAt.Some? then now - c.startedAt.value else 0.0) == Capped(Seen(c, now))
  }

  /** Between events a card qualifies exactly if it is half in view on a visible page, and then its clock
      runs and its interval ticks unless it is at the cap. */
  predicate Placed(c: Card, visible: bool) {
    && (c.active ==> (c.since.Some? <==> visible && c.fraction >= MIN_VISIBLE_FRACTION))
    && (c.since.Some? ==> c.ticking || c.dwell >= MAX_DWELL_MS as real)
  }

  lemma TimePasses(c: Card, then': real, now: real, visible: bool)
    requires Truthful(c, then') && Placed(c, visible) && then' <= now
    ensures Truthful(c, now)
  {
  }

  lemma AccumulateTruthful(c: Card, now: real)
    requires Truthful(c, now)
    ensures Truthful(Accumulate(c, now), now)
    ensures Seen(Accumulate(c, now), now) == Seen(c, now)
    ensures var d := Accumulate(c, now); d.startedAt.Some? ==> d.startedAt.value == now
  {
  }

  // ----- the reports of one card -----

  function Dwells(sent: seq<Entry>, id: nat): seq<Report> {
    if sent == [] then []
    else
      var last := sent[|sent| - 1];
      Dwells(sent[..|sent| - 1], id)
      + if last.card == id && last.report.Dwell? then [last.report] else []
  }

  /** Sequence numbers 1, 2, 3, ... with strictly increasing values up to `last`. */
  predicate Counting(reports: seq<Report>, n: nat, last: int) {
    && |reports| == n
    && (forall k :: 0 <= k < n ==> reports[k].Dwell? && reports[k].sequence == k + 1)
    && (forall k :: 0 <= k < n ==> 0 < reports[k].activeMs <= MAX_DWELL_MS)
    && (forall j, k :: 0 <= j < k < n ==> reports[j].activeMs < reports[k].activeMs)
    && last == (if n == 0 then 0 else reports[n - 1].activeMs)
  }

  predicate HasImpression(sent: seq<Entry>, id: nat, token: Token, before: nat) {
    exists k :: 0 <= k < |sent| && k < before
      && sent[k].card == id && sent[k].token == token && sent[k].report.Impression?
  }

  predicate Recorded(c: Card, p: Page) {
    && Counting(Dwells(p.sent, c.id), c.sequence, c.lastReported)
    && (c.qualified ==> HasImpression(p.sent, c.id, c.token, |p.sent|))
    && (!c.qualified ==> c.sequence == 0)
  }

  /** What the whole page has sent. */
  ghost predicate Honest(p: Page) {
    && |p.seen| == |p.sent|
    && (forall k :: 0 <= k < |p.sent| && p.sent[k].report.Impression? ==>
          p.sent[k].token in p.observed && p.seen[k] >= MIN_VISIBLE_DURATION_MS)
    && (forall j, k :: 0 <= j < k < |p.sent| && p.sent[j].report.Impression? && p.sent[k].report.Impression? ==>
          p.sent[j].token != p.sent[k].token)
    && (forall k :: 0 <= k < |p.sent| && p.sent[k].report.Dwell? ==>
          && HasImpression(p.sent, p.sent[k].card, p.sent[k].token, k)
          && p.sent[k].report.activeMs == Round(Capped(p.seen[k])))
  }

  lemma ImpressionStays(sent: seq<Entry>, e: Entry)
    ensures forall id, token, n :: HasImpression(sent, id, token, n) ==> HasImpression(sent + [e], id, token, n)
  {
    forall id, token, n | HasImpression(sent, id, token, n) ensures HasImpression(sent + [e], id, token, n) {
      var k :| 0 <= k < |sent| && k < n && sent[k].card == id && sent[k].token == token && sent[k].report.Impression?;
      assert (sent + [e])[k] == sent[k];
    }
  }

  /** Page `q` is page `p` with at most one more entry, sent by card `id`. */
  predicate Follows(p: Page, q: Page, id: nat) {
    && q.visible == p.visible
    && (q.sent == p.sent || (|q.sent| == |p.sent| + 1 && q.sent[..|p.sent|] == p.sent && q.sent[|p.sent|].card == id))
  }

  lemma OthersRecorded(c: Card, p: Page, q: Page, id: nat)
    requires Recorded(c, p) && Follows(p, q, id) && c.id != id
    ensures Recorded(c, q)
  {
    if q.sent != p.sent {
      assert q.sent == p.sent + [q.sent[|p.sent|]];
      ImpressionStays(p.sent, q.sent[|p.sent|]);
      assert HasImpression(p.sent, c.id, c.token, |p.sent|) ==> HasImpression(q.sent, c.id, c.token, |q.sent|);
    }
  }

  ghost predicate Good(l: Local, now: real) {
    Truthful(l.card, now) && Recorded(l.card, l.page) && Honest(l.page)
  }

  /** An entry fit to be sent next. */
  predicate Fit(p: Page, e: Entry, seen: real) {
    && (e.report.Impression? ==> e.token !in p.observed && seen >= MIN_VISIBLE_DURATION_MS)
    && (e.report.Dwell? ==>
          && HasImpression(p.sent, e.card, e.token, |p.sent|)
          && e.report.activeMs == Round(Capped(seen)))
  }

  function Sent(p: Page, e: Entry, seen: real): Page {
    p.(sent := p.sent + [e], seen := p.seen + [seen],
       observed := p.observed + if e.report.Impression? then {e.token} else {})
  }

  lemma SendKeepsHonest(p: Page, e: Entry, seen: real)
    requires Honest(p) && Fit(p, e, seen)
    ensures Honest(Sent(p, e, seen))
  {
    hide HasImpression;
    var q := Sent(p, e, seen);
    ImpressionStays(p.sent, e);
    forall k | 0 <= k < |q.sent| && q.sent[k].report.Dwell?
      ensures HasImpression(q.sent, q.sent[k].card, q.sent[k].token, k)
    {
      assert k < |p.sent| ==> q.sent[k] == p.sent[k];
    }
    forall j, k | 0 <= j < k < |q.sent| && q.sent[j].report.Impression? && q.sent[k].report.Impression?
      ensures q.sent[j].token != q.sent[k].token
    {
      assert q.sent[j] == p.sent[j];
      assert k < |p.sent| ==> q.sent[k] == p.sent[k];
    }
  }

  /** The sender's own record after one more dwell report. */
  lemma SendDwellRecorded(c: Card, p: Page, ms: int, seen: real)
    requires Recorded(c, p) && c.qualified && c.lastReported < ms <= MAX_DWELL_MS
    ensures Recorded(c.(sequence := c.sequence + 1, lastReported := ms),
                     Sent(p, Entry(c.id, c.token, Dwell(ms, c.sequence + 1)), seen))
  {
    var e := Entry(c.id, c.token, Dwell(ms, c.sequence + 1));
    ImpressionStays(p.sent, e);
    var before := Dwells(p.sent, c.id);
    assert Counting(before + [e.report], c.sequence + 1, ms);
  }

  /** Only the clockwork of the card and its counters change in a report. */
  predicate SameCard(c: Card, d: Card) {
    d == c.(dwell := d.dwell, startedAt := d.startedAt, ticking := d.ticking, sequence := d.sequence,
            lastReported := d.lastReported)
  }

  lemma ReportKeepsGood(l: Local, now: real)
    requires Good(l, now)
    ensures var r := ReportDwell(l, now);
            && Good(r, now) && Follows(l.page, r.page, l.card.id) && SameCard(l.card, r.card)
            && (r.card.startedAt.Some? ==> r.card.startedAt.value == now)
            && (Placed(l.card, l.page.visible) ==> Placed(r.card, r.page.visible))
  {
    hide Round, Recorded, Honest, HasImpression, Truthful;
    var c := Accumulate(l.card, now);
    AccumulateTruthful(l.card, now);
    assert Recorded(c, l.page) by { RecordedIgnoresClock(l.card, c, l.page); }
    var rounded := Round(c.dwell);
    if c.qualified && rounded > c.lastReported {
      DwellIsSeen(c, now);
      var e := Entry(c.id, c.token, Dwell(rounded, c.sequence + 1));
      QualifiedHasImpression(c, l.page);
      SendKeepsHonest(l.page, e, Seen(c, now));
      SendDwellRecorded(c, l.page, rounded, Seen(c, now));
      var c1 := c.(sequence := c.sequence + 1, lastReported := rounded);
      var r := ReportDwell(l, now);
      assert r.page == Sent(l.page, e, Seen(c, now));
      RecordedIgnoresClock(c1, r.card, r.page);
      CountersIgnored(c, c1, now);
      HaltTruthful(c1, now);
    }
  }

  lemma QualifiedHasImpression(c: Card, p: Page)
    requires Recorded(c, p) && c.qualified
    ensures HasImpression(p.sent, c.id, c.token, |p.sent|)
  {
  }

  lemma RecordedIgnoresClock(c: Card, d: Card, p: Page)
    requires Recorded(c, p)
    requires d.id == c.id && d.token == c.token && d.qualified == c.qualified
    requires d.sequence == c.sequence && d.lastReported == c.lastReported
    ensures Recorded(d, p)
  {
  }

  lemma CountersIgnored(c: Card, d: Card, now: real)
    requires Truthful(c, now) && d == c.(sequence := d.sequence, lastReported := Round(c.dwell))
    ensures Truthful(d, now)
  {
  }

  lemma HaltTruthful(c: Card, now: real)
    requires Truthful(c, now) && (c.startedAt.Some? ==> c.startedAt.value == now)
    ensures Truthful(c.(ticking := false, startedAt := None), now)
  {
  }

  lemma DwellIsSeen(c: Card, now: real)
    requires Truthful(c, now) && (c.startedAt.Some? ==> c.startedAt.value == now)
    ensures c.dwell == Capped(Seen(c, now)) && Round(c.dwell) <= MAX_DWELL_MS
  {
  }

  lemma StopKeepsGood(l: Local, now: real)
    requires Good(l, now)
    ensures var r := StopDwell(l, now);
            Good(r, now) && Follows(l.page, r.page, l.card.id) && SameCard(l.card, r.card)
            && r.card.startedAt.None? && !r.card.ticking
  {
    hide ReportDwell, Recorded, Honest, Truthful;
    ReportKeepsGood(l, now);
    var l1 := ReportDwell(l, now);
    HaltTruthful(l1.card, now);
    RecordedIgnoresClock(l1.card, StopDwell(l, now).card, l1.page);
  }

  /** The end of qualifying visibility, by scrolling away, hiding the page or unmounting. */
  lemma LeaveKeepsGood(l: Local, now: real, active: bool)
    requires Good(l, now)
    ensures var l1 := StopDwell(l.(card := l.card.(timer := None)), now);
            var r := l1.(card := Mark(l1.card, false, now).(active := active));
            Good(r, now) && Follows(l.page, r.page, l.card.id)
            && r.card.id == l.card.id && r.card.fraction == l.card.fraction && r.card.since.None?
  {
    hide StopDwell, Recorded, Honest;
    var l0 := l.(card := l.card.(timer := None));
    RecordedIgnoresClock(l.card, l0.card, l.page);
    StopKeepsGood(l0, now);
    var l1 := StopDwell(l0, now);
    RecordedIgnoresClock(l1.card, Mark(l1.card, false, now).(active := active), l1.page);
  }

  lemma EnterKeepsGood(l: Local, now: real)
    requires Good(l, now) && l.card.active && l.page.visible
    ensures var c := Mark(StartDwell(StartImpressionTimer(l.card, l.page, now), now), true, now);
            && Good(l.(card := c), now) && c.id == l.card.id && c.active && c.fraction == l.card.fraction
            && c.since.Some? && (c.ticking || c.dwell >= MAX_DWELL_MS as real)
  {
    hide Recorded, Honest;
    var c := Mark(StartDwell(StartImpressionTimer(l.card, l.page, now), now), true, now);
    RecordedIgnoresClock(l.card, c, l.page);
  }

  lemma RefreshKeepsGood(l: Local, now: real)
    requires Good(l, now) && l.card.active
    ensures var r := Refresh(l, now);
            Good(r, now) && Follows(l.page, r.page, l.card.id) && Placed(r.card, r.page.visible)
            && r.card.id == l.card.id && r.card.active
  {
    hide Good, StopDwell, StartDwell, StartImpressionTimer, Mark;
    if l.page.visible && l.card.fraction >= MIN_VISIBLE_FRACTION {
      EnterKeepsGood(l, now);
    } else {
      LeaveKeepsGood(l, now, true);
      var l1 := StopDwell(l.(card := l.card.(timer := None)), now);
      StopKeepsActive(l, now);
      assert Mark(l1.card, false, now) == Mark(l1.card, false, now).(active := true);
    }
  }

  lemma StopKeepsActive(l: Local, now: real)
    requires Good(l, now) && l.card.active
    ensures Mark(StopDwell(l.(card := l.card.(timer := None)), now).card, false, now).active
  {
  }

  /** The timer fires a full second after qualifying visibility began, or later. */
  lemma TimerKeepsGood(l: Local, now: real)
    requires Good(l, now) && l.card.active && l.card.timer.Some?
    requires now >= l.card.timer.value + MIN_VISIBLE_DURATION_MS
    ensures var r := TimerFires(l, now);
            Good(r, now) && Follows(l.page, r.page, l.card.id)
            && r.card == l.card.(timer := None, qualified := r.card.qualified)
  {
    hide HasImpression, Honest, Counting;
    var c := l.card.(timer := None);
    if c.token !in l.page.observed {
      var e := Entry(c.id, c.token, Impression(c.fraction));
      var seen := now - c.since.value;
      SendKeepsHonest(l.page, e, seen);
      assert TimerFires(l, now).page == Sent(l.page, e, seen);
      JustSent(l.page.sent, e);
      var r := TimerFires(l, now);
      assert Dwells(r.page.sent, c.id) == Dwells(l.page.sent, c.id);
      assert HasImpression(r.page.sent, c.id, c.token, |r.page.sent|);
      assert Recorded(r.card, r.page);
    }
  }

  lemma JustSent(sent: seq<Entry>, e: Entry)
    requires e.report.Impression?
    ensures HasImpression(sent + [e], e.card, e.token, |sent| + 1)
  {
    assert (sent + [e])[|sent|] == e;
  }

  // ----- every run of the page -----

  ghost predicate Sound(y: System) {
    && Honest(y.page)
    && (forall i :: 0 <= i < |y.cards| ==>
          && y.cards[i].id == i
          && Truthful(y.cards[i], y.clock)
          && Recorded(y.cards[i], y.page))
    && (forall e :: e in y.page.sent ==> e.card < |y.cards|)
  }

  ghost predicate Settled(y: System, from: nat, to: nat) {
    forall i :: from <= i < to && i < |y.cards| ==> Placed(y.cards[i], y.page.visible)
  }

  /** A good move of one card is a good move of the page. */
  lemma PutKeepsSound(y: System, i: nat, l: Local)
    requires Sound(y) && i < |y.cards| && Good(l, y.clock) && l.card.id == i && Follows(y.page, l.page, i)
    ensures Sound(Put(y, i, l))
  {
    hide Truthful, Recorded, Honest;
    var y' := Put(y, i, l);
    forall j | 0 <= j < |y'.cards|
      ensures y'.cards[j].id == j && Truthful(y'.cards[j], y'.clock) && Recorded(y'.cards[j], y'.page)
    {
      if j != i {
        OthersRecorded(y.cards[j], y.page, l.page, i);
      }
    }
    forall e | e in y'.page.sent ensures e.card < |y'.cards| {
      if e !in y.page.sent {
        assert l.page.sent == y.page.sent + [l.page.sent[|y.page.sent|]];
      }
    }
  }

  lemma {:induction false} RefreshFromKeepsSound(y: System, k: nat)
    requires Sound(y) && k <= |y.cards| && Settled(y, 0, k)
    ensures Sound(RefreshFrom(y, k)) && Settled(RefreshFrom(y, k), 0, |y.cards|)
    ensures |RefreshFrom(y, k).cards| == |y.cards| && RefreshFrom(y, k).clock == y.clock
    decreases |y.cards| - k
  {
    hide Sound, Good, Placed, Refresh;
    if k < |y.cards| {
      var l := Local(y.cards[k], y.page);
      LocalOf(y, k);
      if y.cards[k].active {
        RefreshKeepsGood(l, y.clock);
        PutKeepsSound(y, k, Refresh(l, y.clock));
        var y1 := Put(y, k, Refresh(l, y.clock));
        assert Settled(y1, 0, k + 1);
        RefreshFromKeepsSound(y1, k + 1);
      } else {
        assert Placed(y.cards[k], y.page.visible) by { InactivePlaced(l, y.clock); }
        RefreshFromKeepsSound(y, k + 1);
      }
    }
  }

  lemma InactivePlaced(l: Local, now: real)
    requires Good(l, now) && !l.card.active
    ensures Placed(l.card, l.page.visible)
  {
  }

  lemma LocalOf(y: System, i: nat)
    requires Sound(y) && i < |y.cards|
    ensures Good(Local(y.cards[i], y.page), y.clock) && y.cards[i].id == i
  {
  }

  lemma ClockKeepsSound(y: System, now: real)
    requires Sound(y) && Settled(y, 0, |y.cards|) && now >= y.clock
    ensures Sound(y.(clock := now))
  {
    hide Truthful, Recorded, Honest, Placed;
    forall i | 0 <= i < |y.cards| ensures Truthful(y.cards[i], now) {
      TimePasses(y.cards[i], y.clock, now, y.page.visible);
    }
  }

  lemma VisibleKeepsSound(y: System, visible: bool)
    requires Sound(y)
    ensures Sound(y.(page := y.page.(visible := visible)))
  {
    hide Truthful, HasImpression;
    var q := y.page.(visible := visible);
    assert Honest(q);
    forall i | 0 <= i < |y.cards| ensures Recorded(y.cards[i], q) {
    }
  }

  lemma MountKeepsSound(y: System, token: Token)
    requires Sound(y)
    ensures Sound(y.(cards := y.cards + [Mounted(|y.cards|, token, y.page)]))
  {
    hide Honest, Truthful, HasImpression;
    var c := Mounted(|y.cards|, token, y.page);
    NoDwells(y.page.sent, |y.cards|);
    assert Recorded(c, y.page);
    assert Truthful(c, y.clock) by { FreshTruthful(|y.cards|, token, y.page, y.clock); }
  }

  lemma FreshTruthful(id: nat, token: Token, p: Page, now: real)
    ensures Truthful(Mounted(id, token, p), now)
  {
  }

  lemma {:induction false} NoDwells(sent: seq<Entry>, id: nat)
    requires forall e :: e in sent ==> e.card < id
    ensures Dwells(sent, id) == []
  {
    if sent != [] {
      assert sent[|sent| - 1] in sent;
      NoDwells(sent[..|sent| - 1], id);
    }
  }

  lemma StepKeepsSound(y0: System, e: Event)
    requires Sound(y0) && Settled(y0, 0, |y0.cards|)
    ensures Sound(Step(y0, e)) && Settled(Step(y0, e), 0, |Step(y0, e).cards|)
  {
    hide Sound, Good, Refresh, TimerFires, ReportDwell, Unmounted, RefreshFrom;
    if e.now >= y0.clock {
      var y := y0.(clock := e.now);
      ClockKeepsSound(y0, e.now);
      match e
      case Mount(token, now) => MountKeepsSound(y, token);
      case VisibilityChange(visible, now) =>
        VisibleKeepsSound(y, visible);
        RefreshFromKeepsSound(y.(page := y.page.(visible := visible)), 0);
      case _ =>
        if Active(y, e.i) {
          CardStepKeepsSound(y, e);
        }
    }
  }

  lemma CardStepKeepsSound(y: System, e: Event)
    requires Sound(y) && Settled(y, 0, |y.cards|) && e.now == y.clock
    requires !e.Mount? && !e.VisibilityChange? && Active(y, e.i)
    ensures Sound(Step(y, e)) && Settled(Step(y, e), 0, |y.cards|) && |Step(y, e).cards| == |y.cards|
  {
    hide Sound, Good, Refresh, TimerFires, ReportDwell, StopDwell, Mark;
    var l := Local(y.cards[e.i], y.page);
    LocalOf(y, e.i);
    assert y.(clock := e.now) == y;
    match e
    case Intersect(i, fraction, now) =>
      var l1 := l.(card := l.card.(fraction := fraction));
      FractionKeepsGood(l, fraction, now);
      RefreshKeepsGood(l1, now);
      PutKeepsSound(y, i, Refresh(l1, now));
    case ImpressionTimer(i, now) =>
      if y.cards[i].timer.Some? && now >= y.cards[i].timer.value + MIN_VISIBLE_DURATION_MS {
        TimerKeepsGood(l, now);
        PutKeepsSound(y, i, TimerFires(l, now));
      }
    case DwellInterval(i, now) =>
      if y.cards[i].ticking {
        ReportKeepsGood(l, now);
        PutKeepsSound(y, i, ReportDwell(l, now));
      }
    case Unmount(i, now) =>
      LeaveKeepsGood(l, now, false);
      PutKeepsSound(y, i, Unmounted(l, now));
  }

  lemma FractionKeepsGood(l: Local, fraction: real, now: real)
    requires Good(l, now)
    ensures Good(l.(card := l.card.(fraction := fraction)), now)
  {
    hide Honest, HasImpression, Counting;
  }

  lemma {:induction false} RunsAreSound(visible: bool, es: seq<Event>)
    ensures Sound(Run(visible, es)) && Settled(Run(visible, es), 0, |Run(visible, es).cards|)
  {
    hide Step, Sound;
    if es == [] {
      EmptyPageSound(visible);
    } else {
      RunsAreSound(visible, es[..|es| - 1]);
      StepKeepsSound(Run(visible, es[..|es| - 1]), es[|es| - 1]);
    }
  }

  lemma EmptyPageSound(visible: bool)
    ensures Sound(System([], Page({}, visible, [], []), 0.0))
  {
  }

  /** Across any number of cards and events: a token has at most one impression, sent only after a full
      second of unbroken qualifying visibility; a dwell report comes only after the impression of its own
      card and token, and carries the true visible time, rounded and capped, no less and no more. */
  lemma ReportsAreHonest(visible: bool, es: seq<Event>)
    ensures var p := Run(visible, es).page;
            && (forall j, k :: 0 <= j < k < |p.sent| && p.sent[j].report.Impression? && p.sent[k].report.Impression? ==>
                  p.sent[j].token != p.sent[k].token)
            && |p.seen| == |p.sent|
            && (forall k :: 0 <= k < |p.sent| && p.sent[k].report.Impression? ==> p.seen[k] >= MIN_VISIBLE_DURATION_MS)
            && (forall k :: 0 <= k < |p.sent| && p.sent[k].report.Dwell? ==>
                  && HasImpression(p.sent, p.sent[k].card, p.sent[k].token, k)
                  && p.sent[k].report.activeMs == Round(Capped(p.seen[k])))
  {
    hide HasImpression, Run;
    RunsAreSound(visible, es);
  }

  /** The dwell reports of each card are numbered 1, 2, 3, ... and strictly increase. */
  lemma DwellsCountUp(visible: bool, es: seq<Event>, id: nat)
    requires id < |Run(visible, es).cards|
    ensures var c := Run(visible, es).cards[id];
            Counting(Dwells(Run(visible, es).page.sent, id), c.sequence, c.lastReported)
  {
    hide Run;
    RunsAreSound(visible, es);
  }

  // ----- and nothing that should be reported is kept back -----

  /** A mounted card that comes into view on a visible page and is still there when its timer fires has
      its token observed, by itself or by an earlier card. */
  lemma ViewIsObserved(visible: bool, es: seq<Event>, i: nat, fraction: real, now: real, later: real)
    requires var y := Run(visible, es); Active(y, i) && y.page.visible && now >= y.clock
    requires fraction >= MIN_VISIBLE_FRACTION && later >= now + MIN_VISIBLE_DURATION_MS
    ensures Run(visible, es).cards[i].token
            in Run(visible, es + [Intersect(i, fraction, now), ImpressionTimer(i, later)]).page.observed
  {
    hide Sound, Settled;
    var y, enter, fire := Run(visible, es), Intersect(i, fraction, now), ImpressionTimer(i, later);
    RunsAreSound(visible, es);
    StepKeepsSound(y, enter);
    var y1 := Step(y, enter);
    assert (es + [enter, fire])[..|es| + 1] == es + [enter] && (es + [enter])[..|es|] == es;
    assert Run(visible, es + [enter, fire]) == Step(y1, fire);
    LocalOf(y1, i);
    assert y1.cards[i].token == y.cards[i].token;
    assert y1.cards[i].qualified || y1.cards[i].timer.Some?;
    FiringObserves(Local(y1.cards[i], y1.page), now);
  }

  lemma FiringObserves(l: Local, now: real)
    requires Good(l, now) && (l.card.qualified || l.card.timer.Some?)
    ensures l.card.timer.Some? ==> l.card.timer.value <= now && l.card.token in TimerFires(l, now).page.observed
    ensures l.card.timer.None? ==> l.card.token in l.page.observed
  {
  }

  /** A qualified card in view has reported all of its visible time, up to the cap, whenever its interval
      elapses. */
  lemma IntervalReportsAll(visible: bool, es: seq<Event>, i: nat, now: real)
    requires var y := Run(visible, es); Active(y, i) && y.cards[i].qualified && y.cards[i].ticking && now >= y.clock
    ensures var c := Run(visible, es + [DwellInterval(i, now)]).cards[i];
            c.lastReported == Round(Capped(Seen(c, now)))
  {
    hide Sound, Settled, Good;
    var y, tick := Run(visible, es), DwellInterval(i, now);
    RunsAreSound(visible, es);
    ClockKeepsSound(y, now);
    assert (es + [tick])[..|es|] == es;
    assert Run(visible, es + [tick]) == Step(y, tick);
    LocalOf(y.(clock := now), i);
    ReportReportsAll(Local(y.cards[i], y.page), now);
  }

  lemma ReportReportsAll(l: Local, now: real)
    requires Good(l, now) && l.card.qualified
    ensures var c := ReportDwell(l, now).card;
            c.lastReported == Round(Capped(Seen(c, now)))
  {
    hide Recorded, Honest;
    AccumulateTruthful(l.card, now);
    DwellIsSeen(Accumulate(l.card, now), now);
  }

  /** A qualified card that goes away has reported all of its visible time, up to the cap. */
  lemma LeavingReportsAll(visible: bool, es: seq<Event>, i: nat, now: real)
    requires var y := Run(visible, es); Active(y, i) && y.cards[i].qualified && now >= y.clock
    ensures var c := Run(visible, es + [Unmount(i, now)]).cards[i];
            c.lastReported == Round(Capped(c.seenBefore)) && c.since.None?
  {
    hide Sound, Settled, Good;
    var y, leave := Run(visible, es), Unmount(i, now);
    RunsAreSound(visible, es);
    ClockKeepsSound(y, now);
    assert (es + [leave])[..|es|] == es;
    assert Run(visible, es + [leave]) == Step(y, leave);
    LocalOf(y.(clock := now), i);
    StopReportsAll(Local(y.cards[i], y.page), now);
  }

  lemma StopReportsAll(l: Local, now: real)
    requires Good(l, now) && l.card.qualified
    ensures var c := Unmounted(l, now).card;
            c.lastReported == Round(Capped(c.seenBefore)) && c.since.None?
  {
    hide Recorded, Honest;
    var c := Accumulate(l.card.(timer := None), now);
    AccumulateTruthful(l.card.(timer := None), now);
    DwellIsSeen(c, now);
  }
}
