/**
 Impressions and dwell said from the events alone: how long a card was in view, and what
 frontend/src/hooks/use-qualified-impression.ts reports of it.
 */
module ImpressionHistory {
  import opened Wrappers
  import opened QualifiedImpression

  // ----- what the events say -----

  /** The latest time so far; an event that comes with an earlier one is not noticed. */
  function Clock(es: seq<Event>): real {
    if es == [] then 0.0
    else
      var before, now := Clock(es[..|es| - 1]), es[|es| - 1].now;
      if now >= before then now else before
  }

  predicate Happens(es: seq<Event>) {
    es != [] && es[|es| - 1].now >= Clock(es[..|es| - 1])
  }

  function Mounts(es: seq<Event>): nat {
    if es == [] then 0
    else Mounts(es[..|es| - 1]) + if Happens(es) && es[|es| - 1].Mount? then 1 else 0
  }

  /** The page is visible: as at the beginning, or as the last change says. */
  predicate Foreground(visible: bool, es: seq<Event>) {
    if es == [] then visible
    else if Happens(es) && es[|es| - 1].VisibilityChange? then es[|es| - 1].visible
    else Foreground(visible, es[..|es| - 1])
  }

  /** An impression has been sent for the token. */
  predicate Taken(sent: seq<Entry>, token: Token) {
    exists k :: 0 <= k < |sent| && sent[k].token == token && sent[k].report.Impression?
  }

  /** The i-th card was mounted with a token that had no impression yet, and has not been unmounted. */
  predicate Watched(visible: bool, es: seq<Event>, i: nat) {
    es != []
    && var before, last := es[..|es| - 1], es[|es| - 1];
       if Happens(es) && last.Mount? && Mounts(before) == i
       then last.token != [] && !Taken(Run(visible, before).page.sent, last.token)
       else Watched(visible, before, i) && !(Happens(es) && last.Unmount? && last.i == i)
  }

  /** As much of it is on the screen as the last intersection since its mounting says. */
  function Fraction(es: seq<Event>, i: nat): real {
    if es == [] then 0.0
    else
      var before, last := es[..|es| - 1], es[|es| - 1];
      if Happens(es) && last.Mount? && Mounts(before) == i then 0.0
      else if Happens(es) && last.Intersect? && last.i == i then last.fraction
      else Fraction(before, i)
  }

  /** The token the i-th card was mounted with. */
  function TokenOf(es: seq<Event>, i: nat): Token {
    if es == [] then []
    else
      var before, last := es[..|es| - 1], es[|es| - 1];
      if Happens(es) && last.Mount? && Mounts(before) == i then last.token else TokenOf(before, i)
  }

  predicate InView(visible: bool, es: seq<Event>, i: nat) {
    Watched(visible, es, i) && Foreground(visible, es) && Fraction(es, i) >= 0.5
  }

  /** How long the card has been in view, in all. */
  function VisibleTime(visible: bool, es: seq<Event>, i: nat): real {
    if es == [] then 0.0
    else
      var before := es[..|es| - 1];
      VisibleTime(visible, before, i) + if InView(visible, before, i) then Clock(es) - Clock(before) else 0.0
  }

  /** And how long without a break, up to now. */
  function Stretch(visible: bool, es: seq<Event>, i: nat): real {
    if es == [] then 0.0
    else
      var before := es[..|es| - 1];
      if InView(visible, before, i) then Stretch(visible, before, i) + (Clock(es) - Clock(before)) else 0.0
  }

  // ----- one card's move -----

  /** What every event leaves of a card, whatever else happens on the page. */
  predicate Moves(c: Card, d: Card, e: Event, visible: bool, now: real) {
    && d.id == c.id && d.token == c.token && (c.qualified ==> d.qualified)
    && d.active == (c.active && !(e.Unmount? && e.i == c.id))
    && d.fraction == (if e.Intersect? && e.i == c.id && c.active then e.fraction else c.fraction)
    && Seen(d, now) == Seen(c, now)
    && d.since == if !(d.active && visible && d.fraction >= 0.5) then None
                  else if c.since.Some? then c.since else Some(now)
  }

  /** The i-th card of a page that is as it should be. */
  ghost predicate Stands(y: System, i: nat) {
    && i < |y.cards| && y.cards[i].id == i
    && Truthful(y.cards[i], y.clock) && Placed(y.cards[i], y.page.visible)
  }

  lemma ReportKeepsPlace(l: Local, now: real)
    ensures var r := ReportDwell(l, now);
            && r.card == l.card.(dwell := r.card.dwell, startedAt := r.card.startedAt, ticking := r.card.ticking,
                                 sequence := r.card.sequence, lastReported := r.card.lastReported)
            && r.page == l.page.(sent := r.page.sent, seen := r.page.seen)
  {
  }

  lemma RefreshMoves(l: Local, e: Event, now: real)
    requires l.card.active && !e.Unmount? && !(e.Intersect? && e.i == l.card.id)
    requires l.card.since.Some? ==> l.card.since.value <= now
    ensures Moves(l.card, Refresh(l, now).card, e, l.page.visible, now)
    ensures Refresh(l, now).page.visible == l.page.visible
  {
    hide ReportDwell;
    ReportKeepsPlace(l.(card := l.card.(timer := None)), now);
  }

  lemma {:induction false} RefreshFromMoves(y: System, k: nat, e: Event, i: nat)
    requires k <= |y.cards| && i < |y.cards| && e.VisibilityChange?
    requires y.cards[i].since.Some? ==> y.cards[i].since.value <= y.clock
    requires !y.cards[i].active ==> y.cards[i].since.None?
    ensures var r := RefreshFrom(y, k);
            && |r.cards| == |y.cards| && r.clock == y.clock && r.page.visible == y.page.visible
            && if i < k then r.cards[i] == y.cards[i]
               else Moves(y.cards[i], r.cards[i], e, y.page.visible, y.clock)
    decreases |y.cards| - k
  {
    hide Refresh, Moves;
    if k < |y.cards| {
      if y.cards[k].active {
        var l := Local(y.cards[k], y.page);
        RefreshKeepsVisible(l, y.clock);
        var y1 := Put(y, k, Refresh(l, y.clock));
        if i == k {
          RefreshMoves(l, e, y.clock);
          RefreshFromOthers(y1, k + 1, i);
        } else {
          RefreshFromMoves(y1, k + 1, e, i);
        }
      } else {
        if i == k {
          StaysPut(y.cards[i], e, y.page.visible, y.clock);
          RefreshFromOthers(y, k + 1, i);
        } else {
          RefreshFromMoves(y, k + 1, e, i);
        }
      }
    } else {
      assert i < k;
    }
  }

  lemma RefreshKeepsVisible(l: Local, now: real)
    ensures Refresh(l, now).page.visible == l.page.visible
  {
    hide ReportDwell;
    ReportKeepsPlace(l.(card := l.card.(timer := None)), now);
  }

  lemma StaysPut(c: Card, e: Event, visible: bool, now: real)
    requires !c.active && c.since.None? && !e.Intersect? && !e.Unmount?
    ensures Moves(c, c, e, visible, now)
  {
  }

  lemma {:induction false} RefreshFromOthers(y: System, k: nat, i: nat)
    requires i < k <= |y.cards|
    ensures var r := RefreshFrom(y, k);
            && |r.cards| == |y.cards| && r.clock == y.clock && r.page.visible == y.page.visible
            && r.cards[i] == y.cards[i]
    decreases |y.cards| - k
  {
    hide Refresh;
    if k < |y.cards| {
      if y.cards[k].active {
        RefreshKeepsVisible(Local(y.cards[k], y.page), y.clock);
        RefreshFromOthers(Put(y, k, Refresh(Local(y.cards[k], y.page), y.clock)), k + 1, i);
      } else {
        RefreshFromOthers(y, k + 1, i);
      }
    }
  }

  lemma StepMoves(y0: System, e: Event, i: nat)
    requires Stands(y0, i) && e.now >= y0.clock
    requires forall j :: 0 <= j < |y0.cards| ==> y0.cards[j].id == j
    ensures var y := Step(y0, e);
            && y.clock == e.now
            && y.page.visible == (if e.VisibilityChange? then e.visible else y0.page.visible)
            && |y.cards| == |y0.cards| + (if e.Mount? then 1 else 0)
            && Moves(y0.cards[i], y.cards[i], e, y.page.visible, e.now)
  {
    hide Refresh, RefreshFrom, TimerFires, ReportDwell, Unmounted, Moves;
    var y := y0.(clock := e.now);
    var c := y0.cards[i];
    assert Placed(c, y0.page.visible) && Truthful(c, y0.clock);
    match e
    case VisibilityChange(visible, now) =>
      RefreshFromMoves(y.(page := y.page.(visible := visible)), 0, e, i);
    case Mount(_, _) => NotTouched(c, e, y.page.visible, e.now);
    case _ =>
      if e.i != i || !c.active {
        NotTouched(c, e, y.page.visible, e.now);
        OneTouched(y0, e);
      } else {
        Touched(y0, e);
      }
  }

  lemma NotTouched(c: Card, e: Event, visible: bool, now: real)
    requires Placed(c, visible) && (!c.active ==> c.since.None?)
    requires !c.active || !((e.Intersect? || e.Unmount?) && e.i == c.id)
    ensures Moves(c, c, e, visible, now)
  {
  }

  /** An event at one card leaves the others and the page's visibility alone. */
  lemma OneTouched(y0: System, e: Event)
    requires e.now >= y0.clock && !e.Mount? && !e.VisibilityChange?
    ensures var y := Step(y0, e);
            && y.clock == e.now && y.page.visible == y0.page.visible && |y.cards| == |y0.cards|
            && forall j :: 0 <= j < |y.cards| && (j != e.i || !y0.cards[j].active) ==> y.cards[j] == y0.cards[j]
  {
    hide ReportDwell, Mark;
    if Active(y0, e.i) {
      var l := Local(y0.cards[e.i], y0.page);
      match e
      case Intersect(i, fraction, now) =>
        var l1 := l.(card := l.card.(fraction := fraction));
        RefreshKeepsVisible(l1, now);
      case Unmount(i, now) => ReportKeepsPlace(l.(card := l.card.(timer := None)), now);
      case DwellInterval(i, now) => ReportKeepsPlace(l, now);
      case ImpressionTimer(i, now) =>
    }
  }

  lemma Touched(y0: System, e: Event)
    requires e.now >= y0.clock && !e.Mount? && !e.VisibilityChange?
    requires Stands(y0, e.i) && y0.cards[e.i].active
    ensures Moves(y0.cards[e.i], Step(y0, e).cards[e.i], e, y0.page.visible, e.now)
    ensures Step(y0, e).clock == e.now && Step(y0, e).page.visible == y0.page.visible
    ensures |Step(y0, e).cards| == |y0.cards|
  {
    hide ReportDwell;
    OneTouched(y0, e);
    var l := Local(y0.cards[e.i], y0.page);
    match e
    case Intersect(i, fraction, now) =>
      var l1 := l.(card := l.card.(fraction := fraction));
      RefreshMoves(l1, VisibilityChange(true, now), now);
    case Unmount(i, now) => ReportKeepsPlace(l.(card := l.card.(timer := None)), now);
    case DwellInterval(i, now) => ReportKeepsPlace(l, now);
    case ImpressionTimer(i, now) =>
  }

  // ----- what has been taken -----

  /** The page has sent nothing more, or dwell reports. */
  predicate OnlyDwells(p: Page, q: Page) {
    && q.observed == p.observed
    && |p.sent| <= |q.sent| && q.sent[..|p.sent|] == p.sent
    && forall k :: |p.sent| <= k < |q.sent| ==> q.sent[k].report.Dwell?
  }

  lemma ReportSendsDwell(l: Local, now: real)
    ensures OnlyDwells(l.page, ReportDwell(l, now).page)
  {
  }

  lemma RefreshSendsDwell(l: Local, now: real)
    ensures OnlyDwells(l.page, Refresh(l, now).page)
  {
    hide ReportDwell, OnlyDwells, StartImpressionTimer, StartDwell, Mark;
    ReportSendsDwell(l.(card := l.card.(timer := None)), now);
    NothingSent(l.page);
  }

  lemma NothingSent(p: Page)
    ensures OnlyDwells(p, p)
  {
  }

  lemma SentTwice(p: Page, q: Page, r: Page)
    requires OnlyDwells(p, q) && OnlyDwells(q, r)
    ensures OnlyDwells(p, r)
  {
    assert r.sent[..|p.sent|] == r.sent[..|q.sent|][..|p.sent|];
    assert forall k :: 0 <= k < |q.sent| ==> r.sent[k] == r.sent[..|q.sent|][k];
  }

  lemma {:induction false} RefreshFromSendsDwell(y: System, k: nat)
    requires k <= |y.cards|
    ensures OnlyDwells(y.page, RefreshFrom(y, k).page)
    decreases |y.cards| - k
  {
    hide Refresh, OnlyDwells;
    if k == |y.cards| {
      NothingSent(y.page);
    } else if !y.cards[k].active {
      RefreshFromSendsDwell(y, k + 1);
    } else {
      var l := Local(y.cards[k], y.page);
      RefreshSendsDwell(l, y.clock);
      RefreshFromSendsDwell(Put(y, k, Refresh(l, y.clock)), k + 1);
      SentTwice(y.page, Refresh(l, y.clock).page, RefreshFrom(Put(y, k, Refresh(l, y.clock)), k + 1).page);
    }
  }

  /** Tokens that have been observed are those with an impression. */
  ghost predicate Agrees(p: Page) {
    forall token :: token in p.observed <==> Taken(p.sent, token)
  }

  lemma TakenStays(p: Page, q: Page, token: Token)
    requires OnlyDwells(p, q)
    ensures Taken(q.sent, token) <==> Taken(p.sent, token)
  {
    assert forall k :: 0 <= k < |p.sent| ==> q.sent[k] == q.sent[..|p.sent|][k];
  }

  lemma DwellsAgree(p: Page, q: Page)
    requires OnlyDwells(p, q) && Agrees(p)
    ensures Agrees(q)
  {
    hide OnlyDwells, Taken;
    forall token ensures token in q.observed <==> Taken(q.sent, token) {
      TakenStays(p, q, token);
      assert q.observed == p.observed by { ObservedStays(p, q); }
    }
  }

  lemma ObservedStays(p: Page, q: Page)
    requires OnlyDwells(p, q)
    ensures q.observed == p.observed
  {
  }

  lemma TakenOneMore(sent: seq<Entry>, e: Entry, token: Token)
    ensures Taken(sent + [e], token) <==> Taken(sent, token) || (e.token == token && e.report.Impression?)
  {
    assert forall k :: 0 <= k < |sent| ==> (sent + [e])[k] == sent[k];
    assert (sent + [e])[|sent|] == e;
  }

  lemma TimerAgrees(l: Local, now: real)
    requires Agrees(l.page)
    ensures Agrees(TimerFires(l, now).page)
  {
    hide Taken;
    var q := TimerFires(l, now).page;
    if l.card.token !in l.page.observed {
      forall token ensures token in q.observed <==> Taken(q.sent, token) {
        TakenOneMore(l.page.sent, Entry(l.card.id, l.card.token, Impression(l.card.fraction)), token);
      }
    }
  }

  /** A step that is not an impression timer sends dwell reports at most. */
  lemma StepSendsDwell(y0: System, e: Event)
    requires !e.ImpressionTimer?
    ensures OnlyDwells(y0.page, Step(y0, e).page)
  {
    hide Refresh, RefreshFrom, ReportDwell, OnlyDwells, Mark;
    NothingSent(y0.page);
    if e.now >= y0.clock {
      var y := y0.(clock := e.now);
      match e
      case Mount(_, _) =>
      case VisibilityChange(visible, _) =>
        var p := y.page.(visible := visible);
        RefreshFromSendsDwell(y.(page := p), 0);
        SameSent(y.page, p, RefreshFrom(y.(page := p), 0).page);
      case Intersect(i, fraction, now) =>
        if Active(y, i) {
          RefreshSendsDwell(Local(y.cards[i].(fraction := fraction), y.page), now);
        }
      case Unmount(i, now) =>
        if Active(y, i) {
          ReportSendsDwell(Local(y.cards[i].(timer := None), y.page), now);
        }
      case DwellInterval(i, now) =>
        if Active(y, i) {
          ReportSendsDwell(Local(y.cards[i], y.page), now);
        }
    }
  }

  lemma SameSent(p: Page, q: Page, r: Page)
    requires q == p.(visible := q.visible) && OnlyDwells(q, r)
    ensures OnlyDwells(p, r)
  {
  }

  lemma StepAgrees(y0: System, e: Event)
    requires Agrees(y0.page)
    ensures Agrees(Step(y0, e).page)
  {
    hide TimerFires, Agrees, OnlyDwells;
    if e.ImpressionTimer? {
      if Active(y0, e.i) {
        TimerAgrees(Local(y0.cards[e.i], y0.page), e.now);
      }
    } else {
      hide Step;
      StepSendsDwell(y0, e);
      DwellsAgree(y0.page, Step(y0, e).page);
    }
  }

  // ----- every run -----

  lemma RunOneMore(visible: bool, es: seq<Event>)
    requires es != []
    ensures Run(visible, es) == Step(Run(visible, es[..|es| - 1]), es[|es| - 1])
  {
  }

  lemma {:induction false} PageFollowsEvents(visible: bool, es: seq<Event>)
    ensures var y := Run(visible, es);
            && y.clock == Clock(es) && |y.cards| == Mounts(es) && y.page.visible == Foreground(visible, es)
            && Agrees(y.page)
  {
    hide Step, Agrees, Sound;
    if es == [] {
      NothingTaken(visible);
    } else {
      var before, last := es[..|es| - 1], es[|es| - 1];
      PageFollowsEvents(visible, before);
      RunsAreSound(visible, before);
      StepAgrees(Run(visible, before), last);
      PageMoves(Run(visible, before), last);
    }
  }

  lemma NothingTaken(visible: bool)
    ensures Agrees(Page({}, visible, [], []))
  {
  }

  lemma PageMoves(y0: System, e: Event)
    requires Sound(y0)
    ensures e.now < y0.clock ==> Step(y0, e) == y0
    ensures e.now >= y0.clock ==>
              var y := Step(y0, e);
              && y.clock == e.now
              && y.page.visible == (if e.VisibilityChange? then e.visible else y0.page.visible)
              && |y.cards| == |y0.cards| + if e.Mount? then 1 else 0
  {
    hide Refresh, RefreshFrom, TimerFires, ReportDwell, Unmounted;
    if e.now >= y0.clock && e.VisibilityChange? {
      RefreshFromPage(y0.(clock := e.now, page := y0.page.(visible := e.visible)), 0);
    } else if e.now >= y0.clock && !e.Mount? {
      OneTouched(y0, e);
    }
  }

  lemma {:induction false} RefreshFromPage(y: System, k: nat)
    requires k <= |y.cards|
    ensures var r := RefreshFrom(y, k);
            |r.cards| == |y.cards| && r.clock == y.clock && r.page.visible == y.page.visible
    decreases |y.cards| - k
  {
    hide Refresh;
    if k < |y.cards| {
      if y.cards[k].active {
        RefreshKeepsVisible(Local(y.cards[k], y.page), y.clock);
        RefreshFromPage(Put(y, k, Refresh(Local(y.cards[k], y.page), y.clock)), k + 1);
      } else {
        RefreshFromPage(y, k + 1);
      }
    }
  }

  lemma {:induction false} NotYetMounted(visible: bool, es: seq<Event>, i: nat)
    requires i >= Mounts(es)
    ensures !Watched(visible, es, i) && VisibleTime(visible, es, i) == 0.0
  {
    if es != [] {
      NotYetMounted(visible, es[..|es| - 1], i);
    }
  }

  /** The card's own variables say what the events say. */
  ghost predicate Tells(c: Card, now: real, visible: bool, es: seq<Event>, i: nat) {
    && c.token == TokenOf(es, i)
    && (c.active <==> Watched(visible, es, i))
    && (c.active ==> c.fraction == Fraction(es, i))
    && (c.since.Some? <==> InView(visible, es, i))
    && Seen(c, now) == VisibleTime(visible, es, i)
    && (c.since.Some? ==> now - c.since.value == Stretch(visible, es, i))
  }

  /** After any events, for any card: it has been in view for as long, and now without a break for as long,
      as the events say. */
  lemma {:induction false} ViewFollowsEvents(visible: bool, es: seq<Event>, i: nat)
    requires i < Mounts(es)
    ensures i < |Run(visible, es).cards|
    ensures Tells(Run(visible, es).cards[i], Run(visible, es).clock, visible, es, i)
  {
    hide Step, Sound, Run, Moves, Tells, Taken;
    var before, last := es[..|es| - 1], es[|es| - 1];
    var y0 := Run(visible, before);
    RunOneMore(visible, es);
    PageFollowsEvents(visible, before);
    PageFollowsEvents(visible, es);
    RunsAreSound(visible, before);
    PageMoves(y0, last);
    if !Happens(es) {
      ViewFollowsEvents(visible, before, i);
      NothingMoves(y0.cards[i], y0.clock, visible, es, i);
    } else if last.Mount? && Mounts(before) == i {
      NotYetMounted(visible, before, i);
      JustMounted(y0, last);
      NewCardTells(y0, visible, es, i);
    } else {
      ViewFollowsEvents(visible, before, i);
      SoundStands(y0, i);
      StepMoves(y0, last, i);
      MovedCardTells(y0.cards[i], Run(visible, es).cards[i], visible, es, i);
    }
  }

  lemma SoundStands(y: System, i: nat)
    requires Sound(y) && Settled(y, 0, |y.cards|) && i < |y.cards|
    ensures Stands(y, i) && forall j :: 0 <= j < |y.cards| ==> y.cards[j].id == j
  {
    hide Honest, Recorded, Truthful;
  }

  lemma NothingMoves(c: Card, now: real, visible: bool, es: seq<Event>, i: nat)
    requires es != [] && !Happens(es) && Tells(c, now, visible, es[..|es| - 1], i)
    ensures Tells(c, now, visible, es, i)
  {
  }

  lemma JustMounted(y0: System, e: Event)
    requires e.Mount? && e.now >= y0.clock
    ensures Step(y0, e).cards[|y0.cards|] == Mounted(|y0.cards|, e.token, y0.page)
  {
  }

  lemma NewCardTells(y0: System, visible: bool, es: seq<Event>, i: nat)
    requires es != [] && Happens(es) && es[|es| - 1].Mount? && Mounts(es[..|es| - 1]) == i
    requires y0 == Run(visible, es[..|es| - 1]) && Agrees(y0.page)
    requires !Watched(visible, es[..|es| - 1], i) && VisibleTime(visible, es[..|es| - 1], i) == 0.0
    ensures Tells(Mounted(i, es[|es| - 1].token, y0.page), es[|es| - 1].now, visible, es, i)
  {
    hide Run;
  }

  lemma MovedCardTells(c: Card, d: Card, visible: bool, es: seq<Event>, i: nat)
    requires es != [] && Happens(es) && !(es[|es| - 1].Mount? && Mounts(es[..|es| - 1]) == i)
    requires c.id == i && Tells(c, Clock(es[..|es| - 1]), visible, es[..|es| - 1], i)
    requires Moves(c, d, es[|es| - 1], Foreground(visible, es), Clock(es))
    ensures Tells(d, Clock(es), visible, es, i)
  {
    hide Run;
  }

  // ----- what is reported -----

  /** The whole number nearest to it, the larger one in the middle. */
  predicate Nearest(n: int, x: real) {
    n as real - 0.5 <= x < n as real + 0.5
  }

  function AtMostAnHour(ms: real): real {
    if ms < 3_600_000.0 then ms else 3_600_000.0
  }

  /** Entry `k` is of a card of the page; a dwell report carries what that card has been seen. */
  ghost predicate Carries(y: System, k: nat) {
    && k < |y.page.sent| && y.page.sent[k].card < |y.cards|
    && y.page.sent[k].token == y.cards[y.page.sent[k].card].token
    && (y.page.sent[k].report.Dwell? ==>
          Nearest(y.page.sent[k].report.activeMs,
                  AtMostAnHour(Seen(y.cards[y.page.sent[k].card], y.clock))))
  }

  lemma ReportCarries(l: Local, now: real)
    requires Truthful(l.card, now)
    ensures var r := ReportDwell(l, now);
            && Seen(r.card, now) == Seen(l.card, now)
            && (r.page.sent != l.page.sent ==>
                  && |r.page.sent| == |l.page.sent| + 1
                  && var e := r.page.sent[|l.page.sent|];
                     && e.card == l.card.id && e.token == l.card.token && e.report.Dwell?
                     && Nearest(e.report.activeMs, AtMostAnHour(Seen(l.card, now))))
  {
    AccumulateTruthful(l.card, now);
    DwellIsSeen(Accumulate(l.card, now), now);
  }

  lemma RefreshCarries(l: Local, now: real)
    requires Truthful(l.card, now)
    ensures var r := Refresh(l, now);
            && Seen(r.card, now) == Seen(l.card, now)
            && (r.page.sent != l.page.sent ==>
                  && |r.page.sent| == |l.page.sent| + 1
                  && var e := r.page.sent[|l.page.sent|];
                     && e.card == l.card.id && e.token == l.card.token && e.report.Dwell?
                     && Nearest(e.report.activeMs, AtMostAnHour(Seen(l.card, now))))
  {
    hide ReportDwell, Nearest, AtMostAnHour;
    var l0 := l.(card := l.card.(timer := None));
    ReportCarries(l0, now);
    ReportKeepsPlace(l0, now);
  }

  /** Only what is new since `from` is asked about. */
  ghost predicate AllCarry(y: System, from: nat) {
    forall k :: from <= k < |y.page.sent| ==> Carries(y, k)
  }

  lemma PutCarries(y: System, i: nat, l: Local, from: nat)
    requires i < |y.cards| && y.cards[i].id == i && AllCarry(y, from) && from <= |y.page.sent|
    requires l.card.token == y.cards[i].token && Seen(l.card, y.clock) == Seen(y.cards[i], y.clock)
    requires OnlyDwells(y.page, l.page)
    requires l.page.sent != y.page.sent ==>
               && |l.page.sent| == |y.page.sent| + 1
               && var e := l.page.sent[|y.page.sent|];
                  && e.card == i && e.token == y.cards[i].token && e.report.Dwell?
                  && Nearest(e.report.activeMs, AtMostAnHour(Seen(y.cards[i], y.clock)))
    ensures AllCarry(Put(y, i, l), from)
  {
    hide Seen, Nearest, AtMostAnHour;
    var r := Put(y, i, l);
    forall k | from <= k < |r.page.sent| ensures Carries(r, k) {
      if k < |y.page.sent| {
        assert r.page.sent[k] == r.page.sent[..|y.page.sent|][k];
        assert Carries(y, k);
      }
    }
  }

  lemma {:induction false} RefreshFromCarries(y: System, k: nat, from: nat)
    requires Sound(y) && Settled(y, 0, k) && k <= |y.cards| && AllCarry(y, from) && from <= |y.page.sent|
    ensures AllCarry(RefreshFrom(y, k), from)
    decreases |y.cards| - k
  {
    hide Refresh, AllCarry, Sound, Settled, OnlyDwells, Nearest, AtMostAnHour, Seen, Truthful;
    if k < |y.cards| {
      StandsAlone(y, k);
      if y.cards[k].active {
        var l := Local(y.cards[k], y.page);
        RefreshCarries(l, y.clock);
        RefreshSendsDwell(l, y.clock);
        RefreshMoves(l, VisibilityChange(true, y.clock), y.clock) by { SinceIsPast(l.card, y.clock); }
        PutCarries(y, k, Refresh(l, y.clock), from);
        NextIsSound(y, k);
        SentGrows(l, y.clock);
        RefreshFromCarries(Put(y, k, Refresh(l, y.clock)), k + 1, from);
      } else {
        NextIsSound(y, k);
        RefreshFromCarries(y, k + 1, from);
      }
    }
  }

  lemma SentGrows(l: Local, now: real)
    ensures |l.page.sent| <= |Refresh(l, now).page.sent|
  {
    hide Refresh;
    RefreshSendsDwell(l, now);
  }

  lemma SinceIsPast(c: Card, now: real)
    requires Truthful(c, now)
    ensures c.since.Some? ==> c.since.value <= now
  {
  }

  lemma StandsAlone(y: System, k: nat)
    requires Sound(y) && k < |y.cards|
    ensures y.cards[k].id == k && Truthful(y.cards[k], y.clock)
  {
    hide Honest, Recorded, Truthful;
  }

  lemma NextIsSound(y: System, k: nat)
    requires Sound(y) && Settled(y, 0, k) && k < |y.cards|
    ensures y.cards[k].active ==>
              var y1 := Put(y, k, Refresh(Local(y.cards[k], y.page), y.clock)); Sound(y1) && Settled(y1, 0, k + 1)
    ensures !y.cards[k].active ==> Settled(y, 0, k + 1)
  {
    hide Sound, Good, Placed, Refresh;
    var l := Local(y.cards[k], y.page);
    LocalOf(y, k);
    if y.cards[k].active {
      RefreshKeepsGood(l, y.clock);
      PutKeepsSound(y, k, Refresh(l, y.clock));
    } else {
      InactivePlaced(l, y.clock);
    }
  }

  // ----- the impression timer -----

  /** A card in view whose token is still free has its timer running since it came into view. */
  predicate Armed(c: Card, p: Page) {
    c.since.Some? && c.token !in p.observed ==> c.timer == c.since
  }

  /** The card that sent the token's impression knows it. */
  predicate KnowsOwn(y: System, e: Entry) {
    e.report.Impression? ==> e.card < |y.cards| && y.cards[e.card].qualified
  }

  ghost predicate Watchful(y: System) {
    && (forall i :: 0 <= i < |y.cards| ==> Armed(y.cards[i], y.page))
    && (forall k :: 0 <= k < |y.page.sent| ==> KnowsOwn(y, y.page.sent[k]))
  }

  lemma QualifiedIsObserved(c: Card, p: Page)
    requires Recorded(c, p) && Honest(p) && c.qualified
    ensures c.token in p.observed
  {
    hide Counting;
    var k :| 0 <= k < |p.sent| && p.sent[k].card == c.id && p.sent[k].token == c.token && p.sent[k].report.Impression?;
    assert p.sent[k].token in p.observed;
  }

  lemma RefreshArms(l: Local, now: real)
    requires Good(l, now) && Armed(l.card, l.page)
    ensures Armed(Refresh(l, now).card, Refresh(l, now).page)
  {
    hide ReportDwell, Recorded, Honest;
    if l.card.qualified {
      QualifiedIsObserved(l.card, l.page);
    }
    ReportKeepsPlace(l.(card := l.card.(timer := None)), now);
  }

  lemma PutKeepsWatchful(y: System, i: nat, l: Local)
    requires Watchful(y) && i < |y.cards| && Armed(l.card, l.page)
    requires OnlyDwells(y.page, l.page) && (y.cards[i].qualified ==> l.card.qualified)
    ensures Watchful(Put(y, i, l))
  {
    var r := Put(y, i, l);
    forall k | 0 <= k < |r.page.sent| ensures KnowsOwn(r, r.page.sent[k]) {
      if k < |y.page.sent| {
        assert r.page.sent[k] == r.page.sent[..|y.page.sent|][k];
        assert KnowsOwn(y, y.page.sent[k]);
      }
    }
    assert forall j :: 0 <= j < |y.cards| ==> Armed(y.cards[j], y.page);
  }

  lemma RefreshKeepsQualified(l: Local, now: real)
    ensures Refresh(l, now).card.qualified == l.card.qualified
  {
    hide ReportDwell;
    ReportKeepsPlace(l.(card := l.card.(timer := None)), now);
  }

  lemma {:induction false} RefreshFromKeepsWatchful(y: System, k: nat)
    requires Sound(y) && Settled(y, 0, k) && k <= |y.cards| && Watchful(y)
    ensures Watchful(RefreshFrom(y, k))
    decreases |y.cards| - k
  {
    hide Refresh, Watchful, Sound, Settled, OnlyDwells, Good, Armed;
    if k < |y.cards| {
      NextIsSound(y, k);
      if y.cards[k].active {
        var l := Local(y.cards[k], y.page);
        LocalOf(y, k);
        ArmedAt(y, k);
        RefreshArms(l, y.clock);
        RefreshSendsDwell(l, y.clock);
        RefreshKeepsQualified(l, y.clock);
        PutKeepsWatchful(y, k, Refresh(l, y.clock));
        RefreshFromKeepsWatchful(Put(y, k, Refresh(l, y.clock)), k + 1);
      } else {
        RefreshFromKeepsWatchful(y, k + 1);
      }
    }
  }

  lemma ArmedAt(y: System, k: nat)
    requires Watchful(y) && k < |y.cards|
    ensures Armed(y.cards[k], y.page)
  {
  }

  lemma TimerKeepsWatchful(y: System, i: nat, now: real)
    requires Watchful(y) && Sound(y) && i < |y.cards|
    ensures Watchful(Put(y, i, TimerFires(Local(y.cards[i], y.page), now)))
  {
    hide Honest, Recorded, Truthful;
    var l := TimerFires(Local(y.cards[i], y.page), now);
    var r := Put(y, i, l);
    forall k | 0 <= k < |r.page.sent| ensures KnowsOwn(r, r.page.sent[k]) {
      if k < |y.page.sent| {
        assert r.page.sent[k] == y.page.sent[k];
        assert KnowsOwn(y, y.page.sent[k]);
      }
    }
    assert forall j :: 0 <= j < |y.cards| ==> Armed(y.cards[j], y.page);
  }

  lemma StepKeepsWatchful(y0: System, e: Event)
    requires Watchful(y0) && Sound(y0) && Settled(y0, 0, |y0.cards|)
    ensures Watchful(Step(y0, e))
  {
    hide Watchful, Sound, Refresh, RefreshFrom, TimerFires, ReportDwell, OnlyDwells, Good, Armed, Mark;
    if e.now >= y0.clock {
      var y := y0.(clock := e.now);
      ClockKeepsSound(y0, e.now);
      ClockKeepsWatchful(y0, e.now);
      match e
      case Mount(token, _) => MountKeepsWatchful(y, token);
      case VisibilityChange(visible, _) =>
        var y1 := y.(page := y.page.(visible := visible));
        VisibleKeepsSound(y, visible);
        VisibleKeepsWatchful(y, visible);
        RefreshFromKeepsWatchful(y1, 0);
      case ImpressionTimer(i, now) =>
        if Active(y, i) {
          TimerKeepsWatchful(y, i, now);
        }
      case Intersect(i, fraction, now) =>
        if Active(y, i) {
          var l := Local(y.cards[i].(fraction := fraction), y.page);
          LocalOf(y, i);
          ArmedAt(y, i);
          FractionKeepsGood(Local(y.cards[i], y.page), fraction, now);
          ArmedAnyhow(y.cards[i], fraction, y.page);
          RefreshArms(l, now);
          RefreshSendsDwell(l, now);
          RefreshKeepsQualified(l, now);
          PutKeepsWatchful(y, i, Refresh(l, now));
        }
      case Unmount(i, now) =>
        if Active(y, i) {
          UnmountedIsArmed(Local(y.cards[i], y.page), now);
          PutKeepsWatchful(y, i, Unmounted(Local(y.cards[i], y.page), now));
        }
      case DwellInterval(i, now) =>
        if Active(y, i) {
          var l := Local(y.cards[i], y.page);
          ReportKeepsPlace(l, now);
          ReportSendsDwell(l, now);
          ArmedAt(y, i);
          ReportArmed(l, now);
          PutKeepsWatchful(y, i, ReportDwell(l, now));
        }
    }
  }

  lemma ReportArmed(l: Local, now: real)
    requires Armed(l.card, l.page)
    ensures Armed(ReportDwell(l, now).card, ReportDwell(l, now).page)
  {
  }

  lemma ArmedAnyhow(c: Card, fraction: real, p: Page)
    requires Armed(c, p)
    ensures Armed(c.(fraction := fraction), p)
  {
  }

  lemma UnmountedIsArmed(l: Local, now: real)
    ensures var r := Unmounted(l, now);
            Armed(r.card, r.page) && OnlyDwells(l.page, r.page) && r.card.qualified == l.card.qualified
  {
    hide ReportDwell, OnlyDwells;
    ReportKeepsPlace(l.(card := l.card.(timer := None)), now);
    ReportSendsDwell(l.(card := l.card.(timer := None)), now);
  }

  lemma ClockKeepsWatchful(y: System, now: real)
    requires Watchful(y)
    ensures Watchful(y.(clock := now))
  {
    var r := y.(clock := now);
    forall k | 0 <= k < |r.page.sent| ensures KnowsOwn(r, r.page.sent[k]) {
      assert KnowsOwn(y, y.page.sent[k]);
    }
  }

  lemma VisibleKeepsWatchful(y: System, visible: bool)
    requires Watchful(y)
    ensures Watchful(y.(page := y.page.(visible := visible)))
  {
    var r := y.(page := y.page.(visible := visible));
    forall k | 0 <= k < |r.page.sent| ensures KnowsOwn(r, r.page.sent[k]) {
      assert KnowsOwn(y, y.page.sent[k]);
    }
    assert forall j :: 0 <= j < |y.cards| ==> Armed(y.cards[j], y.page);
  }

  lemma MountKeepsWatchful(y: System, token: Token)
    requires Watchful(y)
    ensures Watchful(y.(cards := y.cards + [Mounted(|y.cards|, token, y.page)]))
  {
    var r := y.(cards := y.cards + [Mounted(|y.cards|, token, y.page)]);
    forall k | 0 <= k < |r.page.sent| ensures KnowsOwn(r, r.page.sent[k]) {
      assert KnowsOwn(y, y.page.sent[k]);
    }
    assert forall j :: 0 <= j < |y.cards| ==> Armed(y.cards[j], y.page);
  }

  lemma {:induction false} RunsAreWatchful(visible: bool, es: seq<Event>)
    ensures Watchful(Run(visible, es))
  {
    hide Step, Watchful, Sound;
    if es == [] {
      NobodyWatches(visible);
    } else {
      RunsAreWatchful(visible, es[..|es| - 1]);
      RunsAreSound(visible, es[..|es| - 1]);
      StepKeepsWatchful(Run(visible, es[..|es| - 1]), es[|es| - 1]);
    }
  }

  lemma NobodyWatches(visible: bool)
    ensures Watchful(System([], Page({}, visible, [], []), 0.0))
  {
  }

  // ----- main results -----

  /** What the last of the events adds to what was sent: only cards of the page send, each for its own token.
      A dwell report has the time its card has been in view, to the nearest millisecond and an hour at most.
      An impression is sent by the timer of a card that has been in view for a second without a break, with
      the last fraction, and for no token that has one. */
  lemma ReportsFollowEvents(visible: bool, es: seq<Event>, k: nat)
    requires es != []
    requires |Run(visible, es[..|es| - 1]).page.sent| <= k < |Run(visible, es).page.sent|
    ensures var e, before, last := Run(visible, es).page.sent[k], es[..|es| - 1], es[|es| - 1];
            && Happens(es) && e.card < Mounts(es) && e.token == TokenOf(es, e.card)
            && (e.report.Dwell? ==> Nearest(e.report.activeMs, AtMostAnHour(VisibleTime(visible, es, e.card))))
            && (e.report.Impression? ==>
                  && last == ImpressionTimer(e.card, last.now) && Stretch(visible, es, e.card) >= 1000.0
                  && e.report.fraction == Fraction(es, e.card)
                  && !Taken(Run(visible, before).page.sent, e.token))
  {
    hide Run, Step, Sound, Carries, Tells, Nearest, AtMostAnHour, Taken, Watchful, OnlyDwells;
    var before, last := es[..|es| - 1], es[|es| - 1];
    var y0, y := Run(visible, before), Run(visible, es);
    RunOneMore(visible, es);
    RunsAreSound(visible, before);
    PageMoves(y0, last);
    PageFollowsEvents(visible, before);
    PageFollowsEvents(visible, es);
    assert Happens(es);
    if last.ImpressionTimer? {
      TimerSends(y0, last);
      ViewFollowsEvents(visible, es, last.i);
      StretchTold(y.cards[last.i], y.clock, visible, es, last.i);
    } else {
      StepCarries(y0, last);
      CarriesWhat(y, k);
      var e := y.page.sent[k];
      ViewFollowsEvents(visible, es, e.card);
      StretchTold(y.cards[e.card], y.clock, visible, es, e.card);
      StepSendsDwell(y0, last);
      NewIsDwell(y0.page, y.page, k);
    }
  }

  lemma StretchTold(c: Card, now: real, visible: bool, es: seq<Event>, i: nat)
    requires Tells(c, now, visible, es, i)
    ensures c.token == TokenOf(es, i) && (c.active ==> c.fraction == Fraction(es, i))
    ensures Seen(c, now) == VisibleTime(visible, es, i)
    ensures c.since.Some? ==> now - c.since.value == Stretch(visible, es, i)
    ensures c.since.Some? <==> InView(visible, es, i)
    ensures c.active <==> Watched(visible, es, i)
  {
  }

  lemma NewIsDwell(p: Page, q: Page, k: nat)
    requires OnlyDwells(p, q) && |p.sent| <= k < |q.sent|
    ensures q.sent[k].report.Dwell?
  {
  }

  lemma CarriesWhat(y: System, k: nat)
    requires Carries(y, k)
    ensures var e := y.page.sent[k];
            && e.card < |y.cards| && e.token == y.cards[e.card].token
            && (e.report.Dwell? ==> Nearest(e.report.activeMs, AtMostAnHour(Seen(y.cards[e.card], y.clock))))
  {
  }

  /** What an impression timer sends. */
  lemma TimerSends(y0: System, e: Event)
    requires Sound(y0) && Settled(y0, 0, |y0.cards|) && Agrees(y0.page) && e.ImpressionTimer?
    ensures var y := Step(y0, e);
            |y.page.sent| > |y0.page.sent| ==>
              && e.i < |y0.cards| == |y.cards| && |y.page.sent| == |y0.page.sent| + 1
              && y.cards[e.i].active && y.cards[e.i].since.Some? && e.now - y.cards[e.i].since.value >= 1000.0
              && !Taken(y0.page.sent, y.cards[e.i].token)
              && y.page.sent[|y0.page.sent|]
                 == Entry(e.i, y.cards[e.i].token, Impression(y.cards[e.i].fraction))
  {
    hide Taken, Honest, Recorded;
    if e.now >= y0.clock && Active(y0, e.i) {
      SoundStands(y0, e.i);
    }
  }

  lemma StepCarries(y0: System, e: Event)
    requires Sound(y0) && Settled(y0, 0, |y0.cards|) && e.now >= y0.clock && !e.ImpressionTimer?
    ensures forall k :: |y0.page.sent| <= k < |Step(y0, e).page.sent| ==> Carries(Step(y0, e), k)
  {
    hide Sound, Settled, Refresh, RefreshFrom, ReportDwell, Carries, Good, Truthful, Mark;
    var y := y0.(clock := e.now);
    ClockKeepsSound(y0, e.now);
    var from := |y0.page.sent|;
    assert AllCarry(y, from);
    match e
    case Mount(_, _) =>
    case VisibilityChange(visible, _) =>
      var y1 := y.(page := y.page.(visible := visible));
      VisibleKeepsSound(y, visible);
      assert Settled(y1, 0, 0) by { NoneSettled(y1); }
      assert AllCarry(y1, from);
      RefreshFromCarries(y1, 0, from);
    case Intersect(i, fraction, now) =>
      if Active(y, i) {
        var l := Local(y.cards[i].(fraction := fraction), y.page);
        StandsAlone(y, i);
        TruthfulAnyhow(y.cards[i], fraction, now);
        RefreshCarries(l, now);
        RefreshSendsDwell(l, now);
        SinceIsPast(l.card, now);
        RefreshMoves(l, VisibilityChange(true, now), now);
        PutCarries(y, i, Refresh(l, now), from);
      }
    case Unmount(i, now) =>
      if Active(y, i) {
        StandsAlone(y, i);
        UnmountCarries(Local(y.cards[i], y.page), now);
        PutCarries(y, i, Unmounted(Local(y.cards[i], y.page), now), from);
      }
    case DwellInterval(i, now) =>
      if Active(y, i) {
        var l := Local(y.cards[i], y.page);
        StandsAlone(y, i);
        ReportCarries(l, now);
        ReportSendsDwell(l, now);
        ReportKeepsPlace(l, now);
        PutCarries(y, i, ReportDwell(l, now), from);
      }
  }

  lemma NoneSettled(y: System)
    ensures Settled(y, 0, 0)
  {
  }

  lemma TruthfulAnyhow(c: Card, fraction: real, now: real)
    requires Truthful(c, now)
    ensures Truthful(c.(fraction := fraction), now)
    ensures Seen(c.(fraction := fraction), now) == Seen(c, now)
  {
  }

  lemma UnmountCarries(l: Local, now: real)
    requires Truthful(l.card, now)
    ensures var r := Unmounted(l, now);
            && r.card.token == l.card.token && Seen(r.card, now) == Seen(l.card, now) && OnlyDwells(l.page, r.page)
            && (r.page.sent != l.page.sent ==>
                  && |r.page.sent| == |l.page.sent| + 1
                  && var e := r.page.sent[|l.page.sent|];
                     && e.card == l.card.id && e.token == l.card.token && e.report.Dwell?
                     && Nearest(e.report.activeMs, AtMostAnHour(Seen(l.card, now))))
  {
    hide ReportDwell, Nearest, AtMostAnHour, OnlyDwells;
    var l0 := l.(card := l.card.(timer := None));
    ReportCarries(l0, now);
    ReportKeepsPlace(l0, now);
    ReportSendsDwell(l0, now);
  }

  /** And the impression that is due is sent: by the timer of a card that has been in view for a second
      without a break, if its token has none yet. */
  lemma DueImpressionIsSent(visible: bool, es: seq<Event>, i: nat, now: real)
    requires InView(visible, es, i) && now >= Clock(es)
    requires Stretch(visible, es, i) + (now - Clock(es)) >= 1000.0
    requires !Taken(Run(visible, es).page.sent, TokenOf(es, i))
    ensures Run(visible, es + [ImpressionTimer(i, now)]).page.sent
         == Run(visible, es).page.sent + [Entry(i, TokenOf(es, i), Impression(Fraction(es, i)))]
  {
    hide Run, Sound, Tells, Taken, Watchful, InView;
    var y, fire := Run(visible, es), ImpressionTimer(i, now);
    assert (es + [fire])[..|es|] == es;
    RunOneMore(visible, es + [fire]);
    PageFollowsEvents(visible, es);
    InViewIsWatched(visible, es, i);
    if i >= Mounts(es) {
      NotYetMounted(visible, es, i);
      assert false;
    }
    ViewFollowsEvents(visible, es, i);
    StretchTold(y.cards[i], y.clock, visible, es, i);
    RunsAreWatchful(visible, es);
    ArmedAt(y, i);
    RunsAreSound(visible, es);
    SoundStands(y, i);
  }

  lemma InViewIsWatched(visible: bool, es: seq<Event>, i: nat)
    ensures InView(visible, es, i) ==> Watched(visible, es, i)
  {
  }

  /** The last dwell report of card `i` says `n`, or there is none and `n` is zero. */
  ghost predicate LastSays(sent: seq<Entry>, i: nat, n: int) {
    || (n == 0 && forall k :: 0 <= k < |sent| && sent[k].card == i ==> !sent[k].report.Dwell?)
    || exists k :: 0 <= k < |sent| && LastAt(sent, i, n, k)
  }

  predicate LastAt(sent: seq<Entry>, i: nat, n: int, k: int) {
    && 0 <= k < |sent| && sent[k].card == i && sent[k].report.Dwell? && sent[k].report.activeMs == n
    && forall j :: k < j < |sent| && sent[j].card == i ==> !sent[j].report.Dwell?
  }

  lemma {:induction false} LastOfDwells(sent: seq<Entry>, i: nat)
    ensures var d := Dwells(sent, i);
            LastSays(sent, i, if d != [] && d[|d| - 1].Dwell? then d[|d| - 1].activeMs else 0)
  {
    if sent != [] {
      var n := |sent| - 1;
      var before, last := sent[..n], sent[n];
      LastOfDwells(before, i);
      if last.card == i && last.report.Dwell? {
        assert LastAt(sent, i, last.report.activeMs, n);
      } else {
        var d := Dwells(before, i);
        var v := if d != [] && d[|d| - 1].Dwell? then d[|d| - 1].activeMs else 0;
        if k :| 0 <= k < |before| && LastAt(before, i, v, k) {
          assert LastAt(sent, i, v, k);
        }
      }
    }
  }

  lemma LastReportedIsLast(c: Card, p: Page)
    requires Recorded(c, p)
    ensures LastSays(p.sent, c.id, c.lastReported)
  {
    hide LastSays;
    LastOfDwells(p.sent, c.id);
  }

  /** A card that has sent its impression is reported in full when it leaves, by unmounting or scrolling
      away, and whenever its interval elapses in view before the hour is full: then the last dwell report
      says the time it has been in view. */
  lemma DwellIsReported(visible: bool, es: seq<Event>, i: nat, e: Event)
    requires Watched(visible, es, i) && e.now >= Clock(es)
    requires exists k :: 0 <= k < |Run(visible, es).page.sent| && Run(visible, es).page.sent[k].card == i
                         && Run(visible, es).page.sent[k].report.Impression?
    requires || e == Unmount(i, e.now)
             || (e.Intersect? && e.i == i && e.fraction < 0.5)
             || (e == DwellInterval(i, e.now) && InView(visible, es, i) && VisibleTime(visible, es, i) < 3_600_000.0)
    ensures exists n :: LastSays(Run(visible, es + [e]).page.sent, i, n)
                        && Nearest(n, AtMostAnHour(VisibleTime(visible, es + [e], i)))
  {
    hide Run, Step, Sound, Tells, Watchful, Watched, InView, Nearest, AtMostAnHour, LastSays, Settled, VisibleTime;
    var y := Run(visible, es);
    assert (es + [e])[..|es|] == es;
    RunOneMore(visible, es + [e]);
    PageFollowsEvents(visible, es);
    PageFollowsEvents(visible, es + [e]);
    if i >= Mounts(es) {
      NotYetMounted(visible, es, i);
      assert false;
    }
    RunsAreSound(visible, es);
    RunsAreSound(visible, es + [e]);
    ViewFollowsEvents(visible, es, i);
    StretchTold(y.cards[i], y.clock, visible, es, i);
    RunsAreWatchful(visible, es);
    Knows(y, i);
    PageMoves(y, e);
    ViewFollowsEvents(visible, es + [e], i);
    var y' := Run(visible, es + [e]);
    StretchTold(y'.cards[i], y'.clock, visible, es + [e], i);
    FullyReported(y, e);
    RecordedCard(y', i);
    LastReportedIsLast(y'.cards[i], y'.page);
  }

  lemma Knows(y: System, i: nat)
    requires Watchful(y)
    ensures (exists k :: 0 <= k < |y.page.sent| && y.page.sent[k].card == i && y.page.sent[k].report.Impression?) ==>
              i < |y.cards| && y.cards[i].qualified
  {
    if k :| 0 <= k < |y.page.sent| && y.page.sent[k].card == i && y.page.sent[k].report.Impression? {
      assert KnowsOwn(y, y.page.sent[k]);
    }
  }

  lemma RecordedCard(y: System, i: nat)
    requires Sound(y) && i < |y.cards|
    ensures y.cards[i].id == i && Recorded(y.cards[i], y.page)
  {
    hide Honest, Recorded, Truthful;
  }

  lemma NearestRound(x: real)
    ensures Nearest(Round(Capped(x)), AtMostAnHour(x))
  {
  }

  lemma FullyReported(y0: System, e: Event)
    requires Sound(y0) && Settled(y0, 0, |y0.cards|) && e.now >= y0.clock
    requires e.Unmount? || (e.Intersect? && e.fraction < 0.5) || e.DwellInterval?
    requires e.i < |y0.cards| && y0.cards[e.i].active && y0.cards[e.i].qualified
    requires e.DwellInterval? ==> y0.cards[e.i].since.Some? && Seen(y0.cards[e.i], y0.clock) < 3_600_000.0
    ensures var y := Step(y0, e);
            e.i < |y.cards| && Nearest(y.cards[e.i].lastReported, AtMostAnHour(Seen(y.cards[e.i], y.clock)))
  {
    hide Sound, Good, ReportDwell, Nearest, AtMostAnHour, Round, Capped;
    var y := y0.(clock := e.now);
    SoundStands(y0, e.i);
    ClockKeepsSound(y0, e.now);
    LocalOf(y, e.i);
    var l := Local(y.cards[e.i], y.page);
    if e.DwellInterval? {
      StillTicking(y0.cards[e.i], y0.clock, y0.page.visible);
      ReportReportsAll(l, e.now);
      ReportCardSeen(l, e.now);
    } else {
      var l0 := if e.Intersect? then l.(card := l.card.(fraction := e.fraction, timer := None))
                else l.(card := l.card.(timer := None));
      StillGood(l, l0, e.now);
      ReportReportsAll(l0, e.now);
      ReportCardSeen(l0, e.now);
    }
    NearestRound(Seen(Step(y0, e).cards[e.i], e.now));
  }

  lemma ReportCardSeen(l: Local, now: real)
    ensures Seen(ReportDwell(l, now).card, now) == Seen(l.card, now)
    ensures ReportDwell(l, now).card.since == l.card.since && ReportDwell(l, now).card.seenBefore == l.card.seenBefore
  {
    ReportKeepsPlace(l, now);
  }

  lemma StillGood(l: Local, l0: Local, now: real)
    requires Good(l, now) && l0 == l.(card := l.card.(fraction := l0.card.fraction, timer := None))
    ensures Good(l0, now)
  {
    hide Honest, Counting, HasImpression;
  }

  lemma StillTicking(c: Card, now: real, visible: bool)
    requires Truthful(c, now) && Placed(c, visible) && c.since.Some? && Seen(c, now) < 3_600_000.0
    ensures c.ticking
  {
  }

  /** The interval that reports the full hour is the last one: it stops. */
  lemma FullHourHalts(visible: bool, es: seq<Event>, i: nat, now: real)
    requires i < Mounts(es) && now >= Clock(es)
    requires VisibleTime(visible, es + [DwellInterval(i, now)], i) >= 3_600_000.0
    requires Run(visible, es + [DwellInterval(i, now)]).page.sent != Run(visible, es).page.sent
    ensures i < |Run(visible, es + [DwellInterval(i, now)]).cards|
    ensures !Run(visible, es + [DwellInterval(i, now)]).cards[i].ticking
  {
    hide Run, Sound, Tells, VisibleTime;
    var tick := DwellInterval(i, now);
    var y0, y := Run(visible, es), Run(visible, es + [tick]);
    assert (es + [tick])[..|es|] == es;
    RunOneMore(visible, es + [tick]);
    PageFollowsEvents(visible, es);
    RunsAreSound(visible, es);
    PageMoves(y0, tick);
    PageFollowsEvents(visible, es + [tick]);
    ViewFollowsEvents(visible, es + [tick], i);
    StretchTold(y.cards[i], y.clock, visible, es + [tick], i);
    ClockKeepsSound(y0, now);
    StandsAlone(y0.(clock := now), i);
    ReportAtCapHalts(Local(y0.cards[i], y0.page), now);
  }

  lemma ReportAtCapHalts(l: Local, now: real)
    requires Truthful(l.card, now)
    ensures var r := ReportDwell(l, now);
            r.page.sent != l.page.sent && Seen(r.card, now) >= 3_600_000.0 ==> !r.card.ticking
  {
    AccumulateTruthful(l.card, now);
    DwellIsSeen(Accumulate(l.card, now), now);
  }
}
