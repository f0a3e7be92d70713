/**
 The coalescing single-flight loop around the warehouse merge: `canonicalize` in bq-sink/src/index.ts.
 The function runs without interruption up to its one `await`, so an action is either a request (a
 start-up or timer call, run to its return or to its await) or the settling of the merge in flight
 (run to the next await or to the end). The clock counts actions.
 */
module Coalescer {
  datatype Request = Request(days: int, at: nat)

  datatype Outcome = Open | Done(end: nat, ok: bool)

  datatype Merge = Merge(lookback: nat, start: nat, outcome: Outcome)

  datatype State = State(running: bool, pending: nat, requests: seq<Request>, merges: seq<Merge>, clock: nat)

  datatype Action = Ask(days: int) | Settle(ok: bool)

  const INITIAL := State(false, 0, [], [], 0)

  function Max(a: nat, b: int): nat {
    if b > a then b else a
  }

  predicate InFlight(merges: seq<Merge>) {
    merges != [] && merges[|merges| - 1].outcome.Open?
  }

  /** The loop guard: start a merge over everything pending, or leave. */
  function Resume(s: State): State {
    if s.pending > 0
    then s.(running := true, pending := 0, merges := s.merges + [Merge(s.pending, s.clock, Open)])
    else s.(running := false)
  }

  function Tick(s: State): State {
    s.(clock := s.clock + 1)
  }

  function Step(s: State, a: Action): State {
    match a
    case Ask(days) =>
      var asked := s.(pending := Max(s.pending, days), requests := s.requests + [Request(days, s.clock)]);
      Tick(if s.running then asked else Resume(asked))
    case Settle(ok) =>
      if !InFlight(s.merges) then s
      else Tick(Resume(s.(merges := Settled(s.merges, s.clock, ok))))
  }

  function Settled(merges: seq<Merge>, now: nat, ok: bool): (r: seq<Merge>)
    requires InFlight(merges)
    ensures |r| == |merges| && !InFlight(r)
  {
    var last := merges[|merges| - 1];
    merges[..|merges| - 1] + [last.(outcome := Done(now, ok))]
  }

  function Run(actions: seq<Action>): State {
    if actions == [] then INITIAL else Step(Run(actions[..|actions| - 1]), actions[|actions| - 1])
  }

  /** The module variables of the worker, and the history its environment observes. */
  class Worker {
    var canonicalizationRunning: bool
    var pendingLookbackDays: nat
    ghost var requests: seq<Request>
    ghost var merges: seq<Merge>
    ghost var clock: nat

    ghost function View(): State
      reads this
    {
      State(canonicalizationRunning, pendingLookbackDays, requests, merges, clock)
    }

    constructor ()
      ensures View() == INITIAL
    {
      canonicalizationRunning, pendingLookbackDays := false, 0;
      requests, merges, clock := [], [], 0;
    }

    /** A call, up to its return or to the await of the merge it starts. */
    method Canonicalize(requestedLookbackDays: int) returns (started: bool)
      modifies this
      ensures View() == Step(old(View()), Ask(requestedLookbackDays))
      ensures started <==> |merges| > |old(merges)|
    {
      requests := requests + [Request(requestedLookbackDays, clock)];
      if requestedLookbackDays > pendingLookbackDays {
        pendingLookbackDays := requestedLookbackDays;
      }
      started := false;
      if !canonicalizationRunning {
        canonicalizationRunning := true;
        started := NextMerge();
      }
      clock := clock + 1;
    }

    /** The code behind the await: success and failure are logged alike, and the loop goes round. */
    method MergeSettled(ok: bool) returns (started: bool)
      requires canonicalizationRunning && InFlight(merges)
      modifies this
      ensures View() == Step(old(View()), Settle(ok))
      ensures started <==> |merges| > |old(merges)|
    {
      merges := Settled(merges, clock, ok);
      started := NextMerge();
      clock := clock + 1;
    }

    method NextMerge() returns (started: bool)
      requires canonicalizationRunning
      modifies this
      ensures View() == Resume(old(View()))
      ensures started <==> old(pendingLookbackDays) > 0
    {
      started := pendingLookbackDays > 0;
      if started {
        merges := merges + [Merge(pendingLookbackDays, clock, Open)];
        pendingLookbackDays := 0;
      } else {
        canonicalizationRunning := false;
      }
    }
  }

  // ----- what every run keeps -----

  /** The largest lookback asked for after `from` and no later than `to`; 0 if there is none. */
  function MaxDays(requests: seq<Request>, from: int, to: int): nat {
    if requests == [] then 0
    else
      var r := requests[|requests| - 1];
      var earlier := MaxDays(requests[..|requests| - 1], from, to);
      if from < r.at <= to then Max(earlier, r.days) else earlier
  }

  function StartBefore(merges: seq<Merge>, i: nat): int
    requires i <= |merges|
  {
    if i == 0 then -1 else merges[i - 1].start
  }

  ghost predicate OneAtATime(merges: seq<Merge>) {
    forall i, j :: 0 <= i < j < |merges| ==> merges[i].outcome.Done? && merges[i].outcome.end <= merges[j].start
  }

  ghost predicate Orderly(merges: seq<Merge>, clock: nat) {
    && (forall i :: 0 <= i < |merges| ==> merges[i].start < clock)
    && (forall i :: 0 <= i < |merges| && merges[i].outcome.Done? ==> merges[i].start < merges[i].outcome.end < clock)
    && OneAtATime(merges)
  }

  /** A merge looks back exactly as far as the requests since the start of the one before it need. */
  ghost predicate Exact(requests: seq<Request>, merges: seq<Merge>) {
    forall i :: 0 <= i < |merges| ==>
      merges[i].lookback == MaxDays(requests, StartBefore(merges, i), merges[i].start) > 0
  }

  ghost predicate Timely(requests: seq<Request>, clock: nat) {
    forall k :: 0 <= k < |requests| ==> requests[k].at < clock
  }

  ghost predicate Sound(s: State) {
    && (s.running <==> InFlight(s.merges))
    && (s.pending > 0 ==> s.running)
    && Orderly(s.merges, s.clock)
    && Timely(s.requests, s.clock)
    && Exact(s.requests, s.merges)
    && s.pending == MaxDays(s.requests, StartBefore(s.merges, |s.merges|), s.clock)
  }

  lemma AskedSince(requests: seq<Request>, r: Request, from: int, to: int)
    ensures MaxDays(requests + [r], from, to)
         == if from < r.at <= to then Max(MaxDays(requests, from, to), r.days) else MaxDays(requests, from, to)
  {
    assert (requests + [r])[..|requests + [r]| - 1] == requests;
  }

  /** Requests lie in the past, so a window reaching to now may as well end now or later. */
  lemma {:induction false} WindowEnd(requests: seq<Request>, from: int, to: int, clock: nat)
    requires Timely(requests, clock) && to >= clock - 1
    ensures MaxDays(requests, from, to) == MaxDays(requests, from, clock)
  {
    if requests != [] {
      WindowEnd(requests[..|requests| - 1], from, to, clock);
    }
  }

  lemma {:induction false} EmptyWindow(requests: seq<Request>, from: int, to: int, clock: nat)
    requires Timely(requests, clock) && from >= clock - 1
    ensures MaxDays(requests, from, to) == 0
  {
    if requests != [] {
      EmptyWindow(requests[..|requests| - 1], from, to, clock);
    }
  }

  lemma ExactAfterAsk(requests: seq<Request>, merges: seq<Merge>, r: Request)
    requires Exact(requests, merges) && forall i :: 0 <= i < |merges| ==> merges[i].start < r.at
    ensures Exact(requests + [r], merges)
  {
    hide MaxDays;
    forall i | 0 <= i < |merges|
      ensures merges[i].lookback == MaxDays(requests + [r], StartBefore(merges, i), merges[i].start) > 0
    {
      AskedSince(requests, r, StartBefore(merges, i), merges[i].start);
    }
  }

  lemma ExactAfterStart(requests: seq<Request>, merges: seq<Merge>, m: Merge)
    requires Exact(requests, merges)
    requires m.lookback == MaxDays(requests, StartBefore(merges, |merges|), m.start) > 0
    ensures Exact(requests, merges + [m])
  {
    hide MaxDays;
    var all := merges + [m];
    forall i | 0 <= i < |all|
      ensures all[i].lookback == MaxDays(requests, StartBefore(all, i), all[i].start) > 0
    {
      assert StartBefore(all, i) == StartBefore(merges, i);
    }
  }

  lemma OrderlyAfterStart(merges: seq<Merge>, m: Merge, clock: nat)
    requires Orderly(merges, clock + 1) && !InFlight(merges) && m.start == clock && m.outcome.Open?
    ensures Orderly(merges + [m], clock + 1)
  {
    var all := merges + [m];
    assert forall i :: 0 <= i < |merges| ==> all[i] == merges[i] && merges[i].outcome.Done?;
  }

  lemma OrderlyAfterSettle(merges: seq<Merge>, clock: nat, ok: bool)
    requires Orderly(merges, clock) && InFlight(merges)
    ensures Orderly(Settled(merges, clock, ok), clock + 1)
  {
    var all, last := Settled(merges, clock, ok), |merges| - 1;
    assert forall i :: 0 <= i < last ==> all[i] == merges[i];
    assert all[last].start == merges[last].start && all[last].outcome == Done(clock, ok);
  }

  lemma ExactAfterSettle(requests: seq<Request>, merges: seq<Merge>, clock: nat, ok: bool)
    requires Exact(requests, merges) && InFlight(merges)
    ensures var m := Settled(merges, clock, ok);
            Exact(requests, m) && StartBefore(m, |m|) == StartBefore(merges, |merges|)
  {
    hide MaxDays;
    var m := Settled(merges, clock, ok);
    forall i | 0 <= i < |m|
      ensures m[i].lookback == MaxDays(requests, StartBefore(m, i), m[i].start) > 0
    {
      assert m[i].lookback == merges[i].lookback && m[i].start == merges[i].start;
      assert StartBefore(m, i) == StartBefore(merges, i);
    }
  }

  /** Starting what is pending, with the loop about to look at it and no merge in flight. */
  lemma ResumeKeeps(s: State)
    requires !InFlight(s.merges) && Orderly(s.merges, s.clock + 1) && Exact(s.requests, s.merges)
    requires Timely(s.requests, s.clock + 1)
    requires s.pending == MaxDays(s.requests, StartBefore(s.merges, |s.merges|), s.clock)
    ensures Sound(Tick(Resume(s)))
  {
    hide MaxDays, Exact, Orderly, Timely;
    if s.pending > 0 {
      var m := Merge(s.pending, s.clock, Open);
      ExactAfterStart(s.requests, s.merges, m);
      OrderlyAfterStart(s.merges, m, s.clock);
      EmptyWindow(s.requests, s.clock, s.clock + 1, s.clock + 1);
    } else {
      WindowEnd(s.requests, StartBefore(s.merges, |s.merges|), s.clock, s.clock + 1);
    }
  }

  lemma TimelyAfterAsk(requests: seq<Request>, clock: nat, r: Request)
    requires Timely(requests, clock) && r.at == clock
    ensures Timely(requests + [r], clock + 1)
  {
  }

  lemma Later(requests: seq<Request>, merges: seq<Merge>, clock: nat)
    requires Timely(requests, clock) && Orderly(merges, clock)
    ensures Timely(requests, clock + 1) && Orderly(merges, clock + 1)
    ensures forall i :: 0 <= i < |merges| ==> merges[i].start < clock
    ensures StartBefore(merges, |merges|) < clock
  {
    hide OneAtATime;
  }

  lemma AskKeepsSound(s: State, days: int)
    requires Sound(s)
    ensures Sound(Step(s, Ask(days)))
  {
    hide MaxDays, Exact, Orderly, Timely;
    var r, from := Request(days, s.clock), StartBefore(s.merges, |s.merges|);
    var asked := s.(pending := Max(s.pending, days), requests := s.requests + [r]);
    Later(s.requests, s.merges, s.clock);
    TimelyAfterAsk(s.requests, s.clock, r);
    ExactAfterAsk(s.requests, s.merges, r);
    AskedSince(s.requests, r, from, s.clock);
    if s.running {
      WindowEnd(asked.requests, from, s.clock, s.clock + 1);
    } else {
      ResumeKeeps(asked);
    }
  }

  lemma SettleKeepsSound(s: State, ok: bool)
    requires Sound(s)
    ensures Sound(Step(s, Settle(ok)))
  {
    hide MaxDays, Exact, Orderly, Timely, Settled;
    if InFlight(s.merges) {
      Later(s.requests, s.merges, s.clock);
      OrderlyAfterSettle(s.merges, s.clock, ok);
      ExactAfterSettle(s.requests, s.merges, s.clock, ok);
      ResumeKeeps(s.(merges := Settled(s.merges, s.clock, ok)));
    }
  }

  lemma StepKeepsSound(s: State, a: Action)
    requires Sound(s)
    ensures Sound(Step(s, a))
  {
    hide Sound, Step;
    match a
    case Ask(days) => AskKeepsSound(s, days);
    case Settle(ok) => SettleKeepsSound(s, ok);
  }

  /** For any interleaving: merges never overlap, pending work has a running loop, and each merge looks
      back as far as the requests it stands for need, no less and no more. */
  lemma {:induction false} RunsAreSound(actions: seq<Action>)
    ensures Sound(Run(actions))
  {
    if actions != [] {
      RunsAreSound(actions[..|actions| - 1]);
      StepKeepsSound(Run(actions[..|actions| - 1]), actions[|actions| - 1]);
    }
  }

  // ----- coverage -----

  /** The first merge to start at or after the request looks back far enough. */
  ghost predicate CoveredBy(merges: seq<Merge>, r: Request, i: nat) {
    && i < |merges| && r.at <= merges[i].start && r.days <= merges[i].lookback
    && (i > 0 ==> merges[i - 1].start < r.at)
  }

  lemma {:induction false} MaxDaysBounds(requests: seq<Request>, k: nat, from: int, to: int)
    requires k < |requests| && from < requests[k].at <= to
    ensures requests[k].days <= MaxDays(requests, from, to)
  {
    if k < |requests| - 1 {
      MaxDaysBounds(requests[..|requests| - 1], k, from, to);
    }
  }

  lemma {:induction false} FirstFrom(merges: seq<Merge>, at: nat, n: nat) returns (i: nat)
    requires n <= |merges| && (n < |merges| ==> at <= merges[n].start)
    ensures i <= |merges| && (i < |merges| ==> at <= merges[i].start)
    ensures i > 0 ==> merges[i - 1].start < at
  {
    if n > 0 && at <= merges[n - 1].start {
      i := FirstFrom(merges, at, n - 1);
    } else {
      i := n;
    }
  }

  lemma Covering(s: State, k: nat) returns (i: nat)
    requires Sound(s) && k < |s.requests|
    ensures CoveredBy(s.merges, s.requests[k], i) || s.requests[k].days <= s.pending
  {
    hide MaxDays, Orderly, InFlight;
    var r := s.requests[k];
    i := FirstFrom(s.merges, r.at, |s.merges|);
    MaxDaysBounds(s.requests, k, StartBefore(s.merges, i), if i < |s.merges| then s.merges[i].start else s.clock);
  }

  /** In every reachable state a request is covered, or it is still pending with the loop running; so
      an idle loop has covered every request made so far. */
  lemma EveryRequestIsCovered(actions: seq<Action>, k: nat)
    requires k < |Run(actions).requests| && Run(actions).requests[k].days > 0
    ensures var s := Run(actions);
            (exists i :: CoveredBy(s.merges, s.requests[k], i)) || (s.running && s.requests[k].days <= s.pending)
  {
    hide MaxDays, Run, Exact, Orderly, Timely, CoveredBy;
    RunsAreSound(actions);
    var i := Covering(Run(actions), k);
  }

  // ----- how little it starts -----

  lemma {:induction false} AtMostOneMergePerRequest(actions: seq<Action>)
    ensures var s := Run(actions); |s.merges| + (if s.pending > 0 then 1 else 0) <= |s.requests|
  {
    if actions != [] {
      AtMostOneMergePerRequest(actions[..|actions| - 1]);
      RunsAreSound(actions[..|actions| - 1]);
    }
  }

  /** Without further requests the loop is idle after at most two merges have settled. */
  lemma TwoSettlesDrain(actions: seq<Action>, first: bool, second: bool)
    ensures var s := Step(Step(Run(actions), Settle(first)), Settle(second)); !s.running && s.pending == 0
  {
    RunsAreSound(actions);
    StepKeepsSound(Run(actions), Settle(first));
    StepKeepsSound(Step(Run(actions), Settle(first)), Settle(second));
  }

  // ----- coverage is by started merges, not by successful ones -----

  /** A merge that settles, failed or not, is followed by another exactly if a request for at least one
      day came in while it ran: failure alone retries nothing. */
  lemma FollowedIffAskedMeanwhile(actions: seq<Action>, ok: bool)
    requires InFlight(Run(actions).merges)
    ensures var s := Run(actions);
            var asked := exists k :: 0 <= k < |s.requests| && s.requests[k].days > 0
                                     && s.requests[k].at > s.merges[|s.merges| - 1].start;
            |Step(s, Settle(ok)).merges| == |s.merges| + (if asked then 1 else 0)
  {
    RunsAreSound(actions);
    var s := Run(actions);
    PendingIffAsked(s.requests, StartBefore(s.merges, |s.merges|), s.clock);
  }

  lemma {:induction false} PendingIffAsked(requests: seq<Request>, from: int, to: int)
    ensures MaxDays(requests, from, to) > 0 <==>
            exists k :: 0 <= k < |requests| && requests[k].days > 0 && from < requests[k].at <= to
  {
    if requests != [] {
      var last := |requests| - 1;
      PendingIffAsked(requests[..last], from, to);
      assert forall k :: 0 <= k < last ==> requests[..last][k] == requests[k];
    }
  }

  /** One request whose merge fails: the loop ends idle and no successful merge ever covered it. */
  lemma FailureIsForgotten(days: nat)
    requires days > 0
    ensures var s := Run([Ask(days), Settle(false)]);
            && !s.running && s.pending == 0 && s.requests == [Request(days, 0)]
            && forall m :: m in s.merges ==> m.outcome.Done? && !m.outcome.ok
  {
    var one := [Ask(days)];
    var two := [Ask(days), Settle(false)];
    assert one[..0] == [] && two[..1] == one;
    assert Run(one) == Tick(Resume(INITIAL.(pending := days, requests := [Request(days, 0)])));
  }
}
