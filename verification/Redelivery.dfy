/** Records delivered again: how often does an event count, whatever else the replicas do in between? */
module Redelivery {
  import opened Wrappers
  import opened TrendingProcessor
  import opened TrendingReplicas

  /** When the claim script ran for an id. */
  function Times(attempts: seq<Attempt>, id: Id): seq<int> {
    if attempts == [] then []
    else
      var last := attempts[|attempts| - 1];
      Times(attempts[..|attempts| - 1], id) + if last.e.id == id then [last.now] else []
  }

  /** When the last receipt runs out. */
  function RunsOut(times: seq<int>): Option<int> {
    if times == [] then None
    else
      var before, now := RunsOut(times[..|times| - 1]), times[|times| - 1];
      if before.None? || before.value <= now then Some(now + RECEIPT_TTL) else before
  }

  /** How many of the attempts find no live receipt. */
  function Granted(times: seq<int>): nat {
    if times == [] then 0
    else
      var before, now := RunsOut(times[..|times| - 1]), times[|times| - 1];
      Granted(times[..|times| - 1]) + if before.None? || before.value <= now then 1 else 0
  }

  /** How often an id has been claimed. */
  function Claims(claimed: seq<Event>, id: Id): nat {
    if claimed == [] then 0
    else Claims(claimed[..|claimed| - 1], id) + if claimed[|claimed| - 1].id == id then 1 else 0
  }

  /** The receipt and the claims of an id are functions of its attempts' times alone. */
  ghost predicate Follows(y: System, id: Id) {
    var times := Times(y.attempts, id);
    && (id in y.store.receipts <==> RunsOut(times).Some?)
    && (id in y.store.receipts ==> y.store.receipts[id] == RunsOut(times).value)
    && Claims(y.claimed, id) == Granted(times)
    && (forall e :: e in y.claimed ==> Attempted(y.attempts, e))
  }

  lemma AppendAttempt(attempts: seq<Attempt>, a: Attempt, id: Id)
    ensures Times(attempts + [a], id) == Times(attempts, id) + if a.e.id == id then [a.now] else []
  {
    assert (attempts + [a])[..|attempts|] == attempts;
  }

  lemma AppendTime(times: seq<int>, now: int)
    ensures var free := RunsOut(times).None? || RunsOut(times).value <= now;
            && RunsOut(times + [now]) == (if free then Some(now + RECEIPT_TTL) else RunsOut(times))
            && Granted(times + [now]) == Granted(times) + if free then 1 else 0
  {
    assert (times + [now])[..|times|] == times;
  }

  lemma AppendClaim(claimed: seq<Event>, e: Event, id: Id)
    ensures Claims(claimed + [e], id) == Claims(claimed, id) + if e.id == id then 1 else 0
  {
    assert (claimed + [e])[..|claimed|] == claimed;
  }

  lemma ClaimFollows(y: System, e: Event, now: int, id: Id)
    requires Follows(y, id) && Counts(e)
    ensures Follows(Claimed(Tried(y, e, now), e, now), id)
  {
    hide Counts, Contribution, Attempted, Times, RunsOut, Granted, Claims;
    AppendAttempt(y.attempts, Attempt(e, now), id);
    AppendTime(Times(y.attempts, id), now);
    AppendClaim(y.claimed, e, id);
    AttemptsExtend(y.attempts, Attempt(e, now));
    assert Times(y.attempts, id) + [] == Times(y.attempts, id);
  }

  lemma {:induction false} RunFollows(run: seq<Action>, id: Id)
    ensures Follows(Run(run), id)
  {
    hide Step, Follows, Counts;
    if run == [] {
      StartFollows(id);
    } else {
      var y, a := Run(run[..|run| - 1]), run[|run| - 1];
      RunFollows(run[..|run| - 1], id);
      if a.TryClaim? && a.e in y.passed && Counts(a.e) {
        ClaimStep(y, a.e, a.now);
        ClaimFollows(y, a.e, a.now, id);
      } else {
        OthersKeepReceipts(y, a);
        SameFollows(y, Step(y, a), id);
      }
    }
  }

  lemma StartFollows(id: Id)
    ensures Follows(START, id)
  {
  }

  lemma SameFollows(y: System, y': System, id: Id)
    requires Follows(y, id) && SameClaims(y, y')
    ensures Follows(y', id)
  {
    hide Times, RunsOut, Granted, Claims, Attempted;
  }

  // ----- what repeated claims add -----

  /** The claims of other ids. */
  function Others(claimed: seq<Event>, id: Id): seq<Event> {
    if claimed == [] then []
    else
      var last := claimed[|claimed| - 1];
      Others(claimed[..|claimed| - 1], id) + if last.id == id then [] else [last]
  }

  lemma {:induction false} OwedSplits(claimed: seq<Event>, e: Event, c: Cell)
    requires forall x :: x in claimed && x.id == e.id ==> x == e
    ensures Owed(claimed, c) == Claims(claimed, e.id) * SumFor(Contribution(e), c) + Owed(Others(claimed, e.id), c)
  {
    hide Contribution, SumFor, Owed;
    if claimed == [] {
      NothingOwed(c);
    } else {
      var n := |claimed| - 1;
      var before, last := claimed[..n], claimed[n];
      OwedSplits(before, e, c);
      assert claimed == before + [last] && last in claimed;
      OwedAppend(before, last, c);
      if last.id == e.id {
        Distributes(Claims(before, e.id), SumFor(Contribution(e), c));
        assert Others(before, e.id) + [] == Others(before, e.id);
      } else {
        OwedAppend(Others(before, e.id), last, c);
      }
    }
  }

  lemma NothingOwed(c: Cell)
    ensures Owed([], c) == 0
  {
  }

  lemma Distributes(n: nat, w: nat)
    ensures (n + 1) * w == n * w + w
  {
  }

  /** One id is one event. */
  predicate SameEvent(attempts: seq<Attempt>, e: Event) {
    forall i :: 0 <= i < |attempts| && attempts[i].e.id == e.id ==> attempts[i].e == e
  }

  /** In any run, once all writes are made and none was lost, an event is counted as often as its attempts
      found no live receipt; other events are counted beside it. */
  lemma CountedAsOftenAsGranted(run: seq<Action>, e: Event, c: Cell)
    requires NothingLostIn(run) && Drained(Run(run)) && SameEvent(Run(run).attempts, e)
    ensures Count(Run(run).store.buckets, c)
         == Granted(Times(Run(run).attempts, e.id)) * SumFor(Contribution(e), c)
            + Owed(Others(Run(run).claimed, e.id), c)
  {
    hide Run, Contribution, Times, Granted, Balanced;
    var y := Run(run);
    RunsBalance(run);
    NothingLost(run);
    NothingOutstanding(y.jobs, c);
    BalanceAt(y, c);
    RunFollows(run, e.id);
    forall x | x in y.claimed && x.id == e.id ensures x == e {
      var i :| 0 <= i < |y.attempts| && y.attempts[i].e == x;
    }
    OwedSplits(y.claimed, e, c);
  }

  /** A run in which the claim script runs twice for an event, among any other actions: it is counted twice
      if and only if the second time is no earlier than the end of the first receipt. */
  lemma CountedAgainIff(run: seq<Action>, e: Event, first: int, again: int, c: Cell)
    requires NothingLostIn(run) && Drained(Run(run)) && SameEvent(Run(run).attempts, e)
    requires Times(Run(run).attempts, e.id) == [first, again]
    ensures Count(Run(run).store.buckets, c)
         == (if again >= first + RECEIPT_TTL then 2 else 1) * SumFor(Contribution(e), c)
            + Owed(Others(Run(run).claimed, e.id), c)
  {
    hide Run, Contribution, Times, SumFor, Owed;
    CountedAsOftenAsGranted(run, e, c);
    TwoAttempts(first, again);
  }

  lemma TwoAttempts(first: int, again: int)
    ensures Granted([first, again]) == if again >= first + RECEIPT_TTL then 2 else 1
  {
    AppendTime([], first);
    AppendTime([first], again);
    assert [] + [first] == [first] && [first] + [again] == [first, again];
  }

  /** Such runs exist from every state in which the event may be claimed: two deliveries in a row. */
  lemma DeliveredTwice(y: System, e: Event, first: int, again: int, c: Cell)
    requires !Deletion(e) && !Suppressed(y.store, e) && Counts(e) && Claimable(y.store, e.id, first)
    ensures var y1 := RunFrom(y, Delivery(|y.jobs|, e, first));
            var y2 := RunFrom(y1, Delivery(|y1.jobs|, e, again));
            Count(y2.store.buckets, c)
            == Count(y.store.buckets, c)
               + (if again >= first + RECEIPT_TTL then 2 else 1) * SumFor(Contribution(e), c)
  {
    hide Counts, Contribution, Deletion, RunFrom, Delivery, WriteAll, SumFor;
    DeliveryAlone(y, e, first);
    var y1 := RunFrom(y, Delivery(|y.jobs|, e, first));
    WritesAddUp(Claim(y.store, e.id, first), Contribution(e), c);
    assert Suppressed(y1.store, e) == Suppressed(y.store, e);
    DeliveryAlone(y1, e, again);
    WritesAddUp(Claim(y1.store, e.id, again), Contribution(e), c);
  }
}
