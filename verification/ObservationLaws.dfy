/**
 Which observations the client's queue takes in, drops and sends, and when it tries again: said without the
 steps of frontend/src/lib/observation.ts.
 */
module ObservationLaws {
  import opened Wrappers
  import opened ObservationQueue

  /** The places of the observations that are measured continuously. */
  predicate ContinuousAt(m: seq<Queued>, k: int) {
    0 <= k < |m| && (m[k].event.kind == PostDwell || m[k].event.kind == MediaProgress)
  }

  /** The k-th one is the first. */
  predicate FirstContinuous(m: seq<Queued>, k: int) {
    ContinuousAt(m, k) && forall i :: 0 <= i < k ==> !ContinuousAt(m, i)
  }

  lemma {:induction false} OldestIsFirst(m: seq<Queued>) returns (k: nat)
    requires OldestContinuous(m).Some?
    ensures FirstContinuous(m, k) && m[k].event.id == OldestContinuous(m).value
  {
    if Continuous(m[0].event) {
      k := 0;
    } else {
      var i := OldestIsFirst(m[1..]);
      k := i + 1;
      forall j | 0 <= j < k ensures !ContinuousAt(m, j) {
        assert j > 0 ==> m[j] == m[1..][j - 1] && !ContinuousAt(m[1..], j - 1);
      }
    }
  }

  lemma {:induction false} WithoutCuts(m: seq<Queued>, k: nat)
    requires UniqueKeys(m) && k < |m|
    ensures Without(m, m[k].event.id) == m[..k] + m[k + 1..]
  {
    hide UniqueKeys;
    var id := m[k].event.id;
    TailIsUnique(m);
    if k == 0 {
      NothingToCut(m[1..], id);
      assert m[..0] == [];
    } else {
      assert m[0].event.id != id by { Apart(m, k); }
      WithoutCuts(m[1..], k - 1);
      CutBehindFirst(m, k);
    }
  }

  lemma CutBehindFirst(m: seq<Queued>, k: nat)
    requires 0 < k < |m|
    ensures m[1..][k - 1] == m[k]
    ensures [m[0]] + (m[1..][..k - 1] + m[1..][k - 1 + 1..]) == m[..k] + m[k + 1..]
  {
  }

  lemma TailIsUnique(m: seq<Queued>)
    requires UniqueKeys(m) && m != []
    ensures UniqueKeys(m[1..]) && forall i :: 0 <= i < |m[1..]| ==> m[1..][i].event.id != m[0].event.id
  {
    forall i, j | 0 <= i < j < |m[1..]| ensures m[1..][i].event.id != m[1..][j].event.id {
      assert m[1..][i] == m[i + 1] && m[1..][j] == m[j + 1];
    }
  }

  lemma Apart(m: seq<Queued>, k: nat)
    requires UniqueKeys(m) && 0 < k < |m|
    ensures m[0].event.id != m[k].event.id
  {
  }

  lemma {:induction false} NothingToCut(m: seq<Queued>, id: Id)
    requires forall i :: 0 <= i < |m| ==> m[i].event.id != id
    ensures Without(m, id) == m
  {
    if m != [] {
      NothingToCut(m[1..], id);
    }
  }

  lemma {:induction false} PutAppends(m: seq<Queued>, q: Queued)
    requires q.event.id !in Keys(m)
    ensures Put(m, q) == m + [q]
  {
    if m != [] {
      KeysCons(m[0], m[1..]);
      assert m == [m[0]] + m[1..];
      PutAppends(m[1..], q);
    }
  }

  /** What waits or is on its way after a call, in order of sending. */
  function Outgoing(s: State): seq<Queued> {
    s.inFlight + s.pending
  }

  /** What an offered observation makes of those waiting: it goes to the end; of two hundred one gives way,
      the first continuous one or, for an impression, else the first; a continuous one that finds only
      impressions is dropped, and one that is there already changes nothing. */
  ghost predicate Offered(before: seq<Queued>, e: Event, after: seq<Queued>) {
    if exists k :: 0 <= k < |before| && before[k].event.id == e.id then after == before
    else if |before| < 200 then after == before + [Queued(e, 0)]
    else if exists k :: FirstContinuous(before, k) then
      exists k :: FirstContinuous(before, k) && after == before[..k] + before[k + 1..] + [Queued(e, 0)]
    else if e.kind == PostImpression then after == before[1..] + [Queued(e, 0)]
    else after == before
  }

  lemma OfferedAtEnd(m: seq<Queued>, e: Event)
    requires !(exists k :: 0 <= k < |m| && m[k].event.id == e.id)
    ensures |m| < 200 ==> Offered(m, e, m + [Queued(e, 0)])
    ensures |m| >= 200 && (forall k :: !FirstContinuous(m, k)) ==>
              Offered(m, e, if e.kind == PostImpression then m[1..] + [Queued(e, 0)] else m)
  {
  }

  lemma OfferedInPlace(m: seq<Queued>, e: Event, k: nat)
    requires !(exists i :: 0 <= i < |m| && m[i].event.id == e.id) && |m| >= 200 && FirstContinuous(m, k)
    ensures Offered(m, e, m[..k] + m[k + 1..] + [Queued(e, 0)])
  {
  }

  /** The queue with the k-th observation cut out and a new one put in. */
  lemma CutAndPut(m: seq<Queued>, k: nat, e: Event)
    requires UniqueKeys(m) && k < |m| && e.id !in Keys(m)
    ensures Put(Without(m, m[k].event.id), Queued(e, 0)) == m[..k] + m[k + 1..] + [Queued(e, 0)]
  {
    hide Put, Without, Keys, UniqueKeys;
    WithoutCuts(m, k);
    WithoutKeeps(m, m[k].event.id);
    PutAppends(Without(m, m[k].event.id), Queued(e, 0));
  }

  lemma NoneIsContinuous(m: seq<Queued>)
    requires OldestContinuous(m).None?
    ensures forall k :: !FirstContinuous(m, k)
  {
    forall k ensures !FirstContinuous(m, k) {
      assert 0 <= k < |m| ==> m[k] in m;
    }
  }

  /** The queue with room made in it, before the newcomer is put in. */
  lemma RoomIs(s: State, e: Event)
    ensures var m, r := s.pending, MakeRoom(s, e);
            && (|m| < 200 ==> r == Some(s))
            && (|m| >= 200 && OldestContinuous(m).Some? ==>
                  r.Some? && r.value.pending == Without(m, OldestContinuous(m).value))
            && (|m| >= 200 && OldestContinuous(m).None? ==>
                  if Continuous(e) then r == None else r.Some? && r.value.pending == Without(m, m[0].event.id))
  {
    hide Without, OldestContinuous;
  }

  lemma RoomAmongContinuous(m: seq<Queued>, e: Event)
    requires UniqueKeys(m) && e.id !in Keys(m) && |m| >= 200 && OldestContinuous(m).Some?
    ensures Offered(m, e, Put(Without(m, OldestContinuous(m).value), Queued(e, 0)))
  {
    hide Without, Put, Keys, UniqueKeys, Offered, OldestContinuous, FirstContinuous;
    NotThere(m, e.id);
    var k := OldestIsFirst(m);
    assert 0 <= k < |m| by { PlaceOf(m, k); }
    CutAndPut(m, k, e);
    OfferedInPlace(m, e, k);
  }

  lemma RoomAmongImpressions(m: seq<Queued>, e: Event)
    requires UniqueKeys(m) && e.id !in Keys(m) && |m| >= 200 && OldestContinuous(m).None?
    ensures Offered(m, e, if Continuous(e) then m else Put(Without(m, m[0].event.id), Queued(e, 0)))
  {
    hide Without, Put, Keys, UniqueKeys, Offered, OldestContinuous, FirstContinuous;
    NotThere(m, e.id);
    NoneIsContinuous(m);
    OfferedAtEnd(m, e);
    if !Continuous(e) {
      FirstCut(m, e);
    }
  }

  lemma FirstCut(m: seq<Queued>, e: Event)
    requires UniqueKeys(m) && e.id !in Keys(m) && m != []
    ensures Put(Without(m, m[0].event.id), Queued(e, 0)) == m[1..] + [Queued(e, 0)]
  {
    hide Without, Put, Keys, UniqueKeys;
    CutAndPut(m, 0, e);
    assert m[..0] + m[1..] == m[1..];
  }

  lemma RoomMadeAt(s: State, e: Event)
    requires UniqueKeys(s.pending) && e.id !in Keys(s.pending)
    ensures MakeRoom(s, e).Some? ==> Offered(s.pending, e, Put(MakeRoom(s, e).value.pending, Queued(e, 0)))
    ensures MakeRoom(s, e).None? ==> Offered(s.pending, e, s.pending)
  {
    hide Without, Put, Keys, UniqueKeys, Offered, OldestContinuous, FirstContinuous, MakeRoom;
    var m := s.pending;
    RoomIs(s, e);
    if |m| < 200 {
      NotThere(m, e.id);
      OfferedAtEnd(m, e);
      PutAppends(m, Queued(e, 0));
    } else if OldestContinuous(m).Some? {
      RoomAmongContinuous(m, e);
    } else {
      RoomAmongImpressions(m, e);
    }
  }

  lemma PlaceOf(m: seq<Queued>, k: int)
    requires FirstContinuous(m, k)
    ensures 0 <= k < |m|
  {
  }

  lemma NotThere(m: seq<Queued>, id: Id)
    ensures id in Keys(m) <==> exists k :: 0 <= k < |m| && m[k].event.id == id
  {
    if id in Keys(m) {
      var q :| q in m && q.event.id == id;
    }
    if k :| 0 <= k < |m| && m[k].event.id == id {
      assert m[k] in m;
    }
  }

  lemma RunOneMore(delay: nat, xs: seq<Action>, x: Action)
    ensures Run(delay, xs + [x]) == Step(Run(delay, xs), x)
  {
    assert (xs + [x])[..|xs|] == xs;
  }

  /** In every reachable state: an offered observation is taken in or dropped as above; if no flush runs and
      twenty are waiting, the first twenty are sent at once, and otherwise a timer is armed. */
  lemma EnqueueOffers(delay: nat, xs: seq<Action>, e: Event)
    ensures var s := Run(delay, xs);
            var s' := Run(delay, xs + [DoEnqueue(e)]);
            && (s.flushing ==> s'.inFlight == s.inFlight && Offered(s.pending, e, s'.pending))
            && (!s.flushing ==> Offered(s.pending, e, Outgoing(s')))
            && (!s.flushing && s'.flushing ==> |s'.inFlight| == 20)
            && (!s.flushing && !s'.flushing && s'.pending != s.pending ==> |s'.pending| < 20 && s'.timer.Some?)
  {
    hide Run, Offered, Put, Without, Keys, Flush, MakeRoom;
    RunsAreLive(delay, xs);
    RunOneMore(delay, xs, DoEnqueue(e));
    var s := Run(delay, xs);
    assert !s.flushing ==> s.inFlight == [] && Outgoing(s) == s.pending;
    if e.id in Keys(s.pending) {
      NotThere(s.pending, e.id);
      Unchanged(s.pending, e);
    } else {
      RoomMadeAt(s, e);
      if MakeRoom(s, e).Some? {
        RoomElsewhere(s, e);
        var s2 := Admit(MakeRoom(s, e).value, e);
        assert !s.flushing ==> Outgoing(s2) == s2.pending;
        FlushSendsOldest(s2);
      }
    }
  }

  lemma Unchanged(m: seq<Queued>, e: Event)
    requires exists k :: 0 <= k < |m| && m[k].event.id == e.id
    ensures Offered(m, e, m)
  {
  }

  lemma RoomElsewhere(s: State, e: Event)
    ensures MakeRoom(s, e).Some? ==>
              var s1 := MakeRoom(s, e).value;
              s1.flushing == s.flushing && s1.inFlight == s.inFlight && s1.timer == s.timer && s1.delay == s.delay
  {
  }

  /** A flush sends the oldest, twenty at most, and loses nothing. */
  lemma FlushSendsOldest(s: State)
    requires !s.flushing ==> s.inFlight == []
    ensures Outgoing(Flush(s)) == Outgoing(s)
    ensures !s.flushing && s.pending != [] ==>
              Flush(s).flushing && Flush(s).timer.None?
              && |Flush(s).inFlight| == if |s.pending| < 20 then |s.pending| else 20
    ensures s.flushing || s.pending == [] ==> Flush(s) == s
  {
    hide CountSends;
  }

  /** So it is in every reachable state, on a call of flush and when the timer fires. */
  lemma FlushesSendOldest(delay: nat, xs: seq<Action>, x: Action)
    requires x.DoFlush? || (x.DoTimer? && Run(delay, xs).timer.Some?)
    ensures var s, s' := Run(delay, xs), Run(delay, xs + [x]);
            && Outgoing(s') == Outgoing(s)
            && (!s.flushing && s.pending != [] ==>
                  s'.flushing && s'.timer.None? && |s'.inFlight| == if |s.pending| < 20 then |s.pending| else 20)
  {
    hide Run, Flush;
    RunsAreLive(delay, xs);
    RunOneMore(delay, xs, x);
    FlushSendsOldest(Run(delay, xs));
    FlushSendsOldest(Run(delay, xs).(timer := None));
  }

  // ----- trying again -----

  /** 2 to the power of n. */
  function Power(n: nat): nat {
    if n == 0 then 1 else 2 * Power(n - 1)
  }

  /** The most often any of them has been sent. */
  ghost predicate MostSent(m: seq<Queued>, n: nat) {
    (exists q :: q in m && q.attempts == n) && forall q :: q in m ==> q.attempts <= n
  }

  lemma {:induction false} HighestIsMost(m: seq<Queued>)
    requires m != []
    ensures MostSent(m, HighestAttempt(m))
  {
    var more := m[1..];
    assert m == [m[0]] + more;
    if more == [] {
      assert HighestAttempt(more) == 0 && HighestAttempt(m) == m[0].attempts && m[0] in m;
    } else {
      HighestIsMost(more);
      var q :| q in more && q.attempts == HighestAttempt(more);
      assert q in m && m[0] in m;
    }
  }

  /** After an answer that leaves something waiting with no timer armed, the next flush comes after the base
      delay doubled for each time that the most often sent one has been sent. */
  lemma RetryIsDelayed(delay: nat, xs: seq<Action>, a: Answer)
    ensures var s := Run(delay, xs);
            var s' := Run(delay, xs + [DoSettle(a)]);
            s.flushing ==>
              && !s'.flushing && s'.inFlight == []
              && (s'.pending == [] || s.timer.Some? ==> s'.timer == s.timer)
              && (s'.pending != [] && s.timer.None? ==>
                    exists n: nat :: MostSent(s'.pending, n) && s'.timer == Some(delay * Power(n)))
  {
    hide Run, ConcludeAll, HighestAttempt, MostSent, Put;
    RunsAreLive(delay, xs);
    RunOneMore(delay, xs, DoSettle(a));
    DelayStays(delay, xs);
    var s := Run(delay, xs);
    ConcludeAllKeeps(s, a);
    var s1 := ConcludeAll(s, a);
    if s1.pending != [] {
      HighestIsMost(s1.pending);
      var n := HighestAttempt(s1.pending);
      AtMostTwo(s1.pending, n);
      assert Power(0) == 1 && Power(1) == 2 && Power(2) == 4;
    }
  }

  lemma AtMostTwo(m: seq<Queued>, n: nat)
    requires MostSent(m, n) && forall q :: q in m ==> q.attempts < MAX_ATTEMPTS
    ensures n <= 2
  {
  }

  lemma {:induction false} DelayStays(delay: nat, xs: seq<Action>)
    ensures Run(delay, xs).delay == delay
  {
    hide Step;
    if xs != [] {
      DelayStays(delay, xs[..|xs| - 1]);
      StepKeepsDelay(Run(delay, xs[..|xs| - 1]), xs[|xs| - 1]);
    }
  }

  lemma StepKeepsDelay(s: State, x: Action)
    ensures Step(s, x).delay == s.delay
  {
    hide Put, Without, Keys, CountSends, ConcludeAll, HighestAttempt;
    if x.DoSettle? {
      ConcludeAllKeepsDelay(s, x.a);
    }
  }

  lemma {:induction false} ConcludeAllKeepsDelay(s: State, a: Answer)
    ensures ConcludeAll(s, a).delay == s.delay
    decreases |s.inFlight|
  {
    hide Put;
    if s.inFlight != [] {
      ConcludeAllKeepsDelay(Conclude(s.(inFlight := s.inFlight[1..]), s.inFlight[0], a), a);
    }
  }

  // ----- nothing is stuck -----

  /** The server takes everything it is sent. */
  function TakesAll(s: State): Answer {
    Response(Keys(s.inFlight), {}, {})
  }

  lemma {:induction false} AllConcluded(s: State, a: Answer)
    requires a.Response? && a.retryable == {} && Keys(s.inFlight) <= a.accepted
    ensures var r := ConcludeAll(s, a);
            && r.pending == s.pending && r.inFlight == [] && r.flushing == s.flushing && r.timer == s.timer
            && r.ledger.acknowledged == s.ledger.acknowledged + Keys(s.inFlight)
    decreases |s.inFlight|
  {
    if s.inFlight != [] {
      var q, more := s.inFlight[0], s.inFlight[1..];
      assert s.inFlight == [q] + more;
      KeysCons(q, more);
      AllConcluded(Conclude(s.(inFlight := more), q, a), a);
    }
  }

  lemma FlushMovesKeys(s: State)
    requires !s.flushing && s.inFlight == []
    ensures Keys(Flush(s).pending) + Keys(Flush(s).inFlight) == Keys(s.pending)
    ensures Flush(s).ledger.acknowledged == s.ledger.acknowledged
  {
    hide CountSends;
    FlushSendsOldest(s);
    var s' := Flush(s);
    assert s'.inFlight + s'.pending == s.pending;
    assert forall q :: q in s.pending <==> q in s'.inFlight || q in s'.pending;
  }

  /** Settled by a server that takes all, or woken by its timer, a queue with something in it comes closer to
      having nothing. */
  lemma OneStepCloser(delay: nat, xs: seq<Action>) returns (x: Action)
    requires Outgoing(Run(delay, xs)) != []
    ensures var s, s' := Run(delay, xs), Run(delay, xs + [x]);
            && ((x == DoTimer && s.timer.Some?) || (x == DoSettle(TakesAll(s)) && s.flushing))
            && (s'.flushing ==> !s.flushing)
            && |Outgoing(s')| <= |Outgoing(s)| && (s.flushing ==> |Outgoing(s')| < |Outgoing(s)|)
            && (!s.flushing ==> s'.flushing)
            && Keys(s'.pending) + Keys(s'.inFlight) + s'.ledger.acknowledged
               == Keys(s.pending) + Keys(s.inFlight) + s.ledger.acknowledged
  {
    hide Run, Flush, Keys, ConcludeAll, HighestAttempt;
    RunsAreLive(delay, xs);
    var s := Run(delay, xs);
    assert Keys([]) == {} by { NoneHasNoKeys(); }
    if s.flushing {
      x := DoSettle(TakesAll(s));
      AllConcluded(s, x.a);
      RunOneMore(delay, xs, x);
    } else {
      x := DoTimer;
      RunOneMore(delay, xs, x);
      var s0 := s.(timer := None);
      FlushMovesKeys(s0);
      FlushSendsOldest(s0);
    }
  }

  lemma NoneHasNoKeys()
    ensures Keys([]) == {}
  {
  }

  /** Only timers that were armed and answers that take everything. */
  ghost predicate Calm(delay: nat, xs: seq<Action>, ys: seq<Action>) {
    forall k :: 0 <= k < |ys| ==> CalmAt(Run(delay, xs + ys[..k]), ys[k])
  }

  predicate CalmAt(s: State, x: Action) {
    (x == DoTimer && s.timer.Some?) || (x == DoSettle(TakesAll(s)) && s.flushing)
  }

  /** Whatever has happened: from then on, if the server takes what it is sent, the timers that are armed and
      the answers empty the queue, and everything that was in it is acknowledged. */
  lemma {:induction false} CalmDrains(delay: nat, xs: seq<Action>) returns (ys: seq<Action>)
    ensures Calm(delay, xs, ys)
    ensures var s, s' := Run(delay, xs), Run(delay, xs + ys);
            && s'.pending == [] && s'.inFlight == []
            && Keys(s.pending) + Keys(s.inFlight) <= s'.ledger.acknowledged
            && s.ledger.acknowledged <= s'.ledger.acknowledged
    decreases |Outgoing(Run(delay, xs))|, if Run(delay, xs).flushing then 0 else 1
  {
    hide Run, Keys;
    ys := [];
    assert xs + [] == xs;
    if Outgoing(Run(delay, xs)) == [] {
      assert Keys([]) == {} by { NoneHasNoKeys(); }
    } else {
      var x := OneStepCloser(delay, xs);
      var more := CalmDrains(delay, xs + [x]);
      ys := [x] + more;
      assert xs + [x] + more == xs + ys;
      forall k | 0 <= k < |ys| ensures CalmAt(Run(delay, xs + ys[..k]), ys[k]) {
        if k == 0 {
          assert xs + ys[..0] == xs;
        } else {
          assert xs + ys[..k] == xs + [x] + more[..k - 1];
          assert CalmAt(Run(delay, xs + [x] + more[..k - 1]), more[k - 1]);
        }
      }
    }
  }
}
