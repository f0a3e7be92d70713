/**
 The client's bounded, retrying observation queue: ObservationQueue of frontend/src/lib/observation.ts.
 `flushNow` is cut at its `await`: Flush runs up to the send, Settle runs from its answer to the end,
 and calls and timers may come between them.
 */
module ObservationQueue {
  import opened Wrappers

  const FLUSH_BATCH_SIZE := 20
  const MAX_QUEUE_SIZE := 200
  const MAX_ATTEMPTS := 3

  type Id = string

  datatype Kind = PostImpression | PostDwell | MediaProgress

  datatype Event = Event(id: Id, kind: Kind, rest: nat)

  datatype Queued = Queued(event: Event, attempts: nat)

  /** The server's answer, or a failed request. */
  datatype Answer = Response(accepted: set<Id>, rejected: set<Id>, retryable: set<Id>) | Rejection

  /** What has become of every observation so far; only the specification keeps it. */
  datatype Ledger = Ledger(
    admitted: set<Id>, acknowledged: set<Id>, evicted: set<Id>, givenUp: set<Id>, sends: map<Id, nat>)

  datatype State = State(
    delay: nat,
    pending: seq<Queued>,
    timer: Option<nat>,
    flushing: bool,
    inFlight: seq<Queued>,
    ledger: Ledger)

  function Initial(delay: nat): State {
    State(delay, [], None, false, [], Ledger({}, {}, {}, {}, map[]))
  }

  // ----- a JavaScript Map in insertion order -----

  function Keys(m: seq<Queued>): set<Id> {
    set q | q in m :: q.event.id
  }

  function Without(m: seq<Queued>, id: Id): seq<Queued> {
    if m == [] then [] else (if m[0].event.id == id then [] else [m[0]]) + Without(m[1..], id)
  }

  /** `set` keeps the place of a key that is there and appends one that is not. */
  function Put(m: seq<Queued>, q: Queued): seq<Queued> {
    if m == [] then [q]
    else if m[0].event.id == q.event.id then [q] + m[1..]
    else [m[0]] + Put(m[1..], q)
  }

  predicate Continuous(e: Event) {
    e.kind == PostDwell || e.kind == MediaProgress
  }

  function OldestContinuous(m: seq<Queued>): (r: Option<Id>)
    ensures r.Some? ==> exists q :: q in m && q.event.id == r.value && Continuous(q.event)
    ensures r.None? ==> forall q :: q in m ==> !Continuous(q.event)
  {
    if m == [] then None
    else if Continuous(m[0].event) then Some(m[0].event.id)
    else OldestContinuous(m[1..])
  }

  // ----- the steps -----

  function Schedule(s: State, delay: nat): State {
    if s.timer.Some? then s else s.(timer := Some(delay))
  }

  function CountSends(sends: map<Id, nat>, batch: seq<Queued>): map<Id, nat>
    decreases batch
  {
    if batch == [] then sends
    else
      var id := batch[0].event.id;
      CountSends(sends[id := (if id in sends then sends[id] else 0) + 1], batch[1..])
  }

  function Flush(s: State): State {
    if s.flushing || s.pending == [] then s
    else
      var n := if |s.pending| < FLUSH_BATCH_SIZE then |s.pending| else FLUSH_BATCH_SIZE;
      s.(flushing := true, timer := None, inFlight := s.pending[..n], pending := s.pending[n..],
         ledger := s.ledger.(sends := CountSends(s.ledger.sends, s.pending[..n])))
  }

  function Evict(s: State, id: Id): State {
    s.(pending := Without(s.pending, id), ledger := s.ledger.(evicted := s.ledger.evicted + {id}))
  }

  /** Room for `e`, made by dropping the oldest continuous observation or else the oldest of all;
      a continuous newcomer finds no room among impressions. */
  function MakeRoom(s: State, e: Event): Option<State> {
    if |s.pending| < MAX_QUEUE_SIZE then Some(s)
    else
      match OldestContinuous(s.pending)
      case Some(id) => Some(Evict(s, id))
      case None => if Continuous(e) then None else Some(Evict(s, s.pending[0].event.id))
  }

  function Admit(s: State, e: Event): State {
    s.(pending := Put(s.pending, Queued(e, 0)),
       ledger := s.ledger.(admitted := s.ledger.admitted + {e.id}, sends := s.ledger.sends[e.id := 0]))
  }

  function Enqueue(s: State, e: Event): State {
    if e.id in Keys(s.pending) then s
    else
      match MakeRoom(s, e)
      case None => s
      case Some(s1) =>
        var s2 := Admit(s1, e);
        if |s2.pending| >= FLUSH_BATCH_SIZE then Flush(s2) else Schedule(s2, s2.delay)
  }

  function Retry(s: State, q: Queued): State {
    if q.attempts + 1 < MAX_ATTEMPTS
    then s.(pending := Put(s.pending, Queued(q.event, q.attempts + 1)))
    else s.(ledger := s.ledger.(givenUp := s.ledger.givenUp + {q.event.id}))
  }

  predicate NeedsRetry(id: Id, a: Answer) {
    a.Rejection? || id in a.retryable || (id !in a.accepted && id !in a.rejected)
  }

  function Conclude(s: State, q: Queued, a: Answer): State {
    if NeedsRetry(q.event.id, a) then Retry(s, q)
    else s.(ledger := s.ledger.(acknowledged := s.ledger.acknowledged + {q.event.id}))
  }

  function ConcludeAll(s: State, a: Answer): State
    decreases |s.inFlight|
  {
    if s.inFlight == [] then s
    else ConcludeAll(Conclude(s.(inFlight := s.inFlight[1..]), s.inFlight[0], a), a)
  }

  function HighestAttempt(m: seq<Queued>): nat {
    if m == [] then 0
    else
      var more := HighestAttempt(m[1..]);
      if m[0].attempts > more then m[0].attempts else more
  }

  function Backoff(delay: nat, highest: nat): nat {
    delay * (if highest == 0 then 1 else if highest == 1 then 2 else 4)
  }

  function Settle(s: State, a: Answer): State {
    if !s.flushing then s
    else
      var s1 := ConcludeAll(s, a).(flushing := false);
      if s1.pending == [] then s1 else Schedule(s1, Backoff(s1.delay, HighestAttempt(s1.pending)))
  }

  function TimerFires(s: State): State {
    if s.timer.None? then s else Flush(s.(timer := None))
  }

  datatype Action = DoEnqueue(e: Event) | DoFlush | DoTimer | DoSettle(a: Answer)

  function Step(s: State, x: Action): State {
    match x
    case DoEnqueue(e) => Enqueue(s, e)
    case DoFlush => Flush(s)
    case DoTimer => TimerFires(s)
    case DoSettle(a) => Settle(s, a)
  }

  function Run(delay: nat, xs: seq<Action>): State {
    if xs == [] then Initial(delay) else Step(Run(delay, xs[..|xs| - 1]), xs[|xs| - 1])
  }

  // ----- the class -----

  class Queue {
    const flushDelayMs: nat
    var pending: seq<Queued>
    var timer: Option<nat>
    var flushing: bool
    var batch: seq<Queued>
    ghost var ledger: Ledger

    constructor (flushDelayMs: nat)
      ensures View() == Initial(flushDelayMs)
    {
      this.flushDelayMs := flushDelayMs;
      pending, timer, flushing, batch := [], None, false, [];
      ledger := Ledger({}, {}, {}, {}, map[]);
    }

    ghost function View(): State
      reads this
    {
      State(flushDelayMs, pending, timer, flushing, batch, ledger)
    }

    method ScheduleIn(delayMs: nat)
      modifies this`timer
      ensures View() == Schedule(old(View()), delayMs)
    {
      if timer.None? {
        timer := Some(delayMs);
      }
    }

    method EnqueueEvent(e: Event)
      modifies this
      ensures View() == Enqueue(old(View()), e)
    {
      if e.id in Keys(pending) { return; }
      if |pending| >= MAX_QUEUE_SIZE {
        var oldest := OldestContinuous(pending);
        if oldest.Some? {
          pending := Without(pending, oldest.value);
          ledger := ledger.(evicted := ledger.evicted + {oldest.value});
        } else if Continuous(e) {
          return;
        } else {
          ledger := ledger.(evicted := ledger.evicted + {pending[0].event.id});
          pending := Without(pending, pending[0].event.id);
        }
      }
      pending := Put(pending, Queued(e, 0));
      ledger := ledger.(admitted := ledger.admitted + {e.id}, sends := ledger.sends[e.id := 0]);
      if |pending| >= FLUSH_BATCH_SIZE {
        FlushNow();
      } else {
        ScheduleIn(flushDelayMs);
      }
    }

    /** `flushNow` up to the send. */
    method FlushNow()
      modifies this
      ensures View() == Flush(old(View()))
    {
      if flushing || pending == [] { return; }
      flushing := true;
      timer := None;
      var n := if |pending| < FLUSH_BATCH_SIZE then |pending| else FLUSH_BATCH_SIZE;
      batch := pending[..n];
      pending := pending[n..];
      ledger := ledger.(sends := CountSends(ledger.sends, batch));
    }

    method RetryOne(q: Queued)
      modifies this`pending, this`ledger
      ensures View() == Retry(old(View()), q)
    {
      var attempts := q.attempts + 1;
      if attempts < MAX_ATTEMPTS {
        pending := Put(pending, Queued(q.event, attempts));
      } else {
        ledger := ledger.(givenUp := ledger.givenUp + {q.event.id});
      }
    }

    /** `flushNow` from the answer on. */
    method SendSettled(a: Answer)
      modifies this
      ensures View() == Settle(old(View()), a)
    {
      if !flushing { return; }
      while batch != []
        invariant ConcludeAll(old(View()), a) == ConcludeAll(View(), a)
        decreases |batch|
      {
        var q := batch[0];
        batch := batch[1..];
        if NeedsRetry(q.event.id, a) {
          RetryOne(q);
        } else {
          ledger := ledger.(acknowledged := ledger.acknowledged + {q.event.id});
        }
      }
      flushing := false;
      if pending != [] {
        ScheduleIn(Backoff(flushDelayMs, HighestAttempt(pending)));
      }
    }

    method TimerElapsed()
      modifies this
      ensures View() == TimerFires(old(View()))
    {
      if timer.None? { return; }
      timer := None;
      FlushNow();
    }
  }

  // ----- never stalls, stays bounded -----

  predicate UniqueKeys(m: seq<Queued>) {
    forall i, j :: 0 <= i < j < |m| ==> m[i].event.id != m[j].event.id
  }

  ghost predicate Live(s: State) {
    && UniqueKeys(s.pending)
    && (s.pending != [] ==> s.flushing || s.timer.Some?)
    && |s.pending| <= (if s.flushing then MAX_QUEUE_SIZE else MAX_QUEUE_SIZE + FLUSH_BATCH_SIZE)
    && |s.inFlight| <= FLUSH_BATCH_SIZE
    && (s.flushing <==> s.inFlight != [])
    && (forall q :: q in s.pending ==> q.attempts < MAX_ATTEMPTS)
    && (forall q :: q in s.inFlight ==> q.attempts < MAX_ATTEMPTS)
    && (s.timer.Some? ==> s.delay <= s.timer.value <= 4 * s.delay)
  }

  lemma {:induction false} PutKeeps(m: seq<Queued>, q: Queued)
    requires UniqueKeys(m)
    ensures UniqueKeys(Put(m, q))
    ensures Keys(Put(m, q)) == Keys(m) + {q.event.id}
    ensures |Put(m, q)| == |m| + if q.event.id in Keys(m) then 0 else 1
    ensures q in Put(m, q)
    ensures forall x :: x in Put(m, q) ==> x == q || (x in m && x.event.id != q.event.id)
    ensures forall x :: x in m && x.event.id != q.event.id ==> x in Put(m, q)
  {
    if m != [] {
      var head, tail := m[0], m[1..];
      assert m == [head] + tail;
      KeysCons(head, tail);
      UniqueCons(head, tail);
      if head.event.id == q.event.id {
        KeysCons(q, tail);
        UniqueCons(q, tail);
      } else {
        PutKeeps(tail, q);
        KeysCons(head, Put(tail, q));
        UniqueCons(head, Put(tail, q));
      }
    }
  }

  lemma KeysCons(q: Queued, m: seq<Queued>)
    ensures Keys([q] + m) == {q.event.id} + Keys(m)
  {
    assert q in [q] + m;
    assert forall x :: x in m ==> x in [q] + m;
  }

  lemma UniqueCons(q: Queued, m: seq<Queued>)
    ensures UniqueKeys([q] + m) <==> UniqueKeys(m) && q.event.id !in Keys(m)
  {
    var all := [q] + m;
    assert all[0] == q && forall i :: 0 <= i < |m| ==> all[i + 1] == m[i];
    if UniqueKeys(all) {
      forall i, j | 0 <= i < j < |m| ensures m[i].event.id != m[j].event.id {
        assert all[i + 1] == m[i] && all[j + 1] == m[j];
      }
      forall x | x in m ensures x.event.id != q.event.id {
        var k :| 0 <= k < |m| && m[k] == x;
        assert all[k + 1] == x;
      }
    } else {
      var i, j :| 0 <= i < j < |all| && all[i].event.id == all[j].event.id;
      assert all[j] == m[j - 1];
      assert i > 0 ==> all[i] == m[i - 1];
    }
  }

  lemma {:induction false} WithoutKeeps(m: seq<Queued>, id: Id)
    requires UniqueKeys(m)
    ensures UniqueKeys(Without(m, id))
    ensures Keys(Without(m, id)) == Keys(m) - {id}
    ensures |Without(m, id)| == |m| - if id in Keys(m) then 1 else 0
    ensures forall x :: x in Without(m, id) <==> x in m && x.event.id != id
  {
    if m != [] {
      var head, tail := m[0], m[1..];
      assert m == [head] + tail;
      KeysCons(head, tail);
      UniqueCons(head, tail);
      WithoutKeeps(tail, id);
      KeysCons(head, Without(tail, id));
      UniqueCons(head, Without(tail, id));
      assert [] + Without(tail, id) == Without(tail, id);
    }
  }

  lemma FlushKeepsLive(s: State)
    requires UniqueKeys(s.pending) && |s.inFlight| <= FLUSH_BATCH_SIZE && (s.flushing <==> s.inFlight != [])
    requires |s.pending| <= (if s.flushing then MAX_QUEUE_SIZE else MAX_QUEUE_SIZE + FLUSH_BATCH_SIZE)
    requires forall q :: q in s.pending + s.inFlight ==> q.attempts < MAX_ATTEMPTS
    requires s.timer.Some? ==> s.delay <= s.timer.value <= 4 * s.delay
    ensures Live(Flush(s))
  {
    hide CountSends;
    assert forall q :: q in s.pending || q in s.inFlight ==> q in s.pending + s.inFlight;
  }

  lemma EnqueueKeepsLive(s: State, e: Event)
    requires Live(s)
    ensures Live(Enqueue(s, e))
  {
    hide Keys, Put, Without, Flush;
    if e.id !in Keys(s.pending) && MakeRoom(s, e).Some? {
      RoomMade(s, e);
      var s1 := MakeRoom(s, e).value;
      PutKeeps(s1.pending, Queued(e, 0));
      var s2 := Admit(s1, e);
      if |s2.pending| >= FLUSH_BATCH_SIZE {
        FlushKeepsLive(s2);
      }
    }
  }

  /** Making room never grows the queue, and leaves a free place unless a flush is owed. */
  lemma RoomMade(s: State, e: Event)
    requires UniqueKeys(s.pending) && MakeRoom(s, e).Some?
    ensures var s1 := MakeRoom(s, e).value;
            && s1 == s.(pending := s1.pending, ledger := s1.ledger)
            && UniqueKeys(s1.pending)
            && Keys(s1.pending) <= Keys(s.pending)
            && (forall q :: q in s1.pending ==> q in s.pending)
            && (|s.pending| < MAX_QUEUE_SIZE ==> s1 == s)
            && (|s.pending| >= MAX_QUEUE_SIZE ==> |s1.pending| == |s.pending| - 1)
  {
    if |s.pending| >= MAX_QUEUE_SIZE {
      var oldest := OldestContinuous(s.pending);
      var id := if oldest.Some? then oldest.value else s.pending[0].event.id;
      WithoutKeeps(s.pending, id);
      assert s.pending[0] in s.pending;
    }
  }

  lemma {:induction false} ConcludeAllKeeps(s: State, a: Answer)
    requires UniqueKeys(s.pending)
    requires forall q :: q in s.pending ==> q.attempts < MAX_ATTEMPTS
    ensures var r := ConcludeAll(s, a);
            && r == s.(pending := r.pending, inFlight := [], ledger := r.ledger)
            && UniqueKeys(r.pending)
            && |r.pending| <= |s.pending| + |s.inFlight|
            && forall q :: q in r.pending ==> q.attempts < MAX_ATTEMPTS
    decreases |s.inFlight|
  {
    if s.inFlight != [] {
      var q := s.inFlight[0];
      PutKeeps(s.pending, Queued(q.event, q.attempts + 1));
      var s1 := Conclude(s.(inFlight := s.inFlight[1..]), q, a);
      ConcludeAllKeeps(s1, a);
    }
  }

  lemma SettleKeepsLive(s: State, a: Answer)
    requires Live(s)
    ensures Live(Settle(s, a))
  {
    hide ConcludeAll, HighestAttempt;
    ConcludeAllKeeps(s, a);
    BackoffBounds(s.delay, HighestAttempt(ConcludeAll(s, a).pending));
  }

  lemma BackoffBounds(delay: nat, highest: nat)
    ensures delay <= Backoff(delay, highest) <= 4 * delay
  {
  }

  lemma StepKeepsLive(s: State, x: Action)
    requires Live(s)
    ensures Live(Step(s, x))
  {
    hide Enqueue, Settle, Flush;
    match x
    case DoEnqueue(e) => EnqueueKeepsLive(s, e);
    case DoFlush => FlushKeepsLive(s);
    case DoTimer => FlushKeepsLive(s.(timer := None));
    case DoSettle(a) => SettleKeepsLive(s, a);
  }

  /** In every reachable state: something pending means a flush is running or a timer is armed; the
      queue holds at most 200 while a flush runs and 220 otherwise. No assumption on the callers. */
  lemma {:induction false} RunsAreLive(delay: nat, xs: seq<Action>)
    ensures Live(Run(delay, xs))
  {
    hide Step;
    if xs != [] {
      RunsAreLive(delay, xs[..|xs| - 1]);
      StepKeepsLive(Run(delay, xs[..|xs| - 1]), xs[|xs| - 1]);
    }
  }

  /** An impression is evicted only by another impression, and only when nothing continuous is pending. */
  lemma ImpressionsEvictedLast(s: State, e: Event, q: Queued)
    requires Live(s) && q in s.pending && q.event.id in Enqueue(s, e).ledger.evicted - s.ledger.evicted
    ensures q.event.kind == PostImpression ==>
              e.kind == PostImpression && forall p :: p in s.pending ==> p.event.kind == PostImpression
  {
    hide Put, Without, Keys, CountSends;
    var oldest := OldestContinuous(s.pending);
    if oldest.Some? {
      var p :| p in s.pending && p.event.id == oldest.value && Continuous(p.event);
      SameKey(s.pending, p, q);
    }
  }

  lemma SameKey(m: seq<Queued>, p: Queued, q: Queued)
    requires UniqueKeys(m) && p in m && q in m
    ensures p.event.id == q.event.id ==> p == q
  {
    var i :| 0 <= i < |m| && m[i] == p;
    var j :| 0 <= j < |m| && m[j] == q;
  }

  // ----- conservation -----

  predicate Partition(pending: set<Id>, inFlight: set<Id>, l: Ledger) {
    && pending !! inFlight !! l.acknowledged !! l.evicted !! l.givenUp
    && pending + inFlight + l.acknowledged + l.evicted + l.givenUp == l.admitted
    && l.sends.Keys == l.admitted
  }

  predicate PendingCounted(pending: seq<Queued>, sends: map<Id, nat>) {
    forall q :: q in pending ==> q.event.id in sends && sends[q.event.id] == q.attempts < MAX_ATTEMPTS
  }

  predicate FlightCounted(inFlight: seq<Queued>, sends: map<Id, nat>) {
    forall q :: q in inFlight ==> q.event.id in sends && sends[q.event.id] == q.attempts + 1 <= MAX_ATTEMPTS
  }

  predicate OutcomesCounted(l: Ledger) {
    && (forall id :: id in l.acknowledged ==> id in l.sends && 1 <= l.sends[id] <= MAX_ATTEMPTS)
    && (forall id :: id in l.evicted ==> id in l.sends && l.sends[id] < MAX_ATTEMPTS)
    && (forall id :: id in l.givenUp ==> id in l.sends && l.sends[id] == MAX_ATTEMPTS)
  }

  /** Every admitted observation is in exactly one place, and its sends are counted right there. */
  predicate Conserved(s: State) {
    && UniqueKeys(s.pending) && UniqueKeys(s.inFlight)
    && Partition(Keys(s.pending), Keys(s.inFlight), s.ledger)
    && PendingCounted(s.pending, s.ledger.sends)
    && FlightCounted(s.inFlight, s.ledger.sends)
    && OutcomesCounted(s.ledger)
  }

  lemma KeyOf(m: seq<Queued>, q: Queued)
    requires q in m
    ensures q.event.id in Keys(m)
  {
  }

  lemma {:induction false} CountSendsCounts(sends: map<Id, nat>, batch: seq<Queued>)
    requires UniqueKeys(batch) && Keys(batch) <= sends.Keys
    ensures var r := CountSends(sends, batch);
            && r.Keys == sends.Keys
            && forall id :: id in sends ==> r[id] == sends[id] + if id in Keys(batch) then 1 else 0
  {
    if batch != [] {
      var head, tail := batch[0], batch[1..];
      assert batch == [head] + tail;
      KeysCons(head, tail);
      UniqueCons(head, tail);
      CountSendsCounts(sends[head.event.id := sends[head.event.id] + 1], tail);
    }
  }

  lemma SplitKeys(m: seq<Queued>, n: nat)
    requires UniqueKeys(m) && n <= |m|
    ensures UniqueKeys(m[..n]) && UniqueKeys(m[n..])
    ensures Keys(m[..n]) + Keys(m[n..]) == Keys(m)
    ensures Keys(m[..n]) !! Keys(m[n..])
  {
    assert m == m[..n] + m[n..];
    forall x, y | x in m[..n] && y in m[n..] ensures x.event.id != y.event.id {
      var i :| 0 <= i < n && m[i] == x;
      var j :| n <= j < |m| && m[j] == y;
    }
  }

  lemma FlushConserves(s: State)
    requires Conserved(s) && (!s.flushing ==> s.inFlight == [])
    ensures Conserved(Flush(s))
  {
    if !s.flushing && s.pending != [] {
      var n := if |s.pending| < FLUSH_BATCH_SIZE then |s.pending| else FLUSH_BATCH_SIZE;
      hide CountSends, Keys, UniqueKeys, Partition, PendingCounted, FlightCounted, OutcomesCounted;
      SplitKeys(s.pending, n);
      FlushPartition(s, n);
      FlushCounts(s, n);
    }
  }

  lemma FlushPartition(s: State, n: nat)
    requires Conserved(s) && s.inFlight == [] && n <= |s.pending|
    ensures Partition(Keys(s.pending[n..]), Keys(s.pending[..n]),
                      s.ledger.(sends := CountSends(s.ledger.sends, s.pending[..n])))
  {
    SplitKeys(s.pending, n);
    CountSendsCounts(s.ledger.sends, s.pending[..n]);
    NoKeys();
    hide CountSends, Keys, UniqueKeys, PendingCounted, FlightCounted, OutcomesCounted;
  }

  lemma FlushCounts(s: State, n: nat)
    requires Conserved(s) && s.inFlight == [] && n <= |s.pending|
    ensures var sends := CountSends(s.ledger.sends, s.pending[..n]);
            PendingCounted(s.pending[n..], sends) && FlightCounted(s.pending[..n], sends)
            && OutcomesCounted(s.ledger.(sends := sends))
  {
    SplitKeys(s.pending, n);
    CountSendsCounts(s.ledger.sends, s.pending[..n]);
    hide CountSends, Keys, UniqueKeys;
  }

  lemma NoKeys()
    ensures Keys([]) == {}
  {
  }

  lemma EvictConserves(s: State, id: Id)
    requires Conserved(s) && id in Keys(s.pending)
    ensures Conserved(Evict(s, id))
  {
    WithoutKeeps(s.pending, id);
    hide Without, Keys, UniqueKeys;
  }

  lemma AdmitConserves(s: State, e: Event)
    requires Conserved(s) && e.id !in s.ledger.admitted
    ensures Conserved(Admit(s, e))
  {
    hide Put, Keys, UniqueKeys;
    var q0 := Queued(e, 0);
    PutKeeps(s.pending, q0);
    var s' := Admit(s, e);
    assert PendingCounted(s'.pending, s'.ledger.sends);
    assert FlightCounted(s'.inFlight, s'.ledger.sends) by {
      forall q | q in s.inFlight ensures q.event.id != e.id { KeyOf(s.inFlight, q); }
    }
    assert OutcomesCounted(s'.ledger);
    assert Partition(Keys(s'.pending), Keys(s'.inFlight), s'.ledger);
  }

  lemma EnqueueConserves(s: State, e: Event)
    requires Live(s) && Conserved(s) && e.id !in s.ledger.admitted
    ensures Conserved(Enqueue(s, e))
  {
    hide Conserved, Admit, Flush, Put, Without, UniqueKeys;
    if e.id !in Keys(s.pending) && MakeRoom(s, e).Some? {
      var s1 := MakeRoom(s, e).value;
      if |s.pending| >= MAX_QUEUE_SIZE {
        var oldest := OldestContinuous(s.pending);
        assert s.pending[0] in s.pending;
        EvictConserves(s, if oldest.Some? then oldest.value else s.pending[0].event.id);
      }
      AdmitConserves(s1, e);
      var s2 := Admit(s1, e);
      AdmitKeepsFlight(s1, e);
      FlushConserves(s2);
      ScheduleConserves(s2, s2.delay);
    }
  }

  lemma AdmitKeepsFlight(s: State, e: Event)
    ensures Admit(s, e).inFlight == s.inFlight && Admit(s, e).flushing == s.flushing
  {
  }

  lemma ScheduleConserves(s: State, delay: nat)
    requires Conserved(s)
    ensures Conserved(Schedule(s, delay))
  {
  }

  lemma ConcludeConserves(s: State, a: Answer)
    requires Conserved(s) && s.inFlight != []
    ensures Conserved(Conclude(s.(inFlight := s.inFlight[1..]), s.inFlight[0], a))
  {
    hide Put, Keys, UniqueKeys;
    hide Partition;
    var q, more := s.inFlight[0], s.inFlight[1..];
    assert s.inFlight == [q] + more;
    KeysCons(q, more);
    UniqueCons(q, more);
    PutKeeps(s.pending, Queued(q.event, q.attempts + 1));
    assert q.event.id !in Keys(s.pending) by { Apart(Keys(s.pending), Keys(s.inFlight), s.ledger, q.event.id); }
    var s' := Conclude(s.(inFlight := more), q, a);
    assert PendingCounted(s'.pending, s'.ledger.sends);
    assert FlightCounted(s'.inFlight, s'.ledger.sends) by {
      assert forall x :: x in more ==> x in s.inFlight;
    }
    assert OutcomesCounted(s'.ledger);
    assert Keys(more) == Keys(s.inFlight) - {q.event.id};
    Move(Keys(s.pending), Keys(s.inFlight), s.ledger, q.event.id);
  }

  /** A place in flight can become a place in the queue, an acknowledgement or a last failure. */
  lemma Move(pending: set<Id>, inFlight: set<Id>, l: Ledger, id: Id)
    requires Partition(pending, inFlight, l) && id in inFlight
    ensures Partition(pending + {id}, inFlight - {id}, l)
    ensures Partition(pending, inFlight - {id}, l.(acknowledged := l.acknowledged + {id}))
    ensures Partition(pending, inFlight - {id}, l.(givenUp := l.givenUp + {id}))
  {
  }

  lemma Apart(pending: set<Id>, inFlight: set<Id>, l: Ledger, id: Id)
    requires Partition(pending, inFlight, l) && id in inFlight
    ensures id !in pending
  {
  }

  lemma {:induction false} ConcludeAllConserves(s: State, a: Answer)
    requires Conserved(s)
    ensures Conserved(ConcludeAll(s, a))
    decreases |s.inFlight|
  {
    hide Conserved;
    if s.inFlight != [] {
      ConcludeConserves(s, a);
      ConcludeAllConserves(Conclude(s.(inFlight := s.inFlight[1..]), s.inFlight[0], a), a);
    }
  }

  lemma StepConserves(s: State, x: Action)
    requires Live(s) && Conserved(s) && (x.DoEnqueue? ==> x.e.id !in s.ledger.admitted)
    ensures Conserved(Step(s, x))
  {
    hide Enqueue, Flush, ConcludeAll, Keys, UniqueKeys;
    match x
    case DoEnqueue(e) => EnqueueConserves(s, e);
    case DoFlush => FlushConserves(s);
    case DoTimer => FlushConserves(s.(timer := None));
    case DoSettle(a) => ConcludeAllConserves(s, a);
  }

  /** Ids come from crypto.randomUUID(): no two calls of `enqueue` carry the same one. */
  predicate FreshIds(xs: seq<Action>) {
    forall i, j :: 0 <= i < j < |xs| && xs[i].DoEnqueue? && xs[j].DoEnqueue? ==> xs[i].e.id != xs[j].e.id
  }

  lemma {:induction false} AdmittedWereEnqueued(delay: nat, xs: seq<Action>)
    ensures forall id :: id in Run(delay, xs).ledger.admitted ==>
              exists i :: 0 <= i < |xs| && xs[i].DoEnqueue? && xs[i].e.id == id
  {
    hide Put, Without, Keys, CountSends, ConcludeAll;
    if xs != [] {
      var before, x := xs[..|xs| - 1], xs[|xs| - 1];
      AdmittedWereEnqueued(delay, before);
      var s := Run(delay, before);
      AdmittedByStep(s, x);
      forall id | id in Run(delay, xs).ledger.admitted
        ensures exists i :: 0 <= i < |xs| && xs[i].DoEnqueue? && xs[i].e.id == id
      {
        if id in s.ledger.admitted {
          var i :| 0 <= i < |before| && before[i].DoEnqueue? && before[i].e.id == id;
          assert xs[i] == before[i];
        } else {
          assert xs[|xs| - 1].e.id == id;
        }
      }
    }
  }

  lemma AdmittedByStep(s: State, x: Action)
    ensures var admitted := Step(s, x).ledger.admitted;
            admitted == s.ledger.admitted
            || (x.DoEnqueue? && admitted == s.ledger.admitted + {x.e.id})
  {
    hide Put, Without, Keys, CountSends, ConcludeAll;
    if x.DoSettle? {
      ConcludeAllAdmitsNothing(s, x.a);
    }
  }

  lemma {:induction false} ConcludeAllAdmitsNothing(s: State, a: Answer)
    ensures ConcludeAll(s, a).ledger.admitted == s.ledger.admitted
    decreases |s.inFlight|
  {
    if s.inFlight != [] {
      ConcludeAllAdmitsNothing(Conclude(s.(inFlight := s.inFlight[1..]), s.inFlight[0], a), a);
    }
  }

  /** In every reachable state each admitted observation is in exactly one of: pending, in flight,
      acknowledged, evicted, given up after its third send; and none is sent more than three times. */
  lemma {:induction false} RunsConserve(delay: nat, xs: seq<Action>)
    requires FreshIds(xs)
    ensures Conserved(Run(delay, xs))
  {
    hide Step, Live;
    if xs != [] {
      var before := xs[..|xs| - 1];
      assert FreshIds(before) by {
        forall i, j | 0 <= i < j < |before| && before[i].DoEnqueue? && before[j].DoEnqueue?
          ensures before[i].e.id != before[j].e.id
        {
          assert xs[i] == before[i] && xs[j] == before[j];
        }
      }
      RunsConserve(delay, before);
      RunsAreLive(delay, before);
      AdmittedWereEnqueued(delay, before);
      FreshToAdmitted(delay, xs);
      StepConserves(Run(delay, before), xs[|xs| - 1]);
    }
  }

  lemma FreshToAdmitted(delay: nat, xs: seq<Action>)
    requires FreshIds(xs) && xs != []
    ensures var x := xs[|xs| - 1];
            x.DoEnqueue? ==> x.e.id !in Run(delay, xs[..|xs| - 1]).ledger.admitted
  {
    hide Run;
    var before, x := xs[..|xs| - 1], xs[|xs| - 1];
    AdmittedWereEnqueued(delay, before);
    if x.DoEnqueue? {
      forall i | 0 <= i < |before| && before[i].DoEnqueue? ensures before[i].e.id != x.e.id {
        assert xs[i] == before[i];
      }
    }
  }

  // ----- what an answer decides -----

  /** An answer decides about the batch in flight only. */
  lemma ConcludeElsewhere(s: State, a: Answer, id: Id)
    requires UniqueKeys(s.pending) && s.inFlight != [] && s.inFlight[0].event.id != id
    ensures var r := Conclude(s.(inFlight := s.inFlight[1..]), s.inFlight[0], a);
            && (id in r.ledger.acknowledged <==> id in s.ledger.acknowledged)
            && (id in r.ledger.givenUp <==> id in s.ledger.givenUp)
            && forall p: Queued :: p.event.id == id ==> (p in r.pending <==> p in s.pending)
  {
    var q := s.inFlight[0];
    PutKeeps(s.pending, Queued(q.event, q.attempts + 1));
  }

  lemma {:induction false} ConcludeAllElsewhere(s: State, a: Answer, id: Id)
    requires Conserved(s) && id !in Keys(s.inFlight)
    ensures var r := ConcludeAll(s, a);
            && (id in r.ledger.acknowledged <==> id in s.ledger.acknowledged)
            && (id in r.ledger.givenUp <==> id in s.ledger.givenUp)
            && forall p: Queued :: p.event.id == id ==> (p in r.pending <==> p in s.pending)
    decreases |s.inFlight|
  {
    hide Conserved, Put, Partition;
    if s.inFlight != [] {
      var q, more := s.inFlight[0], s.inFlight[1..];
      assert s.inFlight == [q] + more;
      KeysCons(q, more);
      assert UniqueKeys(s.pending) by { ConservedKeys(s); }
      ConcludeElsewhere(s, a, id);
      ConcludeConserves(s, a);
      ConcludeAllElsewhere(Conclude(s.(inFlight := more), q, a), a, id);
    }
  }

  lemma ConservedKeys(s: State)
    requires Conserved(s)
    ensures UniqueKeys(s.pending) && UniqueKeys(s.inFlight)
    ensures forall q :: q in s.inFlight ==>
      && q.event.id !in Keys(s.pending)
      && q.event.id !in s.ledger.acknowledged
      && q.event.id !in s.ledger.givenUp
  {
  }

  /** The answer speaks about the observation and does not ask for it again. */
  predicate Settles(a: Answer, id: Id) {
    match a
    case Rejection => false
    case Response(accepted, rejected, retryable) => id in accepted + rejected - retryable
  }

  /** The fate of one observation of the batch: it was sent for the first, second or third time. */
  ghost predicate Decided(s: State, q: Queued, a: Answer) {
    && (q.event.id in s.ledger.acknowledged <==> Settles(a, q.event.id))
    && (q.event.id in Keys(s.pending) <==> !Settles(a, q.event.id) && q.attempts <= 1)
    && (q.event.id in Keys(s.pending) ==> Queued(q.event, q.attempts + 1) in s.pending)
    && (q.event.id in s.ledger.givenUp <==> !Settles(a, q.event.id) && q.attempts >= 2)
  }

  lemma FirstDecided(s: State, a: Answer)
    requires Conserved(s) && s.inFlight != []
    ensures Decided(Conclude(s.(inFlight := s.inFlight[1..]), s.inFlight[0], a), s.inFlight[0], a)
  {
    hide Conserved, Put;
    var q := s.inFlight[0];
    ConservedKeys(s);
    PutKeeps(s.pending, Queued(q.event, q.attempts + 1));
  }

  lemma {:induction false} ConcludeAllDecides(s: State, a: Answer, q: Queued)
    requires Conserved(s) && q in s.inFlight
    ensures Decided(ConcludeAll(s, a), q, a)
    decreases |s.inFlight|
  {
    hide Conserved, Put, NeedsRetry, UniqueKeys;
    var first, more := s.inFlight[0], s.inFlight[1..];
    assert s.inFlight == [first] + more;
    ConservedKeys(s);
    UniqueCons(first, more);
    KeysCons(first, more);
    ConcludeConserves(s, a);
    var s1 := Conclude(s.(inFlight := more), first, a);
    if q == first {
      FirstDecided(s, a);
      ConcludeAllElsewhere(s1, a, q.event.id);
    } else {
      ConcludeAllDecides(s1, a, q);
    }
  }

  /** However the answer comes, each observation of the batch is acknowledged, queued for one more send
      or given up, exactly as the answer and its number of sends say; what else is pending stays. */
  lemma AnswerDecides(delay: nat, xs: seq<Action>, a: Answer, q: Queued)
    requires FreshIds(xs) && q in Run(delay, xs).inFlight
    ensures Decided(Settle(Run(delay, xs), a), q, a)
    ensures forall p :: p in Run(delay, xs).pending ==> p in Settle(Run(delay, xs), a).pending
  {
    hide Run, Conserved, Put, NeedsRetry, ConcludeAll;
    RunsConserve(delay, xs);
    RunsAreLive(delay, xs);
    var s := Run(delay, xs);
    ConcludeAllDecides(s, a, q);
    forall p | p in s.pending ensures p in Settle(s, a).pending {
      PendingElsewhere(s, p);
      ConcludeAllElsewhere(s, a, p.event.id);
    }
  }

  lemma PendingElsewhere(s: State, p: Queued)
    requires Conserved(s) && p in s.pending
    ensures p.event.id !in Keys(s.inFlight)
  {
    KeyOf(s.pending, p);
  }
}
