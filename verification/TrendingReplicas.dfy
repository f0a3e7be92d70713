/**
 Many replicas of the analytics processor on one Redis: analytics/src/processor.ts with receipts.ts.
 They interleave at every command on the suppression sets, the receipts and the buckets, may stop
 anywhere, and get records again.
 */
module TrendingReplicas {
  import opened Wrappers
  import opened TrendingProcessor

  /** One run of the claim script. */
  datatype Attempt = Attempt(e: Event, now: int)

  /** The writes still to be made for a claimed event, by the replica that claimed it. */
  datatype Job = Job(e: Event, writes: seq<Increment>)

  /** Deliveries on their way: `looking` have looked up the user and not yet the post, `passed` have
      looked up both and not yet claimed. Each claim starts a job; each deletion starts one of SADDs. */
  datatype System = System(
    store: Store, looking: multiset<Event>, passed: multiset<Event>, deletions: seq<seq<Sadd>>,
    jobs: seq<Job>, claimed: seq<Event>, lost: seq<Increment>, attempts: seq<Attempt>)

  datatype Action =
    | Fetch(e: Event)                 // some replica gets the record, and looks up the user
    | LookUpPost(e: Event)            // and the post
    | TryClaim(e: Event, now: int)    // and runs the claim script
    | Abandon(e: Event)               // or dies before it
    | Proceed(job: nat)               // some replica makes its next write
    | LoseWrite(job: nat)             // or that write fails in its pipeline, which nobody looks at
    | Stop(job: nat)                  // some replica dies between claim and last write
    | Suppress(deletion: nat)         // some replica makes its next SADD
    | LoseSadd(deletion: nat)         // or that SADD, of a post, fails: logged and passed over
    | StopDeletion(deletion: nat)     // or dies before it

  const START := System(Store(map[], map[], {}, {}), multiset{}, multiset{}, [], [], [], [], [])

  /** Job `j` has writes to make. */
  predicate Owing(y: System, j: nat) {
    j < |y.jobs| && y.jobs[j].writes != []
  }

  function Rest(job: Job): Job
    requires job.writes != []
  {
    job.(writes := job.writes[1..])
  }

  function Emptied(job: Job): Job {
    job.(writes := [])
  }

  /** Neither a look-up nor a claim. */
  predicate IsWrite(a: Action) {
    a.Proceed? || a.LoseWrite? || a.Stop? || a.Suppress? || a.LoseSadd? || a.StopDeletion?
  }

  function Step(y: System, a: Action): System {
    match a
    case Fetch(e) =>
      if Deletion(e) then y.(deletions := y.deletions + [Sadds(e)])
      else if UserSuppressed(y.store, e) then y
      else y.(looking := y.looking + multiset{e})
    case LookUpPost(e) =>
      if e !in y.looking then y
      else if PostSuppressed(y.store, e) then y.(looking := y.looking - multiset{e})
      else y.(looking := y.looking - multiset{e}, passed := y.passed + multiset{e})
    case TryClaim(e, now) =>
      if e !in y.passed then y
      else if !Counts(e) then y.(passed := y.passed - multiset{e})
      else Claimed(y.(passed := y.passed - multiset{e}, attempts := y.attempts + [Attempt(e, now)]), e, now)
    case Abandon(e) =>
      y.(looking := y.looking - multiset{e}, passed := y.passed - multiset{e})
    case Proceed(j) =>
      if Owing(y, j)
      then y.(store := Write(y.store, y.jobs[j].writes[0]), jobs := y.jobs[j := Rest(y.jobs[j])])
      else y
    case LoseWrite(j) =>
      if Owing(y, j)
      then y.(lost := y.lost + [y.jobs[j].writes[0]], jobs := y.jobs[j := Rest(y.jobs[j])])
      else y
    case Stop(j) =>
      if j < |y.jobs|
      then y.(jobs := y.jobs[j := Emptied(y.jobs[j])], lost := y.lost + y.jobs[j].writes)
      else y
    case Suppress(k) =>
      if k < |y.deletions| && y.deletions[k] != []
      then y.(store := Add(y.store, y.deletions[k][0]), deletions := y.deletions[k := y.deletions[k][1..]])
      else y
    case LoseSadd(k) =>
      if k < |y.deletions| && y.deletions[k] != [] && y.deletions[k][0].SaddPost?
      then y.(deletions := y.deletions[k := y.deletions[k][1..]])
      else y
    case StopDeletion(k) =>
      if k < |y.deletions| then y.(deletions := y.deletions[k := []]) else y
  }

  /** The claim script and what follows it. */
  function Claimed(y: System, e: Event, now: int): System {
    if Claimable(y.store, e.id, now)
    then y.(store := Claim(y.store, e.id, now), jobs := y.jobs + [Job(e, Contribution(e))],
            claimed := y.claimed + [e])
    else y
  }

  function RunFrom(y: System, run: seq<Action>): System {
    if run == [] then y else Step(RunFrom(y, run[..|run| - 1]), run[|run| - 1])
  }

  function Run(run: seq<Action>): System {
    RunFrom(START, run)
  }

  function Outstanding(jobs: seq<Job>, c: Cell): nat {
    if jobs == [] then 0 else SumFor(jobs[0].writes, c) + Outstanding(jobs[1..], c)
  }

  /** What the events of a list contribute to one cell. */
  function Owed(events: seq<Event>, c: Cell): nat {
    if events == [] then 0 else SumFor(Contribution(events[0]), c) + Owed(events[1..], c)
  }

  lemma {:induction false} OutstandingAppend(jobs: seq<Job>, job: Job, c: Cell)
    ensures Outstanding(jobs + [job], c) == Outstanding(jobs, c) + SumFor(job.writes, c)
  {
    if jobs == [] {
      assert jobs + [job] == [job];
    } else {
      assert (jobs + [job])[1..] == jobs[1..] + [job];
      OutstandingAppend(jobs[1..], job, c);
    }
  }

  lemma {:induction false} OutstandingReplace(jobs: seq<Job>, j: nat, job: Job, c: Cell)
    requires j < |jobs|
    ensures Outstanding(jobs[j := job], c) + SumFor(jobs[j].writes, c)
         == Outstanding(jobs, c) + SumFor(job.writes, c)
  {
    if j == 0 {
      assert jobs[j := job][1..] == jobs[1..];
    } else {
      assert jobs[j := job][1..] == jobs[1..][j - 1 := job];
      OutstandingReplace(jobs[1..], j - 1, job, c);
    }
  }

  lemma {:induction false} OwedAppend(events: seq<Event>, e: Event, c: Cell)
    ensures Owed(events + [e], c) == Owed(events, c) + SumFor(Contribution(e), c)
  {
    if events == [] {
      assert events + [e] == [e];
    } else {
      assert (events + [e])[1..] == events[1..] + [e];
      OwedAppend(events[1..], e, c);
    }
  }

  /** Nothing is counted that was not claimed, and nothing claimed disappears except with a replica. */
  ghost predicate Balanced(y: System) {
    forall c :: BalancedAt(y, c)
  }

  ghost predicate BalancedAt(y: System, c: Cell) {
    Count(y.store.buckets, c) + Outstanding(y.jobs, c) + SumFor(y.lost, c) == Owed(y.claimed, c)
  }

  lemma StepKeepsBalanceAt(y: System, a: Action, c: Cell)
    requires BalancedAt(y, c)
    ensures BalancedAt(Step(y, a), c)
  {
    hide Step, BalancedAt;
    if a.TryClaim? {
      ClaimKeepsBalanceAt(y, a.e, a.now, c);
    } else if a.Proceed? || a.LoseWrite? || a.Stop? {
      JobKeepsBalanceAt(y, a, c);
    } else {
      OthersKeepBalanceAt(y, a, c);
    }
  }

  lemma ClaimKeepsBalanceAt(y: System, e: Event, now: int, c: Cell)
    requires BalancedAt(y, c)
    ensures BalancedAt(Step(y, TryClaim(e, now)), c)
  {
    hide Counts, Contribution, Claimable, Outstanding, Owed, SumFor;
    OutstandingAppend(y.jobs, Job(e, Contribution(e)), c);
    OwedAppend(y.claimed, e, c);
  }

  lemma JobKeepsBalanceAt(y: System, a: Action, c: Cell)
    requires BalancedAt(y, c) && (a.Proceed? || a.LoseWrite? || a.Stop?)
    ensures BalancedAt(Step(y, a), c)
  {
    hide Outstanding, Owed;
    var j := a.job;
    if Owing(y, j) || (a.Stop? && j < |y.jobs|) {
      var head := if a.Stop? then y.jobs[j].writes else [y.jobs[j].writes[0]];
      OutstandingReplace(y.jobs, j, if a.Stop? then Emptied(y.jobs[j]) else Rest(y.jobs[j]), c);
      SumForConcat(y.lost, head, c);
    }
  }

  lemma OthersKeepBalanceAt(y: System, a: Action, c: Cell)
    requires BalancedAt(y, c) && !a.TryClaim? && !a.Proceed? && !a.LoseWrite? && !a.Stop?
    ensures BalancedAt(Step(y, a), c)
  {
    hide Deletion, Sadds, UserSuppressed, PostSuppressed, Outstanding, Owed, SumFor;
  }

  lemma StepKeepsBalance(y: System, a: Action)
    requires Balanced(y)
    ensures Balanced(Step(y, a))
  {
    hide Step, BalancedAt;
    forall c ensures BalancedAt(Step(y, a), c) {
      BalanceAt(y, c);
      StepKeepsBalanceAt(y, a, c);
    }
  }

  lemma BalanceAt(y: System, c: Cell)
    requires Balanced(y)
    ensures BalancedAt(y, c)
  {
  }

  lemma {:induction false} RunsBalance(run: seq<Action>)
    ensures Balanced(Run(run))
  {
    hide Step, Balanced;
    if run == [] {
      StartBalances();
    } else {
      RunsBalance(run[..|run| - 1]);
      StepKeepsBalance(Run(run[..|run| - 1]), run[|run| - 1]);
    }
  }

  lemma StartBalances()
    ensures Balanced(START)
  {
  }

  // ----- one claim per event -----

  /** Time does not run backwards, and two attempts on one id are less than a receipt's life apart. */
  predicate Timely(attempts: seq<Attempt>) {
    && (forall i, j :: 0 <= i < j < |attempts| ==> attempts[i].now <= attempts[j].now)
    && (forall i, j :: 0 <= i < j < |attempts| && attempts[i].e.id == attempts[j].e.id ==>
          attempts[j].now - attempts[i].now < RECEIPT_TTL)
  }

  /** Redelivery ends seven days after publication, which leaves a day from delivery to claim before an
      eight-day receipt could have run out. */
  lemma RetentionIsTimely(attempts: seq<Attempt>, published: map<Id, int>)
    requires forall i, j :: 0 <= i < j < |attempts| ==> attempts[i].now <= attempts[j].now
    requires forall i :: 0 <= i < |attempts| ==>
      && attempts[i].e.id in published
      && published[attempts[i].e.id] <= attempts[i].now < published[attempts[i].e.id] + RETENTION + DAY
    ensures Timely(attempts)
  {
  }

  predicate ClaimedOnce(events: seq<Event>) {
    forall i, j :: 0 <= i < j < |events| ==> events[i].id != events[j].id
  }

  predicate Attempted(attempts: seq<Attempt>, e: Event) {
    exists i :: 0 <= i < |attempts| && attempts[i].e == e
  }

  predicate HasClaim(claimed: seq<Event>, id: Id) {
    exists e :: e in claimed && e.id == id
  }

  /** Every claim came from an attempt and left a receipt. */
  ghost predicate FromAttempts(y: System) {
    forall e :: e in y.claimed ==> Counts(e) && Attempted(y.attempts, e) && e.id in y.store.receipts
  }

  /** Every receipt runs for its full time from some attempt on its id. */
  ghost predicate ReceiptsTimed(y: System) {
    forall id :: id in y.store.receipts ==>
      exists i :: 0 <= i < |y.attempts| && y.attempts[i].e.id == id
                  && y.store.receipts[id] == y.attempts[i].now + RECEIPT_TTL
  }

  /** Every receipt and every attempt has its claim. */
  ghost predicate AllClaimed(y: System) {
    && (forall id :: id in y.store.receipts ==> HasClaim(y.claimed, id))
    && (forall i :: 0 <= i < |y.attempts| ==> HasClaim(y.claimed, y.attempts[i].e.id))
  }

  ghost predicate Receipted(y: System) {
    FromAttempts(y) && ReceiptsTimed(y) && AllClaimed(y) && ClaimedOnce(y.claimed)
  }

  /** Only the claim script touches receipts. */
  ghost predicate SameClaims(y: System, y': System) {
    y'.store.receipts == y.store.receipts && y'.claimed == y.claimed && y'.attempts == y.attempts
  }

  lemma OthersKeepReceipts(y: System, a: Action)
    requires !(a.TryClaim? && a.e in y.passed && Counts(a.e))
    ensures SameClaims(y, Step(y, a))
  {
    hide Step, SameClaims, Counts;
    match a
    case Fetch(_) => LookUpsKeepReceipts(y, a);
    case LookUpPost(_) => LookUpsKeepReceipts(y, a);
    case Abandon(_) => LookUpsKeepReceipts(y, a);
    case TryClaim(e, now) => NoScriptNoReceipt(y, e, now);
    case _ => WritesKeepReceipts(y, a);
  }

  lemma LookUpsKeepReceipts(y: System, a: Action)
    requires a.Fetch? || a.LookUpPost? || a.Abandon?
    ensures SameClaims(y, Step(y, a))
  {
    hide UserSuppressed, PostSuppressed, Deletion, Sadds;
  }

  lemma NoScriptNoReceipt(y: System, e: Event, now: int)
    requires !(e in y.passed && Counts(e))
    ensures SameClaims(y, Step(y, TryClaim(e, now)))
  {
    hide Counts, Claimed;
  }

  lemma WritesKeepReceipts(y: System, a: Action)
    requires IsWrite(a)
    ensures SameClaims(y, Step(y, a))
  {
  }

  lemma TimelyPrefix(attempts: seq<Attempt>, last: Attempt)
    requires Timely(attempts + [last])
    ensures Timely(attempts)
  {
    assert forall i :: 0 <= i < |attempts| ==> (attempts + [last])[i] == attempts[i];
  }

  /** A later attempt finds the receipt of an earlier claim alive. */
  lemma NotClaimableAgain(y: System, a: Attempt)
    requires Timely(y.attempts + [a]) && Receipted(y) && HasClaim(y.claimed, a.e.id)
    ensures !Claimable(y.store, a.e.id, a.now)
  {
    var all := y.attempts + [a];
    var i :| 0 <= i < |y.attempts| && y.attempts[i].e.id == a.e.id
             && y.store.receipts[a.e.id] == y.attempts[i].now + RECEIPT_TTL;
    assert all[i] == y.attempts[i] && all[|y.attempts|] == a;
  }

  lemma AttemptsExtend(attempts: seq<Attempt>, a: Attempt)
    ensures Attempted(attempts + [a], a.e)
    ensures forall e :: Attempted(attempts, e) ==> Attempted(attempts + [a], e)
  {
    var all := attempts + [a];
    assert all[|attempts|] == a;
    forall e | Attempted(attempts, e) ensures Attempted(all, e) {
      var i :| 0 <= i < |attempts| && attempts[i].e == e;
      assert all[i] == attempts[i];
    }
  }

  /** The attempt itself, before the script's answer is looked at. */
  function Tried(y: System, e: Event, now: int): System {
    y.(passed := y.passed - multiset{e}, attempts := y.attempts + [Attempt(e, now)])
  }

  lemma AttemptKeepsReceipts(y: System, e: Event, now: int)
    requires Receipted(y) && Counts(e) && Timely(y.attempts + [Attempt(e, now)])
    ensures Receipted(Claimed(Tried(y, e, now), e, now))
  {
    hide FromAttempts, ReceiptsTimed, AllClaimed, ClaimedOnce, Contribution, Counts, HasClaim, Claimable, Timely;
    if HasClaim(y.claimed, e.id) {
      NotClaimableAgain(y, Attempt(e, now));
    }
    FromAttemptsKept(y, e, now);
    ReceiptsTimedKept(y, e, now);
    AllClaimedKept(y, e, now);
    if !HasClaim(y.claimed, e.id) {
      ClaimedOnceAppend(y.claimed, e);
    }
  }

  lemma FromAttemptsKept(y: System, e: Event, now: int)
    requires FromAttempts(y) && Counts(e)
    ensures FromAttempts(Claimed(Tried(y, e, now), e, now))
  {
    hide Contribution, Counts, Attempted;
    AttemptsExtend(y.attempts, Attempt(e, now));
  }

  lemma ReceiptsTimedKept(y: System, e: Event, now: int)
    requires ReceiptsTimed(y)
    ensures ReceiptsTimed(Claimed(Tried(y, e, now), e, now))
  {
    hide Contribution, Counts;
    var y' := Claimed(Tried(y, e, now), e, now);
    forall id | id in y'.store.receipts
      ensures exists i :: 0 <= i < |y'.attempts| && y'.attempts[i].e.id == id
                          && y'.store.receipts[id] == y'.attempts[i].now + RECEIPT_TTL
    {
      if id == e.id && Claimable(y.store, e.id, now) {
        assert y'.attempts[|y.attempts|] == Attempt(e, now);
      } else {
        var i :| 0 <= i < |y.attempts| && y.attempts[i].e.id == id
                 && y.store.receipts[id] == y.attempts[i].now + RECEIPT_TTL;
        assert y'.attempts[i] == y.attempts[i];
      }
    }
  }

  lemma AllClaimedKept(y: System, e: Event, now: int)
    requires AllClaimed(y) && FromAttempts(y)
    ensures AllClaimed(Claimed(Tried(y, e, now), e, now))
  {
    hide Contribution, Counts, HasClaim, Attempted;
    ClaimsExtend(y.claimed, e);
    assert forall i :: 0 <= i < |y.attempts| ==> (y.attempts + [Attempt(e, now)])[i] == y.attempts[i];
  }

  lemma {:induction false} RunsClaimOnce(run: seq<Action>)
    requires Timely(Run(run).attempts)
    ensures Receipted(Run(run))
  {
    hide Step, Receipted, Timely, Counts;
    if run == [] {
      NothingReceipted();
    } else {
      var y, a := Run(run[..|run| - 1]), run[|run| - 1];
      if a.TryClaim? && a.e in y.passed && Counts(a.e) {
        ClaimStep(y, a.e, a.now);
        TimelyPrefix(y.attempts, Attempt(a.e, a.now));
        RunsClaimOnce(run[..|run| - 1]);
        AttemptKeepsReceipts(y, a.e, a.now);
      } else {
        OthersKeepReceipts(y, a);
        RunsClaimOnce(run[..|run| - 1]);
        SameReceipts(y, Step(y, a));
      }
    }
  }

  lemma ClaimStep(y: System, e: Event, now: int)
    requires e in y.passed && Counts(e)
    ensures Step(y, TryClaim(e, now)) == Claimed(Tried(y, e, now), e, now)
    ensures Claimed(Tried(y, e, now), e, now).attempts == y.attempts + [Attempt(e, now)]
  {
    hide Contribution, Counts;
  }

  lemma SameReceipts(y: System, y': System)
    requires Receipted(y) && SameClaims(y, y')
    ensures Receipted(y')
  {
    hide Counts, Attempted, HasClaim, ClaimedOnce;
  }

  lemma NothingReceipted()
    ensures Receipted(START)
  {
  }

  lemma ClaimedOnceAppend(events: seq<Event>, e: Event)
    requires ClaimedOnce(events) && !HasClaim(events, e.id)
    ensures ClaimedOnce(events + [e])
  {
  }

  lemma ClaimsExtend(events: seq<Event>, e: Event)
    ensures HasClaim(events + [e], e.id)
    ensures forall id :: HasClaim(events, id) ==> HasClaim(events + [e], id)
  {
    assert e in events + [e];
    forall id | HasClaim(events, id) ensures HasClaim(events + [e], id) {
      var d :| d in events && d.id == id;
      assert d in events + [e];
    }
  }

  // ----- counts depend on the set of events only -----

  lemma {:induction false} OwedSplit(events: seq<Event>, k: nat, c: Cell)
    requires k < |events|
    ensures Owed(events, c) == Owed(events[..k] + events[k + 1..], c) + SumFor(Contribution(events[k]), c)
  {
    if k == 0 {
      assert events[..0] + events[1..] == events[1..];
    } else {
      OwedSplit(events[1..], k - 1, c);
      var others := events[..k] + events[k + 1..];
      assert others[1..] == events[1..][..k - 1] + events[1..][k..];
    }
  }

  lemma OthersClaimedOnce(events: seq<Event>, k: nat)
    requires k < |events| && ClaimedOnce(events)
    ensures ClaimedOnce(events[..k] + events[k + 1..])
  {
    var others := events[..k] + events[k + 1..];
    forall i, j | 0 <= i < j < |others| ensures others[i].id != others[j].id {
      assert others[i] == events[if i < k then i else i + 1];
      assert others[j] == events[if j < k then j else j + 1];
    }
  }

  lemma {:induction false} OwedOfSubset(a: seq<Event>, b: seq<Event>, c: Cell)
    requires ClaimedOnce(a) && ClaimedOnce(b) && forall e :: e in a ==> e in b
    ensures Owed(a, c) <= Owed(b, c)
  {
    hide Contribution;
    if a != [] {
      assert a[0] in a;
      var k :| 0 <= k < |b| && b[k] == a[0];
      var others := b[..k] + b[k + 1..];
      OwedSplit(b, k, c);
      OthersClaimedOnce(a, 0);
      OthersClaimedOnce(b, k);
      assert a[..0] + a[1..] == a[1..];
      StillThere(a, b, k);
      OwedOfSubset(a[1..], others, c);
    }
  }

  lemma StillThere(a: seq<Event>, b: seq<Event>, k: nat)
    requires a != [] && k < |b| && b[k] == a[0]
    requires ClaimedOnce(a) && forall e :: e in a ==> e in b
    ensures forall e :: e in a[1..] ==> e in b[..k] + b[k + 1..]
  {
    var others := b[..k] + b[k + 1..];
    forall e | e in a[1..] ensures e in others {
      var i :| 0 <= i < |a[1..]| && a[1..][i] == e;
      assert a[i + 1] == e && e.id != a[0].id;
      assert e in a;
      var j :| 0 <= j < |b| && b[j] == e;
      assert others[if j < k then j else j - 1] == e;
    }
  }

  /** `events` lists every event the claim script was run for, each id once. */
  ghost predicate Distinct(events: seq<Event>, attempts: seq<Attempt>) {
    ClaimedOnce(events) && forall e :: Attempted(attempts, e) ==> e in events
  }

  /** One id is one event: duplicates are copies. */
  predicate Consistent(attempts: seq<Attempt>) {
    forall i, j :: 0 <= i < |attempts| && 0 <= j < |attempts| && attempts[i].e.id == attempts[j].e.id ==>
      attempts[i].e == attempts[j].e
  }

  /** Safety of all runs, with any number of replicas, any interleaving, redelivery, deletions and stops:
      no cell ever holds more than each distinct event's own contribution. */
  lemma NeverOvercounts(run: seq<Action>, events: seq<Event>, c: Cell)
    requires Timely(Run(run).attempts) && Distinct(events, Run(run).attempts)
    ensures Count(Run(run).store.buckets, c) <= Owed(events, c)
  {
    hide Run, Timely;
    RunsBalance(run);
    RunsClaimOnce(run);
    var y := Run(run);
    OwedOfSubset(y.claimed, events, c);
    BalanceAt(y, c);
  }

  predicate NothingLostIn(run: seq<Action>) {
    forall i :: 0 <= i < |run| ==> !run[i].Stop? && !run[i].LoseWrite?
  }

  predicate Drained(y: System) {
    forall j :: 0 <= j < |y.jobs| ==> y.jobs[j].writes == []
  }

  lemma {:induction false} NothingLost(run: seq<Action>)
    requires NothingLostIn(run)
    ensures Run(run).lost == []
  {
    hide Step;
    if run != [] {
      var n := |run| - 1;
      assert forall i :: 0 <= i < n ==> run[..n][i] == run[i];
      NothingLost(run[..n]);
      OnlyStopsLose(Run(run[..n]), run[n]);
    }
  }

  lemma OnlyStopsLose(y: System, a: Action)
    requires !a.Stop? && !a.LoseWrite?
    ensures Step(y, a).lost == y.lost
  {
    hide Counts, Contribution, UserSuppressed, PostSuppressed, Deletion, Sadds, Claimable;
    match a
    case Fetch(_) =>
    case LookUpPost(_) =>
    case TryClaim(_, _) =>
    case Abandon(_) =>
    case _ =>
  }

  lemma {:induction false} NothingOutstanding(jobs: seq<Job>, c: Cell)
    requires forall j :: 0 <= j < |jobs| ==> jobs[j].writes == []
    ensures Outstanding(jobs, c) == 0
  {
    if jobs != [] {
      NothingOutstanding(jobs[1..], c);
    }
  }

  lemma ClaimedWasAttempted(y: System, e: Event)
    requires Receipted(y) && e in y.claimed
    ensures Attempted(y.attempts, e)
  {
  }

  lemma AttemptedWasClaimed(y: System, e: Event)
    requires Receipted(y) && Consistent(y.attempts) && Attempted(y.attempts, e)
    ensures e in y.claimed
  {
    var i :| 0 <= i < |y.attempts| && y.attempts[i].e == e;
    assert HasClaim(y.claimed, y.attempts[i].e.id);
    var d :| d in y.claimed && d.id == e.id;
    var j :| 0 <= j < |y.attempts| && y.attempts[j].e == d;
  }

  /** If no replica stops between a claim and its writes and no write fails, then once all writes are made
      the counts are those of the set of events that reached the claim script: replicas, order and
      redelivery leave no trace. */
  lemma FinalCountsAreExact(run: seq<Action>, events: seq<Event>, c: Cell)
    requires Timely(Run(run).attempts) && Consistent(Run(run).attempts) && NothingLostIn(run) && Drained(Run(run))
    requires ClaimedOnce(events) && forall e :: e in events <==> Attempted(Run(run).attempts, e)
    ensures Count(Run(run).store.buckets, c) == Owed(events, c)
  {
    hide Run, Receipted, Balanced, Attempted, Consistent, Timely;
    RunsBalance(run);
    RunsClaimOnce(run);
    NothingLost(run);
    var y := Run(run);
    NothingOutstanding(y.jobs, c);
    BalanceAt(y, c);
    forall e | e in y.claimed ensures e in events {
      ClaimedWasAttempted(y, e);
    }
    forall e | e in events ensures e in y.claimed {
      AttemptedWasClaimed(y, e);
    }
    OnlyOnce(y);
    OwedOfSubset(y.claimed, events, c);
    OwedOfSubset(events, y.claimed, c);
  }

  lemma OnlyOnce(y: System)
    requires Receipted(y)
    ensures ClaimedOnce(y.claimed)
  {
  }

  // ----- from fetched records to attempts -----

  predicate Fetched(run: seq<Action>, e: Event) {
    exists i :: 0 <= i < |run| && run[i] == Fetch(e)
  }

  /** No privacy event, and no replica dies on the way to a claim. */
  predicate Undisturbed(run: seq<Action>) {
    forall i :: 0 <= i < |run| ==> !run[i].Abandon? && (run[i].Fetch? ==> !Deletion(run[i].e))
  }

  /** Every counting record fetched is on its way or has reached the claim script; nothing else has. */
  ghost predicate Accounted(y: System, run: seq<Action>) {
    && y.store.users == {} && y.store.posts == {} && y.deletions == []
    && (forall e :: Counts(e) && Fetched(run, e) <==>
          Counts(e) && (e in y.looking || e in y.passed || Attempted(y.attempts, e)))
    && (forall e :: Attempted(y.attempts, e) ==> Counts(e))
  }

  lemma FetchedExtends(run: seq<Action>, a: Action)
    ensures forall e :: Fetched(run + [a], e) <==> Fetched(run, e) || a == Fetch(e)
  {
    var all := run + [a];
    assert all[|run|] == a;
    forall e | Fetched(run, e) ensures Fetched(all, e) {
      var i :| 0 <= i < |run| && run[i] == Fetch(e);
      assert all[i] == run[i];
    }
    forall e | Fetched(all, e) ensures Fetched(run, e) || a == Fetch(e) {
      var i :| 0 <= i < |all| && all[i] == Fetch(e);
      assert i < |run| ==> run[i] == Fetch(e);
    }
  }

  lemma AttemptedOneMore(attempts: seq<Attempt>, a: Attempt)
    ensures forall e :: Attempted(attempts + [a], e) <==> Attempted(attempts, e) || a.e == e
  {
    AttemptsExtend(attempts, a);
    forall e | Attempted(attempts + [a], e) ensures Attempted(attempts, e) || a.e == e {
      var i :| 0 <= i < |attempts + [a]| && (attempts + [a])[i].e == e;
      assert i < |attempts| ==> attempts[i].e == e;
    }
  }

  lemma StepKeepsAccounted(y: System, run: seq<Action>, a: Action)
    requires Accounted(y, run) && !a.Abandon? && (a.Fetch? ==> !Deletion(a.e))
    ensures Accounted(Step(y, a), run + [a])
  {
    hide Accounted, Step;
    match a
    case Fetch(e) => FetchKeepsAccounted(y, run, e);
    case LookUpPost(e) => LookUpKeepsAccounted(y, run, e);
    case TryClaim(e, now) => ClaimKeepsAccounted(y, run, e, now);
    case _ => WritesKeepAccounted(y, run, a);
  }

  lemma FetchKeepsAccounted(y: System, run: seq<Action>, e: Event)
    requires Accounted(y, run) && !Deletion(e)
    ensures Accounted(Step(y, Fetch(e)), run + [Fetch(e)])
  {
    hide Counts, Deletion, Sadds, Attempted, Fetched;
    FetchedExtends(run, Fetch(e));
  }

  lemma LookUpKeepsAccounted(y: System, run: seq<Action>, e: Event)
    requires Accounted(y, run)
    ensures Accounted(Step(y, LookUpPost(e)), run + [LookUpPost(e)])
  {
    hide Counts, Attempted, Fetched;
    FetchedExtends(run, LookUpPost(e));
  }

  lemma ClaimKeepsAccounted(y: System, run: seq<Action>, e: Event, now: int)
    requires Accounted(y, run)
    ensures Accounted(Step(y, TryClaim(e, now)), run + [TryClaim(e, now)])
  {
    hide Counts, Contribution, Claimable, Attempted, Fetched;
    FetchedExtends(run, TryClaim(e, now));
    AttemptedOneMore(y.attempts, Attempt(e, now));
  }

  lemma WritesKeepAccounted(y: System, run: seq<Action>, a: Action)
    requires Accounted(y, run) && IsWrite(a)
    ensures Accounted(Step(y, a), run + [a])
  {
    hide Counts, Attempted, Fetched, Step;
    FetchedExtends(run, a);
    WritesKeepQueues(y, a);
  }

  lemma WritesKeepQueues(y: System, a: Action)
    requires IsWrite(a) && y.deletions == []
    ensures var y' := Step(y, a);
            && y'.looking == y.looking && y'.passed == y.passed && y'.attempts == y.attempts
            && y'.deletions == [] && y'.store.users == y.store.users && y'.store.posts == y.store.posts
  {
  }

  lemma {:induction false} RunsAreAccounted(run: seq<Action>)
    requires Undisturbed(run)
    ensures Accounted(Run(run), run)
  {
    hide Step, Accounted;
    if run == [] {
      NothingAccounted();
    } else {
      var n := |run| - 1;
      assert forall i :: 0 <= i < n ==> run[..n][i] == run[i];
      RunsAreAccounted(run[..n]);
      StepKeepsAccounted(Run(run[..n]), run[..n], run[n]);
      assert run == run[..n] + [run[n]];
    }
  }

  lemma NothingAccounted()
    ensures Accounted(START, [])
  {
  }

  /** In runs without deletions or stops, once every record fetched has been dealt with, the counts
      depend on the set of distinct events alone. */
  lemma CountsDependOnEventsOnly(run: seq<Action>, events: seq<Event>, c: Cell)
    requires Timely(Run(run).attempts) && Consistent(Run(run).attempts)
    requires Undisturbed(run) && NothingLostIn(run) && Drained(Run(run))
    requires Run(run).looking == multiset{} && Run(run).passed == multiset{}
    requires ClaimedOnce(events) && forall e :: e in events <==> Counts(e) && Fetched(run, e)
    ensures Count(Run(run).store.buckets, c) == Owed(events, c)
  {
    hide Run, Timely, Consistent, Attempted, Fetched, Counts;
    RunsAreAccounted(run);
    FinalCountsAreExact(run, events, c);
  }

  // ----- what one replica does alone is one of the interleavings -----

  lemma {:induction false} RunFromAppend(y: System, a: seq<Action>, b: seq<Action>)
    ensures RunFrom(y, a + b) == RunFrom(RunFrom(y, a), b)
  {
    hide Step;
    if b == [] {
      assert a + b == a;
    } else {
      assert (a + b)[..|a + b| - 1] == a + b[..|b| - 1];
      RunFromAppend(y, a, b[..|b| - 1]);
    }
  }

  lemma RunFromFirst(y: System, a: Action, run: seq<Action>)
    ensures RunFrom(y, [a] + run) == RunFrom(Step(y, a), run)
  {
    hide Step;
    RunFromAppend(y, [a], run);
    assert [a][..0] == [];
  }

  function Proceeds(job: nat, n: nat): seq<Action> {
    if n == 0 then [] else [Proceed(job)] + Proceeds(job, n - 1)
  }

  function Suppresses(deletion: nat, n: nat): seq<Action> {
    if n == 0 then [] else [Suppress(deletion)] + Suppresses(deletion, n - 1)
  }

  lemma RunOfNone(y: System)
    ensures RunFrom(y, []) == y
  {
  }

  lemma ProceedStep(y: System, job: nat) returns (y': System)
    requires Owing(y, job)
    ensures y' == Step(y, Proceed(job))
    ensures y' == y.(store := Write(y.store, y.jobs[job].writes[0]), jobs := y.jobs[job := Rest(y.jobs[job])])
  {
    hide Write;
    y' := Step(y, Proceed(job));
  }

  lemma SuppressStep(y: System, k: nat) returns (y': System)
    requires k < |y.deletions| && y.deletions[k] != []
    ensures y' == Step(y, Suppress(k))
    ensures y' == y.(store := Add(y.store, y.deletions[k][0]), deletions := y.deletions[k := y.deletions[k][1..]])
  {
    hide Add;
    y' := Step(y, Suppress(k));
  }

  /** Both look-ups of a record that nothing suppresses. */
  lemma LookUpsPass(y: System, e: Event) returns (y1: System)
    requires !Deletion(e) && !Suppressed(y.store, e)
    ensures y1 == Step(Step(y, Fetch(e)), LookUpPost(e))
    ensures y1 == y.(passed := y.passed + multiset{e})
  {
    hide Deletion, UserSuppressed, PostSuppressed;
    y1 := Step(Step(y, Fetch(e)), LookUpPost(e));
    assert y.looking + multiset{e} - multiset{e} == y.looking;
  }

  lemma {:induction false} ProceedsWrite(y: System, job: nat)
    requires job < |y.jobs|
    ensures RunFrom(y, Proceeds(job, |y.jobs[job].writes|))
         == y.(store := WriteAll(y.store, y.jobs[job].writes), jobs := y.jobs[job := Emptied(y.jobs[job])])
    decreases |y.jobs[job].writes|
  {
    hide Write, Step, RunFrom;
    if y.jobs[job].writes == [] {
      assert y.jobs[job := Emptied(y.jobs[job])] == y.jobs;
      RunOfNone(y);
    } else {
      var y1 := ProceedStep(y, job);
      RunFromFirst(y, Proceed(job), Proceeds(job, |y.jobs[job].writes| - 1));
      ProceedsWrite(y1, job);
      assert y1.jobs[job := Emptied(y1.jobs[job])] == y.jobs[job := Emptied(y.jobs[job])];
    }
  }

  lemma {:induction false} NothingToProceed(y: System, job: nat, n: nat)
    requires job >= |y.jobs|
    ensures RunFrom(y, Proceeds(job, n)) == y
  {
    if n > 0 {
      RunFromFirst(y, Proceed(job), Proceeds(job, n - 1));
      NothingToProceed(y, job, n - 1);
    }
  }

  lemma {:induction false} SuppressesAdd(y: System, k: nat)
    requires k < |y.deletions|
    ensures RunFrom(y, Suppresses(k, |y.deletions[k]|))
         == y.(store := AddAll(y.store, y.deletions[k]), deletions := y.deletions[k := []])
    decreases |y.deletions[k]|
  {
    hide Add, Step, RunFrom;
    if y.deletions[k] == [] {
      assert y.deletions[k := []] == y.deletions;
      RunOfNone(y);
    } else {
      var y1 := SuppressStep(y, k);
      RunFromFirst(y, Suppress(k), Suppresses(k, |y.deletions[k]| - 1));
      SuppressesAdd(y1, k);
      assert y1.deletions[k := []] == y.deletions[k := []];
    }
  }

  /** One record from fetch to last write, with nobody in between; `job` is the next free one. */
  function Delivery(job: nat, e: Event, now: int): seq<Action> {
    [Fetch(e)] + ([LookUpPost(e)] + ([TryClaim(e, now)] + Proceeds(job, |Contribution(e)|)))
  }

  lemma DeliveryAlone(y: System, e: Event, now: int)
    requires !Deletion(e) && !Suppressed(y.store, e) && Counts(e)
    ensures var y' := RunFrom(y, Delivery(|y.jobs|, e, now));
            var tried := y.(attempts := y.attempts + [Attempt(e, now)]);
            y' == if !Claimable(y.store, e.id, now) then tried
                  else tried.(store := WriteAll(Claim(y.store, e.id, now), Contribution(e)),
                              jobs := y.jobs + [Job(e, [])], claimed := y.claimed + [e])
  {
    hide Counts, Contribution, Deletion, Suppressed, RunFrom, Step, Claimable;
    var writes := Proceeds(|y.jobs|, |Contribution(e)|);
    RunFromFirst(y, Fetch(e), [LookUpPost(e)] + ([TryClaim(e, now)] + writes));
    RunFromFirst(Step(y, Fetch(e)), LookUpPost(e), [TryClaim(e, now)] + writes);
    var y2 := LookUpsPass(y, e);
    RunFromFirst(y2, TryClaim(e, now), writes);
    ClaimStep(y2, e, now);
    assert y.passed + multiset{e} - multiset{e} == y.passed;
    var y3 := Claimed(y.(attempts := y.attempts + [Attempt(e, now)]), e, now);
    assert y3 == Step(y2, TryClaim(e, now));
    if Claimable(y.store, e.id, now) {
      ProceedsWrite(y3, |y.jobs|);
      assert (y.jobs + [Job(e, Contribution(e))])[|y.jobs| := Job(e, [])] == y.jobs + [Job(e, [])];
    } else {
      NothingToProceed(y3, |y.jobs|, |Contribution(e)|);
    }
  }

  lemma DeletionAlone(y: System, d: Event) returns (run: seq<Action>)
    requires Deletion(d)
    ensures RunFrom(y, run).store == AddAll(y.store, Sadds(d))
  {
    hide Deletion, Sadds, RunFrom;
    var k := |y.deletions|;
    run := [Fetch(d)] + Suppresses(k, |Sadds(d)|);
    RunFromFirst(y, Fetch(d), Suppresses(k, |Sadds(d)|));
    SuppressesAdd(Step(y, Fetch(d)), k);
  }

  /** Whatever the message, handling it alone is a run of the system. */
  lemma HandleIsInterleaving(y: System, m: Message, now: int) returns (run: seq<Action>)
    ensures RunFrom(y, run).store == Handle(y.store, m, now)
  {
    hide Counts, Contribution, Deletion, Sadds, UserSuppressed, PostSuppressed, Claimable;
    run := [];
    if m.envelope.Some? {
      var e := m.envelope.value;
      if Deletion(e) {
        run := DeletionAlone(y, e);
      } else if !Suppressed(y.store, e) && Counts(e) {
        run := Delivery(|y.jobs|, e, now);
        DeliveryAlone(y, e, now);
      }
    }
  }

  /** So is a replica's batch. */
  lemma {:induction false} BatchIsInterleaving(y: System, ms: seq<Message>, now: int) returns (run: seq<Action>)
    ensures RunFrom(y, run).store == HandleAll(y.store, ms, now)
  {
    hide Step, Handle;
    if ms == [] {
      run := [];
    } else {
      var before := BatchIsInterleaving(y, ms[..|ms| - 1], now);
      var last := HandleIsInterleaving(RunFrom(y, before), ms[|ms| - 1], now);
      RunFromAppend(y, before, last);
      run := before + last;
    }
  }

  lemma {:induction false} WritesAddUp(s: Store, writes: seq<Increment>, c: Cell)
    ensures Count(WriteAll(s, writes).buckets, c) == Count(s.buckets, c) + SumFor(writes, c)
    ensures WriteAll(s, writes) == s.(buckets := WriteAll(s, writes).buckets)
    decreases writes
  {
    if writes != [] {
      WritesAddUp(Write(s, writes[0]), writes[1..], c);
    }
  }

  // ----- what goes wrong -----

  /** How many deliveries of the event are on their way. */
  function OnTheirWay(y: System, e: Event): nat {
    y.looking[e] + y.passed[e]
  }

  /** A look-up that finds the post suppressed ends a delivery; one that does not passes it on. */
  lemma LookUpEnds(y: System, e: Event, other: Event)
    requires e in y.looking
    ensures var y' := Step(y, LookUpPost(e));
            && (if e.postId.Some? && e.postId.value in y.store.posts
                then y'.looking[e] == y.looking[e] - 1 && y'.passed == y.passed
                else OnTheirWay(y', e) == OnTheirWay(y, e) && y'.passed[e] == y.passed[e] + 1)
            && (other != e ==> OnTheirWay(y', other) == OnTheirWay(y, other))
  {
  }

  /** The claim script ends a delivery, whatever it answers. */
  lemma ClaimEnds(y: System, e: Event, now: int, other: Event)
    requires e in y.passed
    ensures var y' := Step(y, TryClaim(e, now));
            && y'.passed[e] == y.passed[e] - 1 && y'.looking == y.looking
            && (other != e ==> y'.passed[other] == y.passed[other])
  {
    hide Counts, Contribution, Claimable, Claim;
  }

  /** So does the death of a replica before it. */
  lemma AbandonEnds(y: System, e: Event, other: Event)
    ensures var y' := Step(y, Abandon(e));
            && y'.looking[e] == (if e in y.looking then y.looking[e] - 1 else 0)
            && y'.passed[e] == (if e in y.passed then y.passed[e] - 1 else 0)
            && (other != e ==> OnTheirWay(y', other) == OnTheirWay(y, other))
  {
  }

  /** A write that fails is lost and no other; a replica that dies over a job loses all that is left of it;
      over a deletion, the SADDs that are left. A SADD that fails is one of a post. Nothing of this changes
      the store. */
  lemma FailuresLose(y: System, j: nat, k: nat)
    requires j < |y.jobs| && k < |y.deletions|
    ensures var y' := Step(y, LoseWrite(j));
            && y'.store == y.store
            && (y.jobs[j].writes != [] ==>
                  y'.lost == y.lost + [y.jobs[j].writes[0]] && y'.jobs[j].writes == y.jobs[j].writes[1..])
    ensures var y' := Step(y, Stop(j));
            y'.store == y.store && y'.jobs[j].writes == [] && y'.lost == y.lost + y.jobs[j].writes
    ensures var y' := Step(y, StopDeletion(k));
            y'.store == y.store && y'.deletions[k] == []
    ensures var y' := Step(y, LoseSadd(k));
            && y'.store == y.store
            && y'.deletions[k] == if y.deletions[k] != [] && y.deletions[k][0].SaddPost? then y.deletions[k][1..]
                                  else y.deletions[k]
    ensures var y' := Step(y, Suppress(k));
            y.deletions[k] != [] ==> y'.deletions[k] == y.deletions[k][1..]
  {
  }
}
