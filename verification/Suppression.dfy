/**
 Deleted accounts and posts in the analytics processor: `applyDeletion` and `isSuppressed` of
 analytics/src/processor.ts among many replicas. Which events of a deleted user can still be counted?
 */
module Suppression {
  import opened Wrappers
  import opened TrendingProcessor
  import opened TrendingReplicas

  /** The deletion is of this user: the one it gives, or who caused it if it gives none. */
  predicate NamesUser(d: Event, user: string) {
    user != [] && (d.userId == Some(user) || (d.userId == None && d.actorId == Some(user)))
  }

  /** The post is one of the first five thousand listed. */
  predicate NamesPost(d: Event, post: string) {
    post != [] && exists i :: 0 <= i < |d.ownedPosts| && i < 5000 && d.ownedPosts[i] == Some(post)
  }

  /** Does event `e` belong to the user or to one of the posts that deletion `d` names? */
  predicate Names(d: Event, e: Event) {
    || (e.actorId.Some? && NamesUser(d, e.actorId.value))
    || (e.postId.Some? && NamesPost(d, e.postId.value))
  }

  predicate Holds(s: Store, x: Sadd) {
    match x
    case SaddUser(id) => id in s.users
    case SaddPost(id) => id in s.posts
  }

  /** The deletion has made all its SADDs. */
  ghost predicate Done(s: Store, d: Event) {
    forall x :: x in Sadds(d) ==> Holds(s, x)
  }

  lemma {:induction false} PostSaddsIff(owned: seq<Option<string>>, x: Sadd)
    ensures x in PostSadds(owned) <==>
              x.SaddPost? && x.id != [] && exists i :: 0 <= i < |owned| && owned[i] == Some(x.id)
  {
    if owned != [] {
      PostSaddsIff(owned[1..], x);
      assert owned == [owned[0]] + owned[1..];
      if i :| 0 <= i < |owned| && owned[i] == Some(x.id) {
        assert i > 0 ==> owned[1..][i - 1] == Some(x.id);
      }
      assert forall i :: 0 <= i < |owned| - 1 ==> owned[1..][i] == owned[i + 1];
    }
  }

  /** The SADDs of a deletion: its user, and its posts. */
  lemma SaddsIff(d: Event, x: Sadd)
    ensures x in Sadds(d) <==> match x case SaddUser(id) => NamesUser(d, id) case SaddPost(id) => NamesPost(d, id)
  {
    hide PostSadds;
    PostSaddsIff(Owned(d), x);
    assert forall i :: 0 <= i < |Owned(d)| ==> Owned(d)[i] == d.ownedPosts[i];
    if x.SaddPost? && NamesPost(d, x.id) {
      var i :| 0 <= i < |d.ownedPosts| && i < 5000 && d.ownedPosts[i] == Some(x.id);
      assert Owned(d)[i] == Some(x.id);
    }
  }

  lemma DoneSuppresses(s: Store, d: Event, e: Event)
    requires Done(s, d) && Names(d, e)
    ensures Suppressed(s, e)
  {
    hide Sadds, NamesUser, NamesPost;
    if e.actorId.Some? && NamesUser(d, e.actorId.value) {
      SaddsIff(d, SaddUser(e.actorId.value));
      assert Holds(s, SaddUser(e.actorId.value));
      assert e.actorId.value != [] by { NamedUserIsSome(d, e.actorId.value); }
    } else {
      SaddsIff(d, SaddPost(e.postId.value));
      assert Holds(s, SaddPost(e.postId.value));
    }
  }

  lemma NamedUserIsSome(d: Event, user: string)
    requires NamesUser(d, user)
    ensures user != []
  {
  }

  lemma {:induction false} AddAllHolds(s: Store, xs: seq<Sadd>, x: Sadd)
    ensures Holds(AddAll(s, xs), x) <==> Holds(s, x) || x in xs
    decreases xs
  {
    if xs != [] {
      AddAllHolds(Add(s, xs[0]), xs[1..], x);
      assert xs == [xs[0]] + xs[1..];
    }
  }

  // ----- a deletion among other replicas' commands -----

  /** Each SADD of job `k` of the deletion has been made or is still to come; with `losses`, at least those
      of the user. */
  ghost predicate Underway(y: System, d: Event, k: nat, losses: bool) {
    && k < |y.deletions|
    && forall x :: x in Sadds(d) && (losses ==> x.SaddUser?) ==> Holds(y.store, x) || x in y.deletions[k]
  }

  lemma StepKeepsUnderway(y: System, d: Event, k: nat, losses: bool, a: Action)
    requires Underway(y, d, k, losses) && a != StopDeletion(k) && (a == LoseSadd(k) ==> losses)
    ensures Underway(Step(y, a), d, k, losses)
  {
    hide Step, Underway;
    if a.Suppress? || a.LoseSadd? {
      SaddKeepsUnderway(y, d, k, losses, a);
    } else if a.TryClaim? {
      ClaimKeepsUnderway(y, d, k, losses, a.e, a.now);
    } else {
      OthersKeepUnderway(y, d, k, losses, a);
    }
  }

  lemma ClaimKeepsUnderway(y: System, d: Event, k: nat, losses: bool, e: Event, now: int)
    requires Underway(y, d, k, losses)
    ensures Underway(Step(y, TryClaim(e, now)), d, k, losses)
  {
    hide Sadds, Counts, Contribution, Claimable;
  }

  lemma OthersKeepUnderway(y: System, d: Event, k: nat, losses: bool, a: Action)
    requires Underway(y, d, k, losses) && a != StopDeletion(k)
    requires !a.TryClaim? && !a.Suppress? && !a.LoseSadd?
    ensures Underway(Step(y, a), d, k, losses)
  {
    hide Sadds, Deletion, UserSuppressed, PostSuppressed;
  }

  lemma SaddKeepsUnderway(y: System, d: Event, k: nat, losses: bool, a: Action)
    requires Underway(y, d, k, losses) && (a.Suppress? || a.LoseSadd?) && (a == LoseSadd(k) ==> losses)
    ensures Underway(Step(y, a), d, k, losses)
  {
    hide Sadds;
    var j := a.deletion;
    if j < |y.deletions| && y.deletions[j] != [] {
      assert y.deletions[j] == [y.deletions[j][0]] + y.deletions[j][1..];
    }
  }

  lemma {:induction false} RunIsUnderway(y: System, d: Event, run: seq<Action>, losses: bool)
    requires Deletion(d) && StopDeletion(|y.deletions|) !in run && (LoseSadd(|y.deletions|) in run ==> losses)
    ensures Underway(RunFrom(Step(y, Fetch(d)), run), d, |y.deletions|, losses)
  {
    hide Deletion, Sadds;
    if run != [] {
      var n := |run| - 1;
      assert run[n] in run && forall a :: a in run[..n] ==> a in run;
      RunIsUnderway(y, d, run[..n], losses);
      StepKeepsUnderway(RunFrom(Step(y, Fetch(d)), run[..n]), d, |y.deletions|, losses, run[n]);
    }
  }

  /** However its SADDs interleave with other commands, a deletion whose job has run to its end has
      suppressed the user, and also every post it names if none of its SADDs failed. */
  lemma DeletionGetsDone(y: System, d: Event, run: seq<Action>)
    requires Deletion(d) && StopDeletion(|y.deletions|) !in run
    ensures var y' := RunFrom(Step(y, Fetch(d)), run);
            && |y.deletions| < |y'.deletions|
            && (y'.deletions[|y.deletions|] == [] ==>
                  && (forall x :: x in Sadds(d) && x.SaddUser? ==> Holds(y'.store, x))
                  && (LoseSadd(|y.deletions|) !in run ==> Done(y'.store, d)))
  {
    hide Deletion, Sadds, RunFrom, Step;
    RunIsUnderway(y, d, run, true);
    if LoseSadd(|y.deletions|) !in run {
      RunIsUnderway(y, d, run, false);
    }
  }

  // ----- who can still claim -----

  /** A delivery of `e` has got past every look-up that could still stop it. */
  predicate MayPass(y: System, e: Event) {
    e in y.passed || (e in y.looking && !PostSuppressed(y.store, e))
  }

  /** The claims a run adds. */
  function NewClaims(y: System, run: seq<Action>): seq<Event> {
    var claimed := RunFrom(y, run).claimed;
    if |y.claimed| <= |claimed| then claimed[|y.claimed|..] else []
  }

  lemma StepAddsClaims(y: System, a: Action)
    ensures var y' := Step(y, a);
            y'.claimed == y.claimed || (a.TryClaim? && a.e in y.passed && y'.claimed == y.claimed + [a.e])
  {
    hide Counts, Deletion, Contribution, Sadds, UserSuppressed, PostSuppressed, Claimable;
    match a
    case Fetch(_) =>
    case LookUpPost(_) =>
    case TryClaim(_, _) =>
    case Abandon(_) =>
    case _ =>
  }

  /** Suppressed, and nothing of it on its way: that stays so, and nothing of it is claimed. */
  ghost predicate Shut(y: System, e: Event) {
    Suppressed(y.store, e) && !MayPass(y, e)
  }

  lemma StepKeepsShut(y: System, e: Event, a: Action)
    requires Shut(y, e)
    ensures Shut(Step(y, a), e)
  {
    hide Shut, Step;
    if a.Fetch? || a.LookUpPost? || a.Abandon? {
      LookUpKeepsShut(y, e, a);
    } else if a.TryClaim? {
      ClaimKeepsShut(y, e, a.e, a.now);
    } else {
      WriteKeepsShut(y, e, a);
    }
  }

  lemma LookUpKeepsShut(y: System, e: Event, a: Action)
    requires Shut(y, e) && (a.Fetch? || a.LookUpPost? || a.Abandon?)
    ensures Shut(Step(y, a), e)
  {
    hide Deletion, Sadds;
    match a
    case Fetch(_) =>
    case LookUpPost(_) =>
    case _ =>
  }

  lemma ClaimKeepsShut(y: System, e: Event, d: Event, now: int)
    requires Shut(y, e)
    ensures Shut(Step(y, TryClaim(d, now)), e)
  {
    hide Contribution, Counts, Claimable;
  }

  lemma WriteKeepsShut(y: System, e: Event, a: Action)
    requires Shut(y, e) && IsWrite(a)
    ensures Shut(Step(y, a), e)
  {
  }

  lemma {:induction false} ShutStays(y: System, e: Event, run: seq<Action>)
    requires Shut(y, e)
    ensures Shut(RunFrom(y, run), e) && y.claimed <= RunFrom(y, run).claimed && e !in NewClaims(y, run)
  {
    hide Step, Shut;
    if run != [] {
      var n := |run| - 1;
      ShutStays(y, e, run[..n]);
      var y1 := RunFrom(y, run[..n]);
      StepKeepsShut(y1, e, run[n]);
      StepAddsClaims(y1, run[n]);
      assert e !in y1.passed by { ShutHasNotPassed(y1, e); }
    }
  }

  lemma ShutHasNotPassed(y: System, e: Event)
    requires Shut(y, e)
    ensures e !in y.passed
  {
  }

  /** The rest of a delivery that has passed: perhaps one look-up, the script, the writes. */
  function Finish(y: System, e: Event, now: int): seq<Action> {
    (if e in y.passed then [] else [LookUpPost(e)])
    + ([TryClaim(e, now)] + Proceeds(|y.jobs|, |Contribution(e)|))
  }

  /** What may pass can, once its receipt allows, be claimed and counted, suppressed or not. */
  lemma PassedIsCounted(y: System, e: Event, now: int)
    requires MayPass(y, e) && Counts(e) && Claimable(y.store, e.id, now)
    ensures var y' := RunFrom(y, Finish(y, e, now));
            && y'.claimed == y.claimed + [e]
            && forall c :: Count(y'.store.buckets, c) == Count(y.store.buckets, c) + SumFor(Contribution(e), c)
  {
    hide Counts, Contribution, RunFrom, Step, Claimable, WriteAll, SumFor;
    var writes := Proceeds(|y.jobs|, |Contribution(e)|);
    var claim := [TryClaim(e, now)] + writes;
    var y1 := y;
    if e in y.passed {
      assert Finish(y, e, now) == claim;
    } else {
      y1 := LastLookUp(y, e);
      RunFromFirst(y, LookUpPost(e), claim);
    }
    RunFromFirst(y1, TryClaim(e, now), writes);
    ClaimStep(y1, e, now);
    var y2 := Claimed(Tried(y1, e, now), e, now);
    ProceedsWrite(y2, |y.jobs|);
    forall c
      ensures Count(RunFrom(y, Finish(y, e, now)).store.buckets, c)
           == Count(y.store.buckets, c) + SumFor(Contribution(e), c)
    {
      WritesAddUp(Claim(y.store, e.id, now), Contribution(e), c);
      assert Claim(y.store, e.id, now).buckets == y.store.buckets;
    }
  }

  lemma LastLookUp(y: System, e: Event) returns (y': System)
    requires e in y.looking && !PostSuppressed(y.store, e)
    ensures y' == Step(y, LookUpPost(e)) && e in y'.passed
    ensures y' == y.(looking := y'.looking, passed := y'.passed)
  {
    hide PostSuppressed;
    y' := Step(y, LookUpPost(e));
  }

  /** Once an event is suppressed, some continuation claims it if and only if a delivery of it had already
      passed its look-ups; every later delivery is stopped. */
  lemma SuppressionEndsClaimsIff(y: System, e: Event)
    requires Suppressed(y.store, e) && Counts(e)
    ensures (exists run :: e in NewClaims(y, run)) <==> MayPass(y, e)
  {
    hide Suppressed, Counts, MayPass, NewClaims, Claimable, Contribution;
    if MayPass(y, e) {
      var now := if e.id in y.store.receipts then y.store.receipts[e.id] else 0;
      assert Claimable(y.store, e.id, now) by { Expired(y.store, e.id, now); }
      PassedIsCounted(y, e, now);
      LastClaimIsNew(y, Finish(y, e, now), e);
    } else {
      forall run ensures e !in NewClaims(y, run) {
        ShutStays(y, e, run);
      }
    }
  }

  lemma Expired(s: Store, id: Id, now: int)
    requires id in s.receipts ==> s.receipts[id] <= now
    ensures Claimable(s, id, now)
  {
  }

  lemma LastClaimIsNew(y: System, run: seq<Action>, e: Event)
    requires RunFrom(y, run).claimed == y.claimed + [e]
    ensures e in NewClaims(y, run)
  {
    hide RunFrom;
    assert (y.claimed + [e])[|y.claimed|..] == [e];
  }

  lemma DeletionStep(y: System, d: Event) returns (y': System)
    requires Deletion(d)
    ensures y' == Step(y, Fetch(d)) && y' == y.(deletions := y.deletions + [Sadds(d)])
  {
    hide Deletion, Sadds;
    y' := Step(y, Fetch(d));
  }

  lemma {:induction false} OnlyLedger(s: Store, xs: seq<Sadd>)
    ensures AddAll(s, xs) == s.(users := AddAll(s, xs).users, posts := AddAll(s, xs).posts)
    decreases xs
  {
    if xs != [] {
      OnlyLedger(Add(s, xs[0]), xs[1..]);
    }
  }

  // ----- who can still be counted -----

  /** Job `j` still has writes of event `e` to make. */
  predicate Owes(y: System, j: nat, e: Event) {
    Owing(y, j) && y.jobs[j].e == e
  }

  /** The event was claimed, and not all of its writes have been made. */
  ghost predicate Unfinished(y: System, e: Event) {
    exists j :: Owes(y, j, e)
  }

  /** Step `k` of the run makes a write of the event. */
  predicate WritesAt(y: System, run: seq<Action>, k: nat, e: Event) {
    k < |run| && run[k].Proceed? && Owes(RunFrom(y, run[..k]), run[k].job, e)
  }

  ghost predicate WritesIn(y: System, run: seq<Action>, e: Event) {
    exists k :: WritesAt(y, run, k, e)
  }

  lemma StepAddsJobs(y: System, a: Action, j: nat)
    requires Owing(Step(y, a), j)
    ensures || (Owing(y, j) && Step(y, a).jobs[j].e == y.jobs[j].e)
            || (a.TryClaim? && a.e in y.passed && Step(y, a).jobs[j].e == a.e)
  {
    hide Counts, Deletion, Contribution, Sadds, UserSuppressed, PostSuppressed, Claimable;
    match a
    case Fetch(_) =>
    case LookUpPost(_) =>
    case TryClaim(_, _) =>
    case Abandon(_) =>
    case _ =>
  }

  lemma {:induction false} NothingMoreOwed(y: System, e: Event, run: seq<Action>)
    requires Shut(y, e) && !Unfinished(y, e)
    ensures Shut(RunFrom(y, run), e) && !Unfinished(RunFrom(y, run), e)
  {
    hide Step, Shut, Owing;
    ShutStays(y, e, run);
    if run != [] {
      var n := |run| - 1;
      var y1 := RunFrom(y, run[..n]);
      NothingMoreOwed(y, e, run[..n]);
      assert e !in y1.passed by { ShutHasNotPassed(y1, e); }
      forall j | Owes(Step(y1, run[n]), j, e) ensures Owes(y1, j, e) {
        StepAddsJobs(y1, run[n], j);
      }
    }
  }

  /** What an unfinished job still owes is counted by the rest of its writes, suppressed or not. */
  lemma UnfinishedIsCounted(y: System, j: nat)
    requires j < |y.jobs|
    ensures var writes := y.jobs[j].writes;
            forall c :: Count(RunFrom(y, Proceeds(j, |writes|)).store.buckets, c)
                        == Count(y.store.buckets, c) + SumFor(writes, c)
  {
    hide RunFrom, WriteAll, SumFor;
    ProceedsWrite(y, j);
    forall c
      ensures Count(RunFrom(y, Proceeds(j, |y.jobs[j].writes|)).store.buckets, c)
           == Count(y.store.buckets, c) + SumFor(y.jobs[j].writes, c)
    {
      WritesAddUp(y.store, y.jobs[j].writes, c);
    }
  }

  lemma ClaimThenWrite(y: System, e: Event, now: int) returns (run: seq<Action>)
    requires e in y.passed && Counts(e) && Claimable(y.store, e.id, now)
    ensures WritesIn(y, run, e)
  {
    hide Claimable, RunFrom, Step;
    run := [TryClaim(e, now)] + [Proceed(|y.jobs|)];
    ClaimStep(y, e, now);
    assert Contribution(e) != [];
    RunFromFirst(y, TryClaim(e, now), []);
    RunOfNone(Step(y, TryClaim(e, now)));
    assert run[..1] == [TryClaim(e, now)] + [];
    assert WritesAt(y, run, 1, e);
  }

  lemma LookUpThenWrite(y: System, e: Event, now: int) returns (run: seq<Action>)
    requires e in y.looking && !PostSuppressed(y.store, e) && Counts(e) && Claimable(y.store, e.id, now)
    ensures WritesIn(y, run, e)
  {
    hide Claimable, RunFrom, Step, Counts, PostSuppressed, Owes;
    var y1 := LastLookUp(y, e);
    var later := ClaimThenWrite(y1, e, now);
    run := [LookUpPost(e)] + later;
    var k: nat :| WritesAt(y1, later, k, e);
    assert run[..k + 1] == [LookUpPost(e)] + later[..k];
    RunFromFirst(y, LookUpPost(e), later[..k]);
    assert WritesAt(y, run, k + 1, e);
  }

  /** Once an event is suppressed, some continuation still writes a part of it if and only if a delivery of
      it had passed its look-ups, or it had been claimed and its writes were not finished. */
  lemma SuppressionIsFinalIff(y: System, e: Event)
    requires Suppressed(y.store, e) && Counts(e)
    ensures (exists run :: WritesIn(y, run, e)) <==> MayPass(y, e) || Unfinished(y, e)
  {
    hide Suppressed, Counts, Claimable, Owing, Step, PostSuppressed;
    if Unfinished(y, e) {
      var j :| Owes(y, j, e);
      assert WritesAt(y, [Proceed(j)], 0, e) by { assert [Proceed(j)][..0] == []; }
      assert WritesIn(y, [Proceed(j)], e);
    } else if MayPass(y, e) {
      var now := if e.id in y.store.receipts then y.store.receipts[e.id] else 0;
      assert Claimable(y.store, e.id, now) by { Expired(y.store, e.id, now); }
      var run;
      if e in y.passed {
        run := ClaimThenWrite(y, e, now);
      } else {
        run := LookUpThenWrite(y, e, now);
      }
      assert WritesIn(y, run, e);
    } else {
      forall run ensures !WritesIn(y, run, e) {
        forall k | 0 <= k < |run| ensures !WritesAt(y, run, k, e) {
          NothingMoreOwed(y, e, run[..k]);
        }
      }
    }
  }

  /** So it is for everything that a deletion names, once it is done. */
  lemma DeletionIsFinalIff(y: System, d: Event, e: Event)
    requires Done(y.store, d) && Names(d, e) && Counts(e)
    ensures (exists run :: WritesIn(y, run, e)) <==> MayPass(y, e) || Unfinished(y, e)
  {
    hide Names, Done, Counts, MayPass, Unfinished, WritesIn, Suppressed;
    DoneSuppresses(y.store, d, e);
    SuppressionIsFinalIff(y, e);
  }

  // ----- two runs that count an event of a deleted user -----

  /** A race that counts an event of a deleted user: both look-ups, then the whole deletion on another
      replica, then claim and writes. For every event that counts and every deletion naming it. */
  lemma DeletionRace(d: Event, e: Event, now: int) returns (before: seq<Action>, after: seq<Action>)
    requires Deletion(d) && Names(d, e) && Counts(e)
    ensures Done(Run(before).store, d)
    ensures RunFrom(Run(before), after).claimed == [e]
    ensures forall c :: Count(RunFrom(Run(before), after).store.buckets, c) == SumFor(Contribution(e), c)
  {
    hide Deletion, Names, Counts, Contribution, Sadds, Step, RunFrom, SumFor;
    var deletion := [Fetch(d)] + Suppresses(0, |Sadds(d)|);
    before := [Fetch(e)] + ([LookUpPost(e)] + deletion);
    RunFromFirst(START, Fetch(e), [LookUpPost(e)] + deletion);
    RunFromFirst(Step(START, Fetch(e)), LookUpPost(e), deletion);
    CountingIsNoDeletion(e);
    assert !Suppressed(START.store, e);
    var y1 := LookUpsPass(START, e);
    RunFromFirst(y1, Fetch(d), Suppresses(0, |Sadds(d)|));
    var y2 := DeletionStep(y1, d);
    SuppressesAdd(y2, 0);
    forall x | x in Sadds(d) ensures Holds(AddAll(y2.store, Sadds(d)), x) {
      AddAllHolds(y2.store, Sadds(d), x);
    }
    OnlyLedger(y2.store, Sadds(d));
    after := Finish(Run(before), e, now);
    PassedIsCounted(Run(before), e, now);
  }

  /** Claim first, then the whole deletion on another replica, then the writes: nothing of the event is on
      its way and nothing has been counted, and yet all of it will be. */
  lemma ClaimedBeforeDeletion(d: Event, e: Event) returns (before: seq<Action>, after: seq<Action>)
    requires Deletion(d) && Names(d, e) && Counts(e)
    ensures Done(Run(before).store, d) && !MayPass(Run(before), e)
    ensures forall c :: Count(Run(before).store.buckets, c) == 0
    ensures forall c :: Count(RunFrom(Run(before), after).store.buckets, c) == SumFor(Contribution(e), c)
  {
    hide Deletion, Names, Counts, Contribution, Sadds, Step, RunFrom, SumFor;
    var deletion := [Fetch(d)] + Suppresses(0, |Sadds(d)|);
    before := [Fetch(e)] + ([LookUpPost(e)] + ([TryClaim(e, 0)] + deletion));
    RunFromFirst(START, Fetch(e), [LookUpPost(e)] + ([TryClaim(e, 0)] + deletion));
    RunFromFirst(Step(START, Fetch(e)), LookUpPost(e), [TryClaim(e, 0)] + deletion);
    CountingIsNoDeletion(e);
    assert !Suppressed(START.store, e);
    var y1 := LookUpsPass(START, e);
    RunFromFirst(y1, TryClaim(e, 0), deletion);
    ClaimStep(y1, e, 0);
    var y2 := Claimed(Tried(y1, e, 0), e, 0);
    assert y1.passed - multiset{e} == multiset{};
    RunFromFirst(y2, Fetch(d), Suppresses(0, |Sadds(d)|));
    var y3 := DeletionStep(y2, d);
    SuppressesAdd(y3, 0);
    forall x | x in Sadds(d) ensures Holds(AddAll(y3.store, Sadds(d)), x) {
      AddAllHolds(y3.store, Sadds(d), x);
    }
    OnlyLedger(y3.store, Sadds(d));
    after := Proceeds(0, |Contribution(e)|);
    UnfinishedIsCounted(Run(before), 0);
  }

  lemma CountingIsNoDeletion(e: Event)
    requires Counts(e)
    ensures !Deletion(e)
  {
  }

  // ----- one replica by itself -----

  lemma {:induction false} WriteAllKeepsLedger(s: Store, writes: seq<Increment>)
    ensures WriteAll(s, writes).users == s.users && WriteAll(s, writes).posts == s.posts
    decreases writes
  {
    if writes != [] {
      WriteAllKeepsLedger(Write(s, writes[0]), writes[1..]);
    }
  }

  lemma {:induction false} LedgerOnlyGrows(s: Store, ms: seq<Message>, now: int, x: Sadd)
    requires Holds(s, x)
    ensures Holds(HandleAll(s, ms, now), x)
  {
    hide Sadds, Contribution, Deletion, Counts, UserSuppressed, PostSuppressed, Claimable;
    if ms != [] {
      var before, m := HandleAll(s, ms[..|ms| - 1], now), ms[|ms| - 1];
      LedgerOnlyGrows(s, ms[..|ms| - 1], now, x);
      if m.envelope.Some? {
        WriteAllKeepsLedger(Claim(before, m.envelope.value.id, now), Contribution(m.envelope.value));
        AddAllHolds(before, Sadds(m.envelope.value), x);
      }
    }
  }

  /** Where messages are handled one after the other nothing can have passed: no later message of the
      user and none on the posts changes the receipts or the counts. */
  lemma DeletionIsFinal(s: Store, d: Event, ms: seq<Message>, now: int, m: Message, later: int)
    requires m.envelope.Some? && !Deletion(m.envelope.value) && Names(d, m.envelope.value)
    ensures var after := HandleAll(AddAll(s, Sadds(d)), ms, now); Handle(after, m, later) == after
  {
    hide HandleAll, AddAll, Sadds, Names, Deletion, Counts;
    var after := HandleAll(AddAll(s, Sadds(d)), ms, now);
    forall x | x in Sadds(d) ensures Holds(after, x) {
      AddAllHolds(s, Sadds(d), x);
      LedgerOnlyGrows(AddAll(s, Sadds(d)), ms, now, x);
    }
    DoneSuppresses(after, d, m.envelope.value);
  }
}
