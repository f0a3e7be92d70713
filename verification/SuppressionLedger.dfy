/**
 Whom the suppression sets name, said from the fields of the deletions that were fetched:
 analytics/src/processor.ts.
 */
module SuppressionLedger {
  import opened Wrappers
  import opened TrendingProcessor
  import opened TrendingReplicas
  import opened Suppression

  predicate IsDeletion(d: Event) {
    d.eventType in {"user.deletion_requested", "user.deletion_completed"}
  }

  ghost predicate SomeNamesUser(run: seq<Action>, user: string) {
    exists d :: Fetch(d) in run && IsDeletion(d) && NamesUser(d, user)
  }

  ghost predicate SomeNamesPost(run: seq<Action>, post: string) {
    exists d :: Fetch(d) in run && IsDeletion(d) && NamesPost(d, post)
  }

  ghost predicate Called(run: seq<Action>, x: Sadd) {
    match x
    case SaddUser(id) => SomeNamesUser(run, id)
    case SaddPost(id) => SomeNamesPost(run, id)
  }

  /** Nothing is in the sets or on its way there but what some deletion names. */
  ghost predicate Vouched(y: System, run: seq<Action>) {
    && (forall x :: Holds(y.store, x) ==> Called(run, x))
    && (forall k, x :: 0 <= k < |y.deletions| && x in y.deletions[k] ==> Called(run, x))
  }

  lemma CalledLater(run: seq<Action>, a: Action, x: Sadd)
    requires Called(run, x)
    ensures Called(run + [a], x)
  {
    hide NamesUser, NamesPost, IsDeletion;
    assert forall b :: b in run ==> b in run + [a];
  }

  lemma SaddsAreCalled(run: seq<Action>, d: Event, x: Sadd)
    requires Deletion(d) && x in Sadds(d)
    ensures Called(run + [Fetch(d)], x)
  {
    hide Sadds, NamesUser, NamesPost;
    SaddsIff(d, x);
    assert Fetch(d) in run + [Fetch(d)] && IsDeletion(d);
  }

  lemma FetchKeepsVouched(y: System, run: seq<Action>, d: Event)
    requires Vouched(y, run)
    ensures Vouched(Step(y, Fetch(d)), run + [Fetch(d)])
  {
    hide Called, Sadds, Deletion, UserSuppressed;
    var y' := Step(y, Fetch(d));
    forall x | Called(run, x) ensures Called(run + [Fetch(d)], x) {
      CalledLater(run, Fetch(d), x);
    }
    if Deletion(d) {
      forall x | x in Sadds(d) ensures Called(run + [Fetch(d)], x) {
        SaddsAreCalled(run, d, x);
      }
    }
  }

  lemma OthersKeepVouched(y: System, run: seq<Action>, a: Action)
    requires Vouched(y, run) && !a.Fetch?
    ensures Vouched(Step(y, a), run + [a])
  {
    hide Called, Sadds, Deletion, Counts, Contribution, Claimable, PostSuppressed;
    forall x | Called(run, x) ensures Called(run + [a], x) {
      CalledLater(run, a, x);
    }
    SetsOnlyGrow(y, a);
  }

  /** What a command other than a fetch does to the sets and to the SADDs outstanding. */
  lemma SetsOnlyGrow(y: System, a: Action)
    requires !a.Fetch?
    ensures var y' := Step(y, a);
            && |y'.deletions| == |y.deletions|
            && (forall k, x :: 0 <= k < |y.deletions| && x in y'.deletions[k] ==> x in y.deletions[k])
            && (forall x :: Holds(y'.store, x) ==>
                  Holds(y.store, x) || exists k :: 0 <= k < |y.deletions| && x in y.deletions[k])
  {
    hide Counts, Contribution, Claimable, PostSuppressed;
    match a
    case Suppress(j) =>
      if j < |y.deletions| && y.deletions[j] != [] {
        assert y.deletions[j][0] in y.deletions[j];
      }
    case _ =>
  }

  lemma {:induction false} RunIsVouched(run: seq<Action>)
    ensures Vouched(Run(run), run)
  {
    hide Step, Vouched;
    if run == [] {
      NothingVouched();
    } else {
      var n := |run| - 1;
      RunIsVouched(run[..n]);
      assert run == run[..n] + [run[n]];
      if run[n].Fetch? {
        FetchKeepsVouched(Run(run[..n]), run[..n], run[n].e);
      } else {
        OthersKeepVouched(Run(run[..n]), run[..n], run[n]);
      }
    }
  }

  lemma NothingVouched()
    ensures Vouched(START, [])
  {
  }

  /** In every run: an event is suppressed only if its user or its post is named by a deletion that some
      replica has fetched. */
  lemma SuppressedIsNamed(run: seq<Action>, e: Event)
    requires Suppressed(Run(run).store, e)
    ensures exists d :: Fetch(d) in run && IsDeletion(d) && Names(d, e)
  {
    hide Run, NamesUser, NamesPost, IsDeletion;
    RunIsVouched(run);
    var s := Run(run).store;
    if UserSuppressed(s, e) {
      assert Holds(s, SaddUser(e.actorId.value));
      var d :| Fetch(d) in run && IsDeletion(d) && NamesUser(d, e.actorId.value);
      assert Names(d, e);
    } else {
      assert Holds(s, SaddPost(e.postId.value));
      var d :| Fetch(d) in run && IsDeletion(d) && NamesPost(d, e.postId.value);
      assert Names(d, e);
    }
  }

  /** And once a deletion fetched in state `y` has made its last SADD, nobody having died over it and none
      having failed, its user and its posts are in the sets. */
  lemma NamedIsSuppressed(y: System, d: Event, run: seq<Action>)
    requires IsDeletion(d)
    requires StopDeletion(|y.deletions|) !in run && LoseSadd(|y.deletions|) !in run
    ensures var y' := RunFrom(Step(y, Fetch(d)), run);
            && |y.deletions| < |y'.deletions|
            && (y'.deletions[|y.deletions|] == [] ==>
                  && (forall user :: NamesUser(d, user) ==> user in y'.store.users)
                  && (forall post :: NamesPost(d, post) ==> post in y'.store.posts)
                  && (forall e :: Names(d, e) ==> Suppressed(y'.store, e)))
  {
    hide RunFrom, Step, Sadds, NamesUser, NamesPost, Names, Suppressed;
    DeletionGetsDone(y, d, run);
    var y' := RunFrom(Step(y, Fetch(d)), run);
    if y'.deletions[|y.deletions|] == [] {
      forall user | NamesUser(d, user) ensures user in y'.store.users {
        SaddsIff(d, SaddUser(user));
        assert Holds(y'.store, SaddUser(user));
      }
      forall post | NamesPost(d, post) ensures post in y'.store.posts {
        SaddsIff(d, SaddPost(post));
        assert Holds(y'.store, SaddPost(post));
      }
      forall e | Names(d, e) ensures Suppressed(y'.store, e) {
        DoneSuppresses(y'.store, d, e);
      }
    }
  }
}
