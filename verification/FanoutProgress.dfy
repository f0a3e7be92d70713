/** What the workers of a feed fan-out do about batches that are not written at once, and that they finish. */
module FanoutProgress {
  import opened Wrappers
  import opened FeedFanout

  /** The action is a send, or a failing request, for batch `i`. */
  predicate SendsBatch(p: Pool, a: Action, i: nat) {
    (a.Send? || a.Error?) && a.w < |p.workers| && p.workers[a.w].Sending? && p.workers[a.w].index == i
  }

  /** How many requests for batch `i` have been answered. */
  function Answers(p: Pool, actions: seq<Action>, i: nat): nat {
    if actions == [] then 0
    else
      var before, last := actions[..|actions| - 1], actions[|actions| - 1];
      Answers(p, before, i) + if last.Send? && SendsBatch(Run(p, before), last, i) then 1 else 0
  }

  /** Some request for batch `i` has failed. */
  predicate Failing(p: Pool, actions: seq<Action>, i: nat) {
    actions != []
    && (var before, last := actions[..|actions| - 1], actions[|actions| - 1];
        Failing(p, before, i) || (last.Error? && SendsBatch(Run(p, before), last, i)))
  }

  /** Workers know how often they have sent. */
  ghost predicate Tallied(p: Pool, q: Pool, actions: seq<Action>) {
    && (forall w :: 0 <= w < |q.workers| && q.workers[w].Sending? ==>
          q.workers[w].attempt == Answers(p, actions, q.workers[w].index) + 1)
    && (forall w :: 0 <= w < |q.workers| && q.workers[w].Threw? ==>
          Failing(p, actions, q.workers[w].index) || Answers(p, actions, q.workers[w].index) == 5)
    && (forall i: nat :: i >= |q.claims| ==> Answers(p, actions, i) == 0)
  }

  lemma OneMoreAnswer(p: Pool, actions: seq<Action>, a: Action, i: nat)
    ensures Answers(p, actions + [a], i)
         == Answers(p, actions, i) + if a.Send? && SendsBatch(Run(p, actions), a, i) then 1 else 0
    ensures Failing(p, actions + [a], i)
       <==> Failing(p, actions, i) || (a.Error? && SendsBatch(Run(p, actions), a, i))
  {
    assert (actions + [a])[..|actions|] == actions;
  }

  lemma StepKeepsTallied(p: Pool, q: Pool, actions: seq<Action>, a: Action)
    requires q == Run(p, actions) && Sound(q) && Tallied(p, q, actions)
    ensures Tallied(p, Step(q, a), actions + [a])
  {
    hide Run, Sound, Answers, Failing;
    forall i: nat
      ensures Answers(p, actions + [a], i)
           == Answers(p, actions, i) + if a.Send? && SendsBatch(q, a, i) then 1 else 0
      ensures Failing(p, actions + [a], i) <==> Failing(p, actions, i) || (a.Error? && SendsBatch(q, a, i))
    {
      OneMoreAnswer(p, actions, a, i);
    }
    SoundOwners(q);
    match a
    case Take(w) =>
    case Send(w, written) =>
      if w < |q.workers| && q.workers[w].Sending? {
        SendTallied(p, q, actions, a);
      }
    case Error(w, written) =>
    case _ =>
  }

  lemma SoundOwners(q: Pool)
    requires Sound(q)
    ensures |q.claims| == (if q.next < |q.batches| then q.next else |q.batches|)
    ensures forall w, i :: Owns(q, w, i) ==> i < |q.claims|
    ensures forall v, w, i :: Owns(q, v, i) && Owns(q, w, i) ==> v == w
    ensures forall w :: 0 <= w < |q.workers| && q.workers[w].Sending? ==> 1 <= q.workers[w].attempt <= MAX_SENDS
  {
    hide Accounted;
  }

  lemma SendTallied(p: Pool, q: Pool, actions: seq<Action>, a: Action)
    requires a.Send? && a.w < |q.workers| && q.workers[a.w].Sending?
    requires Tallied(p, q, actions)
    requires forall i: nat :: Answers(p, actions + [a], i)
                              == Answers(p, actions, i) + if SendsBatch(q, a, i) then 1 else 0
    requires forall i: nat :: Failing(p, actions + [a], i) <==> Failing(p, actions, i)
    requires forall w, i :: Owns(q, w, i) ==> i < |q.claims|
    requires forall v, w, i :: Owns(q, v, i) && Owns(q, w, i) ==> v == w
    requires q.workers[a.w].attempt <= MAX_SENDS
    ensures Tallied(p, Step(q, a), actions + [a])
  {
    hide Answers, Failing, Unwritten;
    var q' := Step(q, a);
    var index := q.workers[a.w].index;
    assert Owns(q, a.w, index);
    forall w | 0 <= w < |q'.workers| && q'.workers[w].Sending?
      ensures q'.workers[w].attempt == Answers(p, actions + [a], q'.workers[w].index) + 1
    {
      assert w != a.w ==> Owns(q, w, q.workers[w].index);
    }
    forall w | 0 <= w < |q'.workers| && q'.workers[w].Threw?
      ensures Failing(p, actions + [a], q'.workers[w].index)
              || Answers(p, actions + [a], q'.workers[w].index) == 5
    {
      assert w != a.w ==> Owns(q, w, q.workers[w].index);
    }
  }

  /** In every run a worker sends what is left of its batch again until nothing is left; it throws only when
      a request fails or the fifth answer still leaves something. */
  lemma {:induction false} RunsRetry(batches: seq<seq<string>>, table: set<string>, actions: seq<Action>)
    ensures Tallied(Start(batches, table), Run(Start(batches, table), actions), actions)
    ensures |Run(Start(batches, table), actions).workers|
         == if |batches| < 10 then |batches| else 10
  {
    hide Step, Tallied, Sound;
    var p := Start(batches, table);
    if actions == [] {
      StartTallied(batches, table);
    } else {
      var n := |actions| - 1;
      RunsRetry(batches, table, actions[..n]);
      StartIsSound(batches, table);
      RunsAreSound(p, actions[..n]);
      StepKeepsTallied(p, Run(p, actions[..n]), actions[..n], actions[n]);
      StepKeepsWorkers(Run(p, actions[..n]), actions[n]);
      assert actions == actions[..n] + [actions[n]];
    }
  }

  lemma StepKeepsWorkers(p: Pool, a: Action)
    ensures |Step(p, a).workers| == |p.workers|
  {
  }

  lemma StartTallied(batches: seq<seq<string>>, table: set<string>)
    ensures Tallied(Start(batches, table), Start(batches, table), [])
  {
  }

  // ----- a fan-out that is given up -----

  lemma OneMore(p: Pool, actions: seq<Action>, a: Action)
    ensures Run(p, actions + [a]) == Step(Run(p, actions), a)
  {
    assert (actions + [a])[..|actions|] == actions;
  }

  /** What is decided stays so: a failed fan-out, a worker that threw, a deleted message. */
  lemma StepKeepsDecided(p: Pool, a: Action)
    requires Sound(p)
    ensures p.outcome == Failed ==> Step(p, a).outcome == Failed
    ensures forall w :: 0 <= w < |p.workers| && p.workers[w].Threw? ==>
              w < |Step(p, a).workers| && Step(p, a).workers[w].Threw?
  {
    hide Accounted, Unwritten;
  }

  lemma {:induction false} DecidedStays(batches: seq<seq<string>>, table: set<string>, run: seq<Action>,
                                        later: seq<Action>, w: nat)
    ensures var p, q := Run(Start(batches, table), run), Run(Start(batches, table), run + later);
            && Sound(q)
            && (p.outcome == Failed ==> q.outcome == Failed)
            && (w < |p.workers| && p.workers[w].Threw? ==> w < |q.workers| && q.workers[w].Threw?)
  {
    hide Step, Sound, Run;
    var start := Start(batches, table);
    StartIsSound(batches, table);
    RunsAreSound(start, run + later);
    if later == [] {
      assert run + later == run;
    } else {
      var n := |later| - 1;
      DecidedStays(batches, table, run, later[..n], w);
      OneMore(start, run + later[..n], later[n]);
      assert run + later == run + later[..n] + [later[n]];
      StepKeepsDecided(Run(start, run + later[..n]), later[n]);
    }
  }

  /** A message whose fan-out is not over when the deadline comes is never deleted by it, whatever its
      workers still write. */
  lemma TooLateIsKept(batches: seq<seq<string>>, table: set<string>, run: seq<Action>, later: seq<Action>)
    requires Run(Start(batches, table), run).outcome == Running
    ensures !Run(Start(batches, table), run + [Deadline] + later).deleted
  {
    hide Run;
    OneMore(Start(batches, table), run, Deadline);
    DecidedStays(batches, table, run + [Deadline], later, 0);
  }

  /** Nor is one of whose workers one has thrown: as soon as they are looked at the fan-out has failed. */
  lemma ThrownIsKept(batches: seq<seq<string>>, table: set<string>, run: seq<Action>, later: seq<Action>, w: nat)
    requires var p := Run(Start(batches, table), run); w < |p.workers| && p.workers[w].Threw?
    ensures Run(Start(batches, table), run + [Await]).outcome == Failed
    ensures !Run(Start(batches, table), run + later).deleted
  {
    hide Run, Accounted;
    OneMore(Start(batches, table), run, Await);
    DecidedStays(batches, table, run, later, w);
    DecidedStays(batches, table, run, [], w);
    assert run + [] == run;
  }

  // ----- a calm fan-out finishes -----

  /** Nobody is sending, and the batches before `i` have been handed out. */
  predicate Waiting(p: Pool, batches: seq<seq<string>>, i: nat) {
    && p.batches == batches && p.next == i && p.outcome == Running
    && forall w :: 0 <= w < |p.workers| ==> p.workers[w] == Idle
  }

  lemma {:induction false} AllTaken(keys: seq<string>, written: set<string>)
    requires KeySet(keys) <= written
    ensures Unwritten(keys, written) == []
  {
    if keys != [] {
      assert keys[0] in KeySet(keys);
      AllTaken(keys[1..], written);
    }
  }

  lemma TakeAndSend(p: Pool, batches: seq<seq<string>>, i: nat)
    requires i < |batches| && Waiting(p, batches, i) && p.workers != []
    ensures var q := Step(Step(p, Take(0)), Send(0, KeySet(batches[i])));
            Waiting(q, batches, i + 1) && |q.workers| == |p.workers|
  {
    hide Unwritten, KeySet;
    AllTaken(batches[i], KeySet(batches[i]));
  }

  lemma {:induction false} SendFirst(batches: seq<seq<string>>, table: set<string>, i: nat) returns (run: seq<Action>)
    requires i <= |batches|
    ensures Waiting(Run(Start(batches, table), run), batches, i)
    ensures |Run(Start(batches, table), run).workers| == |Start(batches, table).workers|
  {
    hide Step, Waiting;
    var p := Start(batches, table);
    if i == 0 {
      run := [];
      StartWaits(batches, table);
    } else {
      var before := SendFirst(batches, table, i - 1);
      var take, send := Take(0), Send(0, KeySet(batches[i - 1]));
      OneMore(p, before, take);
      OneMore(p, before + [take], send);
      TakeAndSend(Run(p, before), batches, i - 1);
      run := before + [take] + [send];
    }
  }

  lemma StartWaits(batches: seq<seq<string>>, table: set<string>)
    ensures Waiting(Start(batches, table), batches, 0)
  {
  }

  /** The first `k` workers have found no batch left. */
  predicate Leaving(p: Pool, k: nat) {
    && p.next >= |p.batches| && p.outcome == Running
    && forall w :: 0 <= w < |p.workers| ==> p.workers[w] == if w < k then Returned else Idle
  }

  lemma {:induction false} ReturnFirst(batches: seq<seq<string>>, table: set<string>, k: nat) returns (run: seq<Action>)
    requires k <= |Start(batches, table).workers|
    ensures Leaving(Run(Start(batches, table), run), k)
    ensures |Run(Start(batches, table), run).workers| == |Start(batches, table).workers|
  {
    if k == 0 {
      run := SendFirst(batches, table, |batches|);
    } else {
      var before := ReturnFirst(batches, table, k - 1);
      OneMore(Start(batches, table), before, Take(k - 1));
      run := before + [Take(k - 1)];
    }
  }

  /** Whatever the batches, a fan-out in which every request writes all it is given ends with the message
      deleted. */
  lemma CalmFanoutDeletes(batches: seq<seq<string>>, table: set<string>) returns (run: seq<Action>)
    ensures Run(Start(batches, table), run).deleted
  {
    hide Run;
    var p := Start(batches, table);
    var before := ReturnFirst(batches, table, |p.workers|);
    OneMore(p, before, Await);
    OneMore(p, before + [Await], Delete);
    run := before + [Await] + [Delete];
  }
}
