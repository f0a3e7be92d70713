/**
 The lock around the trending decay: analytics/src/trending-lock.ts and the cron callback of
 analytics/src/index.ts. Replicas share one Redis key and one clock (milliseconds). A callback that
 acquires starts two decays at once, waits for Promise.all over them, then for the settle time, and
 releases. Promise.all does not wait for the other decay when one has failed. A callback may also die
 and do none of this.
 */
module DecayLock {
  import opened Wrappers

  const SETTLE_MS := 3000
  const DEFAULT_TTL_MS := 240_000

  /** The key's value and the time at which Redis drops it. */
  datatype Held = Held(owner: nat, expiry: int)

  /** When a decay ended, and whether well. */
  datatype Ended = Ended(at: int, ok: bool)

  datatype Half = Posts | Hashtags

  /** A pass: both decays, each of them ended or still running. */
  datatype Pass = Pass(start: int, posts: Option<Ended>, hashtags: Option<Ended>)

  /** Owner tokens are random UUIDs: here the index of the acquiring callback's pass. */
  datatype System = System(key: Option<Held>, passes: seq<Pass>, clock: int)

  const START := System(None, [], 0)

  function EndOf(p: Pass, half: Half): Option<Ended> {
    match half
    case Posts => p.posts
    case Hashtags => p.hashtags
  }

  function WithEnd(p: Pass, half: Half, e: Ended): Pass {
    match half
    case Posts => p.(posts := Some(e))
    case Hashtags => p.(hashtags := Some(e))
  }

  predicate Rejected(e: Option<Ended>) {
    e.Some? && !e.value.ok
  }

  function Later(x: int, y: int): int {
    if x < y then y else x
  }

  function Earlier(x: int, y: int): int {
    if x < y then x else y
  }

  /** Promise.all: rejected with the first rejection, fulfilled when both are. */
  function Settled(p: Pass): Option<int> {
    if Rejected(p.posts) && Rejected(p.hashtags) then Some(Earlier(p.posts.value.at, p.hashtags.value.at))
    else if Rejected(p.posts) then Some(p.posts.value.at)
    else if Rejected(p.hashtags) then Some(p.hashtags.value.at)
    else Over(p)
  }

  /** Neither decay writes any more. */
  function Over(p: Pass): Option<int> {
    if p.posts.Some? && p.hashtags.Some? then Some(Later(p.posts.value.at, p.hashtags.value.at)) else None
  }

  function Present(key: Option<Held>, now: int): Option<Held> {
    if key.Some? && now < key.value.expiry then key else None
  }

  /** The two commands on the key. */
  class Redis {
    var key: Option<Held>

    constructor ()
      ensures key == None
    {
      key := None;
    }

    /** SET key token PX ttl NX */
    method AcquireDecayLock(token: nat, ttl: nat, now: int) returns (acquired: bool)
      modifies this
      ensures acquired == Present(old(key), now).None?
      ensures key == if acquired then Some(Held(token, now + ttl)) else old(key)
    {
      acquired := !(key.Some? && now < key.value.expiry);
      if acquired {
        key := Some(Held(token, now + ttl));
      }
    }

    /** RELEASE_SCRIPT: compare, then delete. */
    method ReleaseDecayLock(token: nat, now: int)
      modifies this
      ensures key == Released(old(key), token, now)
    {
      if key.Some? && now < key.value.expiry && key.value.owner == token {
        key := None;
      }
    }
  }

  function Released(key: Option<Held>, token: nat, now: int): Option<Held> {
    if Present(key, now).Some? && key.value.owner == token then None else key
  }

  datatype Action =
    | Fire(now: int)                                     // a callback of some replica tries to acquire
    | End(token: nat, half: Half, ok: bool, now: int)    // one of its decays ends, well or badly
    | Release(token: nat, now: int)                      // the settle time after Promise.all has gone by

  /** Actions out of time or out of turn do not happen. */
  predicate Enabled(y: System, a: Action) {
    && a.now >= y.clock
    && (a.End? ==> a.token < |y.passes| && EndOf(y.passes[a.token], a.half).None?)
    && (a.Release? ==> a.token < |y.passes| && Settled(y.passes[a.token]).Some?
                       && a.now >= Settled(y.passes[a.token]).value + SETTLE_MS)
  }

  function Step(y: System, a: Action, ttl: nat): System {
    if !Enabled(y, a) then y
    else
      match a
      case Fire(now) =>
        if Present(y.key, now).Some? then y.(clock := now)
        else System(Some(Held(|y.passes|, now + ttl)), y.passes + [Pass(now, None, None)], now)
      case End(token, half, ok, now) =>
        y.(passes := y.passes[token := WithEnd(y.passes[token], half, Ended(now, ok))], clock := now)
      case Release(token, now) =>
        y.(key := Released(y.key, token, now), clock := now)
  }

  function Run(actions: seq<Action>, ttl: nat): System {
    if actions == [] then START
    else Step(Run(actions[..|actions| - 1], ttl), actions[|actions| - 1], ttl)
  }

  /** Promise.all, said of the halves: a pass is over at the last end of all of them; it settles with its
      first failure if there is one, and when it is over otherwise. */
  lemma PromiseAll(p: Pass)
    ensures Over(p).Some? <==> forall h :: EndOf(p, h).Some?
    ensures Over(p).Some? ==>
              && (forall h :: EndOf(p, h).value.at <= Over(p).value)
              && (exists h :: EndOf(p, h).value.at == Over(p).value)
    ensures (exists h :: EndOf(p, h).Some? && !EndOf(p, h).value.ok) ==>
              && Settled(p).Some?
              && (exists h :: EndOf(p, h).Some? && !EndOf(p, h).value.ok && EndOf(p, h).value.at == Settled(p).value)
              && (forall h :: EndOf(p, h).Some? && !EndOf(p, h).value.ok ==> Settled(p).value <= EndOf(p, h).value.at)
    ensures (forall h :: EndOf(p, h).Some? ==> EndOf(p, h).value.ok) ==> Settled(p) == Over(p)
  {
    assert EndOf(p, Posts) == p.posts && EndOf(p, Hashtags) == p.hashtags;
  }

  /** What an action in time and in turn does: time goes on to it; a callback starts a pass exactly if the
      key is not there or has run out; an end is noted in its own half; and nothing else changes. */
  lemma StepDoes(y: System, a: Action, ttl: nat)
    requires Enabled(y, a)
    ensures var y' := Step(y, a, ttl);
            && y'.clock == a.now
            && |y'.passes| == |y.passes| + (if a.Fire? && !(y.key.Some? && a.now < y.key.value.expiry) then 1 else 0)
            && (forall i, h :: 0 <= i < |y.passes| ==>
                  && y'.passes[i].start == y.passes[i].start
                  && EndOf(y'.passes[i], h)
                     == (if a.End? && i == a.token && h == a.half then Some(Ended(a.now, a.ok))
                         else EndOf(y.passes[i], h)))
            && (|y'.passes| > |y.passes| ==>
                  && y'.passes[|y.passes|].start == a.now
                  && (forall h :: EndOf(y'.passes[|y.passes|], h).None?)
                  && y'.key == Some(Held(|y.passes|, a.now + ttl)))
            && (y'.key != y.key ==> a.Release? || |y'.passes| > |y.passes|)
  {
  }

  function Spacing(ttl: nat): nat {
    Earlier(ttl, SETTLE_MS)
  }

  /** From when on the pass can no longer keep others out: its key has run out, or it has released it. */
  function FreeFrom(p: Pass, ttl: nat): int {
    if Settled(p).None? then p.start + ttl else Earlier(p.start + ttl, Settled(p).value + SETTLE_MS)
  }

  predicate TimedEnd(e: Option<Ended>, start: int, clock: int) {
    e.Some? ==> start <= e.value.at <= clock
  }

  predicate Timed(p: Pass, clock: int) {
    p.start <= clock && TimedEnd(p.posts, p.start, clock) && TimedEnd(p.hashtags, p.start, clock)
  }

  /** The second pass starts late enough after the first. */
  predicate Apart(p: Pass, q: Pass, ttl: nat) {
    q.start >= p.start + Spacing(ttl) && q.start >= FreeFrom(p, ttl)
  }

  /** The key, if set, is the last acquirer's; if not, the last acquirer has settled. */
  predicate KeyOfLast(y: System, ttl: nat) {
    var n := |y.passes|;
    && (y.key.Some? ==> n > 0 && y.key.value == Held(n - 1, y.passes[n - 1].start + ttl))
    && (y.key.None? && n > 0 ==>
          Settled(y.passes[n - 1]).Some? && y.clock >= Settled(y.passes[n - 1]).value + SETTLE_MS)
  }

  ghost predicate Exclusive(y: System, ttl: nat) {
    && KeyOfLast(y, ttl)
    && y.clock >= 0
    && (forall i :: 0 <= i < |y.passes| ==> 0 <= y.passes[i].start && Timed(y.passes[i], y.clock))
    && (forall i, j :: 0 <= i < j < |y.passes| ==> Apart(y.passes[i], y.passes[j], ttl))
  }

  // ----- what a further end changes -----

  /** Promise.all settles once; and a pass that is settled late has let its key run out. */
  lemma EndKeepsFreeFrom(p: Pass, half: Half, e: Ended, clock: int, ttl: nat)
    requires Timed(p, clock) && EndOf(p, half).None? && e.at >= clock
    ensures Settled(p).Some? ==> Settled(WithEnd(p, half, e)) == Settled(p)
    ensures FreeFrom(WithEnd(p, half, e), ttl) <= FreeFrom(p, ttl)
  {
  }

  lemma StepKeepsExclusive(y: System, a: Action, ttl: nat)
    requires Exclusive(y, ttl)
    ensures Exclusive(Step(y, a, ttl), ttl)
  {
    if Enabled(y, a) {
      match a
      case Fire(now) => FireKeepsExclusive(y, now, ttl);
      case End(token, half, ok, now) => EndKeepsExclusive(y, a, ttl);
      case Release(token, now) => ReleaseKeepsExclusive(y, token, now, ttl);
    }
  }

  lemma EndKeepsExclusive(y: System, a: Action, ttl: nat)
    requires Exclusive(y, ttl) && Enabled(y, a) && a.End?
    ensures Exclusive(Step(y, a, ttl), ttl)
  {
    hide FreeFrom, Settled;
    var y' := Step(y, a, ttl);
    EndKeepsFreeFrom(y.passes[a.token], a.half, Ended(a.now, a.ok), y.clock, ttl);
    forall i, j | 0 <= i < j < |y'.passes| ensures Apart(y'.passes[i], y'.passes[j], ttl) {
      assert Apart(y.passes[i], y.passes[j], ttl);
    }
  }

  lemma ReleaseKeepsExclusive(y: System, token: nat, now: int, ttl: nat)
    requires Exclusive(y, ttl) && Enabled(y, Release(token, now))
    ensures Exclusive(Step(y, Release(token, now), ttl), ttl)
  {
    hide FreeFrom, Settled;
    var y' := Step(y, Release(token, now), ttl);
    assert forall i :: 0 <= i < |y'.passes| ==> Timed(y.passes[i], y.clock);
  }

  lemma FireKeepsExclusive(y: System, now: int, ttl: nat)
    requires Exclusive(y, ttl) && now >= y.clock
    ensures Exclusive(Step(y, Fire(now), ttl), ttl)
  {
    hide Settled;
    var y' := Step(y, Fire(now), ttl);
    var n := |y.passes|;
    if Present(y.key, now).None? {
      forall i | 0 <= i < n ensures Apart(y.passes[i], Pass(now, None, None), ttl) {
        LastIsFree(y, now, ttl);
        assert i < n - 1 ==> Apart(y.passes[i], y.passes[n - 1], ttl) && Timed(y.passes[n - 1], y.clock);
      }
    }
  }

  lemma LastIsFree(y: System, now: int, ttl: nat)
    requires Exclusive(y, ttl) && now >= y.clock && y.passes != [] && Present(y.key, now).None?
    ensures Apart(y.passes[|y.passes| - 1], Pass(now, None, None), ttl)
  {
    assert Timed(y.passes[|y.passes| - 1], y.clock);
  }

  lemma {:induction false} RunsAreExclusive(actions: seq<Action>, ttl: nat)
    ensures Exclusive(Run(actions, ttl), ttl)
  {
    hide Step, Exclusive;
    if actions == [] {
      NothingYet(ttl);
    } else {
      RunsAreExclusive(actions[..|actions| - 1], ttl);
      StepKeepsExclusive(Run(actions[..|actions| - 1], ttl), actions[|actions| - 1], ttl);
    }
  }

  lemma NothingYet(ttl: nat)
    ensures Exclusive(START, ttl)
  {
  }

  /** A release, however late, changes the key only for the last acquirer: a pass that was overtaken
      leaves the newer holder's lock alone, in every run. The last acquirer's own release frees it. */
  lemma ReleaseSparesOthers(actions: seq<Action>, token: nat, now: int, ttl: nat)
    ensures var y, y' := Run(actions, ttl), Run(actions + [Release(token, now)], ttl);
            && (token != |y.passes| - 1 ==> y'.key == y.key)
            && (token == |y.passes| - 1 && Enabled(y, Release(token, now)) ==> Present(y'.key, now).None?)
  {
    hide Run;
    RunsAreExclusive(actions, ttl);
    RunOneMore(actions, Release(token, now), ttl);
  }

  lemma RunOneMore(actions: seq<Action>, a: Action, ttl: nat)
    ensures Run(actions + [a], ttl) == Step(Run(actions, ttl), a, ttl)
  {
    assert (actions + [a])[..|actions|] == actions;
  }

  // ----- when can the next pass start before this one is over? -----

  /** In every run: a pass that is over by the time its key is free, whether run out or released, is over
      before any later pass starts. */
  lemma PassesDoNotOverlap(actions: seq<Action>, ttl: nat, i: nat, j: nat)
    requires i < j < |Run(actions, ttl).passes|
    requires var p := Run(actions, ttl).passes[i]; Over(p).Some? && Over(p).value <= FreeFrom(p, ttl)
    ensures Over(Run(actions, ttl).passes[i]).value <= Run(actions, ttl).passes[j].start
  {
    RunsAreExclusive(actions, ttl);
    assert Apart(Run(actions, ttl).passes[i], Run(actions, ttl).passes[j], ttl);
  }

  /** If passes `i` and `j` overlap, then the first had used up its whole TTL when the second began, or
      one of its decays had failed and the other ran on past the settle time. */
  lemma OverlapNeedsOverrun(actions: seq<Action>, ttl: nat, i: nat, j: nat)
    requires i < j < |Run(actions, ttl).passes|
    requires var p := Run(actions, ttl).passes[i]; Over(p).None? || Over(p).value > Run(actions, ttl).passes[j].start
    ensures var p, q := Run(actions, ttl).passes[i], Run(actions, ttl).passes[j];
            || q.start >= p.start + ttl
            || ((Rejected(p.posts) || Rejected(p.hashtags)) && q.start >= Settled(p).value + SETTLE_MS)
  {
    RunsAreExclusive(actions, ttl);
    assert Apart(Run(actions, ttl).passes[i], Run(actions, ttl).passes[j], ttl);
  }

  /** In some run a pass ends its decays just so, and a later one starts before it is over. */
  ghost predicate Overlaps(p: Pass, ttl: nat) {
    exists actions, i, j :: OverlapsIn(actions, ttl, p, i, j)
  }

  predicate OverlapsIn(actions: seq<Action>, ttl: nat, p: Pass, i: int, j: int) {
    var passes := Run(actions, ttl).passes;
    0 <= i < j < |passes| && passes[i] == p && Over(p).Some? && passes[j].start < Over(p).value
  }

  /** The half that ends first, or the other one. */
  function FirstHalf(p: Pass): Half
    requires Over(p).Some?
  {
    if p.posts.value.at <= p.hashtags.value.at then Posts else Hashtags
  }

  function Other(half: Half): Half {
    match half
    case Posts => Hashtags
    case Hashtags => Posts
  }

  function EndAction(p: Pass, half: Half): Action
    requires EndOf(p, half).Some?
  {
    End(0, half, EndOf(p, half).value.ok, EndOf(p, half).value.at)
  }

  /** A run in which another callback fires the moment the key is free. */
  function Race(p: Pass, ttl: nat): seq<Action>
    requires Over(p).Some?
  {
    var free := FreeFrom(p, ttl);
    var first, last := EndAction(p, FirstHalf(p)), EndAction(p, Other(FirstHalf(p)));
    if first.now <= free then [Fire(p.start)] + [first] + [Release(0, free)] + [Fire(free)] + [last]
    else [Fire(p.start)] + [Fire(free)] + [first] + [last]
  }

  lemma FirstFires(start: int, ttl: nat)
    requires start >= 0
    ensures Run([Fire(start)], ttl) == System(Some(Held(0, start + ttl)), [Pass(start, None, None)], start)
  {
    assert [Fire(start)][..0] == [];
  }

  /** The first decay ends and, at the latest now, the key is free: released, or run out. */
  lemma FreedThenFires(p: Pass, ttl: nat) returns (y: System)
    requires Over(p).Some? && 0 <= p.start && Timed(p, Over(p).value) && Over(p).value > FreeFrom(p, ttl)
    requires EndAction(p, FirstHalf(p)).now <= FreeFrom(p, ttl)
    ensures var free := FreeFrom(p, ttl);
            var first := EndAction(p, FirstHalf(p));
            && y == Run([Fire(p.start)] + [first] + [Release(0, free)] + [Fire(free)], ttl)
            && y.passes == [WithEnd(Pass(p.start, None, None), first.half, Ended(first.now, first.ok)),
                            Pass(free, None, None)]
            && y.clock == free
  {
    hide Run;
    var free, first := FreeFrom(p, ttl), EndAction(p, FirstHalf(p));
    FirstFires(p.start, ttl);
    RunOneMore([Fire(p.start)], first, ttl);
    RunOneMore([Fire(p.start)] + [first], Release(0, free), ttl);
    RunOneMore([Fire(p.start)] + [first] + [Release(0, free)], Fire(free), ttl);
    y := Run([Fire(p.start)] + [first] + [Release(0, free)] + [Fire(free)], ttl);
    var p1 := WithEnd(Pass(p.start, None, None), first.half, Ended(first.now, first.ok));
    var y2 := Run([Fire(p.start)] + [first], ttl);
    assert y2 == System(Some(Held(0, p.start + ttl)), [p1], first.now);
    var y3 := Run([Fire(p.start)] + [first] + [Release(0, free)], ttl);
    assert y3.passes == [p1] && y3.clock <= free && Present(y3.key, free).None?;
  }

  /** Both decays run when the key runs out. */
  lemma RunOutThenFires(p: Pass, ttl: nat)
    requires Over(p).Some? && 0 <= p.start && Timed(p, Over(p).value)
    requires EndAction(p, FirstHalf(p)).now > FreeFrom(p, ttl)
    ensures Run(Race(p, ttl), ttl).passes == [p, Pass(FreeFrom(p, ttl), None, None)]
  {
    hide Run;
    var free := FreeFrom(p, ttl);
    var first, last := EndAction(p, FirstHalf(p)), EndAction(p, Other(FirstHalf(p)));
    assert free == p.start + ttl;
    FirstFires(p.start, ttl);
    RunOneMore([Fire(p.start)], Fire(free), ttl);
    RunOneMore([Fire(p.start)] + [Fire(free)], first, ttl);
    RunOneMore([Fire(p.start)] + [Fire(free)] + [first], last, ttl);
    var y2 := Run([Fire(p.start)] + [Fire(free)], ttl);
    assert y2.passes == [Pass(p.start, None, None), Pass(free, None, None)] && y2.clock == free;
  }

  lemma RaceOverlaps(p: Pass, ttl: nat)
    requires Over(p).Some? && 0 <= p.start && Timed(p, Over(p).value) && Over(p).value > FreeFrom(p, ttl)
    ensures Run(Race(p, ttl), ttl).passes == [p, Pass(FreeFrom(p, ttl), None, None)]
  {
    hide Run, FreeFrom, Settled;
    var first, last := EndAction(p, FirstHalf(p)), EndAction(p, Other(FirstHalf(p)));
    if first.now <= FreeFrom(p, ttl) {
      var y := FreedThenFires(p, ttl);
      var free := FreeFrom(p, ttl);
      RunOneMore([Fire(p.start)] + [first] + [Release(0, free)] + [Fire(free)], last, ttl);
    } else {
      RunOutThenFires(p, ttl);
    }
  }

  /** For any way a pass may go: some run lets a later pass start before it is over if and only if it is
      over later than its key is free. */
  lemma OverlapsIff(p: Pass, ttl: nat)
    requires Over(p).Some? && 0 <= p.start && Timed(p, Over(p).value)
    ensures Overlaps(p, ttl) <==> Over(p).value > FreeFrom(p, ttl)
  {
    hide Run, Race, FreeFrom, Over, Timed;
    if Over(p).value > FreeFrom(p, ttl) {
      RaceOverlaps(p, ttl);
      assert OverlapsIn(Race(p, ttl), ttl, p, 0, 1);
    }
    forall actions, i, j | OverlapsIn(actions, ttl, p, i, j) ensures Over(p).value > FreeFrom(p, ttl) {
      if Over(p).value <= FreeFrom(p, ttl) {
        PassesDoNotOverlap(actions, ttl, i, j);
      }
    }
  }

  /** A pass that is over within the TTL is over before any later one starts, in every run, if and only if
      it is over within the settle time of Promise.all. */
  lemma OverInTimeIff(p: Pass, ttl: nat)
    requires Over(p).Some? && 0 <= p.start && Timed(p, Over(p).value) && Over(p).value <= p.start + ttl
    ensures !Overlaps(p, ttl) <==> Over(p).value <= Settled(p).value + SETTLE_MS
  {
    hide Overlaps;
    OverlapsIff(p, ttl);
  }

  /** If both decays end well Promise.all waits for both, and the TTL alone decides. */
  lemma WellEndedIff(p: Pass, ttl: nat)
    requires Over(p).Some? && p.posts.value.ok && p.hashtags.value.ok
    requires 0 <= p.start && Timed(p, Over(p).value)
    ensures !Overlaps(p, ttl) <==> Over(p).value <= p.start + ttl
  {
    hide Overlaps;
    OverlapsIff(p, ttl);
  }

  /** At the default TTL: the posts' decay fails after a millisecond, that of the hashtags takes 200
      seconds, and the next pass starts after three. */
  lemma FailedHalfOverlaps()
    ensures var p := Pass(0, Some(Ended(1, false)), Some(Ended(200_000, true)));
            && Over(p).value <= p.start + DEFAULT_TTL_MS
            && Run([Fire(0), End(0, Posts, false, 1), Release(0, 3001), Fire(3001), End(0, Hashtags, true, 200_000)],
                   DEFAULT_TTL_MS).passes == [p, Pass(3001, None, None)]
  {
    hide Run;
    var p := Pass(0, Some(Ended(1, false)), Some(Ended(200_000, true)));
    RaceOverlaps(p, DEFAULT_TTL_MS);
    assert Race(p, DEFAULT_TTL_MS)
        == [Fire(0), End(0, Posts, false, 1), Release(0, 3001), Fire(3001), End(0, Hashtags, true, 200_000)];
  }

  /** An overrun does overlap: at the TTL the key is gone and the next callback starts its own pass. */
  lemma OverrunOverlaps(ttl: nat)
    ensures var y := Run([Fire(0), Fire(ttl)], ttl);
            y.passes == [Pass(0, None, None), Pass(ttl, None, None)]
  {
    var actions := [Fire(0), Fire(ttl)];
    assert actions[..1] == [Fire(0)] && [Fire(0)][..0] == [];
    assert Run([Fire(0)], ttl) == System(Some(Held(0, ttl)), [Pass(0, None, None)], 0);
  }

  /** One pass per tick: callbacks that fire within the settle time of an acquisition start no other
      pass, provided the TTL is not shorter than the settle time. */
  lemma OnePassPerTick(actions: seq<Action>, ttl: nat, i: nat, j: nat)
    requires ttl >= SETTLE_MS && i < |Run(actions, ttl).passes| && j < |Run(actions, ttl).passes|
    requires var p, q := Run(actions, ttl).passes[i], Run(actions, ttl).passes[j];
             p.start <= q.start < p.start + SETTLE_MS
    ensures i == j
  {
    hide Run, FreeFrom;
    RunsAreExclusive(actions, ttl);
  }

  /** A dead holder blocks nobody for longer than the TTL. */
  lemma SelfHeals(actions: seq<Action>, ttl: nat, now: int)
    requires now >= Run(actions, ttl).clock
    requires var ps := Run(actions, ttl).passes; ps != [] ==> now >= ps[|ps| - 1].start + ttl
    ensures |Run(actions + [Fire(now)], ttl).passes| == |Run(actions, ttl).passes| + 1
  {
    RunsAreExclusive(actions, ttl);
    assert (actions + [Fire(now)])[..|actions|] == actions;
  }
}
