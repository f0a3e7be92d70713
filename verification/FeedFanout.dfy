/**
 Fan-out of a new post to its author's followers: feed-worker/src/dynamo.ts and event-handler.ts.
 Ten workers share one index over the batches; each sends its batch until nothing is unprocessed. The
 queue message is deleted only after all of them have returned in time.
 */
module FeedFanout {
  import opened Wrappers

  const BATCH_SIZE := 25
  const FANOUT_CONCURRENCY := 10
  const MAX_SENDS := 5
  const FOLLOWER_PREFIX := "FOLLOWER#"
  const USER_PREFIX := "USER#"

  // ----- listFollowers -----

  /** The sort keys of one page; an item may lack one. */
  type Page = seq<Option<string>>

  function Follower(sk: string): string {
    if |sk| < |FOLLOWER_PREFIX| then [] else sk[|FOLLOWER_PREFIX|..]
  }

  function FollowersOf(page: Page): seq<string> {
    if page == [] then []
    else
      (if page[0].Some? && page[0].value != [] then [Follower(page[0].value)] else []) + FollowersOf(page[1..])
  }

  function AllFollowers(pages: seq<Page>): seq<string> {
    if pages == [] then [] else FollowersOf(pages[0]) + AllFollowers(pages[1..])
  }

  lemma {:induction false} FollowersAppend(a: Page, b: Page)
    ensures FollowersOf(a + b) == FollowersOf(a) + FollowersOf(b)
  {
    if a == [] {
      assert a + b == b;
    } else {
      assert (a + b)[1..] == a[1..] + b;
      FollowersAppend(a[1..], b);
    }
  }

  lemma {:induction false} PagesAppend(a: seq<Page>, b: seq<Page>)
    ensures AllFollowers(a + b) == AllFollowers(a) + AllFollowers(b)
  {
    if a == [] {
      assert a + b == b;
    } else {
      assert (a + b)[1..] == a[1..] + b;
      PagesAppend(a[1..], b);
    }
  }

  /** One more item on the last page adds its follower behind all others; an item without a sort key adds
      nothing; a further page goes on where the one before ended. */
  lemma OneMoreItem(pages: seq<Page>, page: Page, id: string)
    ensures AllFollowers([]) == [] && AllFollowers(pages + [[]]) == AllFollowers(pages)
    ensures AllFollowers(pages + [page + [Some(FOLLOWER_PREFIX + id)]]) == AllFollowers(pages + [page]) + [id]
    ensures AllFollowers(pages + [page + [None]]) == AllFollowers(pages + [page])
  {
    PagesAppend(pages, [[]]);
    PagesAppend(pages, [page]);
    PagesAppend(pages, [page + [Some(FOLLOWER_PREFIX + id)]]);
    PagesAppend(pages, [page + [None]]);
    FollowersAppend(page, [Some(FOLLOWER_PREFIX + id)]);
    FollowersAppend(page, [None]);
    FollowerOfKey(id);
    assert FollowersOf([Some(FOLLOWER_PREFIX + id)]) == [id] && FollowersOf([None]) == [];
    AllOfOne([]);
    AllOfOne(page);
    AllOfOne(page + [Some(FOLLOWER_PREFIX + id)]);
    AllOfOne(page + [None]);
  }

  lemma AllOfOne(page: Page)
    ensures AllFollowers([page]) == FollowersOf(page)
  {
    assert [page][1..] == [];
  }

  /** `pages[i]` answers the query that starts at the i-th LastEvaluatedKey; the last page has none. */
  method ListFollowers(pages: seq<Page>) returns (ids: seq<string>)
    requires pages != []
    ensures ids == AllFollowers(pages)
  {
    hide AllFollowers, FollowersOf, Follower;
    ids := [];
    Nobody();
    var i := 0;
    var more := true;
    while more
      invariant i <= |pages| && more == (i < |pages|) && ids == AllFollowers(pages[..i])
      decreases |pages| - i
    {
      var page := pages[i];
      ghost var before := ids;
      var j := 0;
      while j < |page|
        invariant j <= |page| && ids == before + FollowersOf(page[..j])
      {
        FollowersAppend(page[..j], [page[j]]);
        FollowerOfItem(page[j]);
        assert page[..j + 1] == page[..j] + [page[j]];
        if page[j].Some? && page[j].value != [] {
          ids := ids + [Follower(page[j].value)];
        }
        j := j + 1;
      }
      PagesAppend(pages[..i], [page]);
      AllOfOne(page);
      assert page[..j] == page && pages[..i + 1] == pages[..i] + [page];
      i := i + 1;
      more := i < |pages|;
    }
    assert pages[..i] == pages;
  }

  lemma Nobody()
    ensures AllFollowers([]) == [] && FollowersOf([]) == []
  {
  }

  lemma FollowerOfItem(item: Option<string>)
    ensures FollowersOf([item]) == if item.Some? && item.value != [] then [Follower(item.value)] else []
  {
  }

  lemma FollowerOfKey(id: string)
    ensures Follower(FOLLOWER_PREFIX + id) == id
  {
  }

  /** Item `j` of page `i` is the follow of `id`. */
  predicate Lists(pages: seq<Page>, i: int, j: int, id: string) {
    0 <= i < |pages| && 0 <= j < |pages[i]| && pages[i][j] == Some(FOLLOWER_PREFIX + id)
  }

  /** The query asks for sort keys with the prefix. */
  predicate Keyed(pages: seq<Page>) {
    forall i, j :: 0 <= i < |pages| && 0 <= j < |pages[i]| && pages[i][j].Some? ==>
      FOLLOWER_PREFIX <= pages[i][j].value
  }

  lemma {:induction false} PageHas(page: Page, j: nat, id: string)
    requires j < |page| && page[j] == Some(FOLLOWER_PREFIX + id)
    ensures id in FollowersOf(page)
  {
    FollowerOfKey(id);
    if j > 0 {
      PageHas(page[1..], j - 1, id);
    }
  }

  lemma {:induction false} PagesHave(pages: seq<Page>, i: nat, j: nat, id: string)
    requires Lists(pages, i, j, id)
    ensures id in AllFollowers(pages)
  {
    if i == 0 {
      PageHas(pages[0], j, id);
    } else {
      PagesHave(pages[1..], i - 1, j, id);
    }
  }

  lemma {:induction false} PageIndex(page: Page, id: string) returns (j: nat)
    requires id in FollowersOf(page)
    requires forall k :: 0 <= k < |page| && page[k].Some? ==> FOLLOWER_PREFIX <= page[k].value
    ensures j < |page| && page[j] == Some(FOLLOWER_PREFIX + id)
  {
    if page[0].Some? && page[0].value != [] && Follower(page[0].value) == id {
      j := 0;
      assert page[0].value == FOLLOWER_PREFIX + id;
    } else {
      assert forall k :: 0 <= k < |page[1..]| ==> page[1..][k] == page[k + 1];
      j := PageIndex(page[1..], id);
      j := j + 1;
    }
  }

  lemma {:induction false} PagesIndex(pages: seq<Page>, id: string) returns (i: nat, j: nat)
    requires id in AllFollowers(pages) && Keyed(pages)
    ensures Lists(pages, i, j, id)
  {
    if id in FollowersOf(pages[0]) {
      i := 0;
      j := PageIndex(pages[0], id);
    } else {
      assert Keyed(pages[1..]) by {
        assert forall k :: 0 <= k < |pages[1..]| ==> pages[1..][k] == pages[k + 1];
      }
      i, j := PagesIndex(pages[1..], id);
      i := i + 1;
    }
  }

  /** An id is listed if and only if some item of some page is its follow. */
  lemma ListedIff(pages: seq<Page>, id: string)
    requires Keyed(pages)
    ensures id in AllFollowers(pages) <==> exists i, j :: Lists(pages, i, j, id)
  {
    hide AllFollowers, Keyed;
    if id in AllFollowers(pages) {
      var i, j := PagesIndex(pages, id);
    }
    if i, j :| Lists(pages, i, j, id) {
      PagesHave(pages, i, j, id);
    }
  }

  // ----- recipients and batches -----

  /** `[...new Set(xs)]`: first occurrences, in order. */
  function Dedup(xs: seq<string>): seq<string> {
    if xs == [] then []
    else
      var before := Dedup(xs[..|xs| - 1]);
      if xs[|xs| - 1] in before then before else before + [xs[|xs| - 1]]
  }

  lemma {:induction false} DedupKeeps(xs: seq<string>)
    ensures NoRepeats(Dedup(xs))
    ensures forall x :: x in Dedup(xs) <==> x in xs
  {
    if xs != [] {
      DedupKeeps(xs[..|xs| - 1]);
      assert xs == xs[..|xs| - 1] + [xs[|xs| - 1]];
    }
  }

  function Recipients(pages: seq<Page>, author: string): seq<string> {
    Dedup(AllFollowers(pages) + [author])
  }

  /** Partition keys of the feed items; the sort key is the same for all of them. */
  function FeedKeys(recipients: seq<string>): (keys: seq<string>)
    ensures |keys| == |recipients|
    ensures forall i :: 0 <= i < |keys| ==> keys[i] == USER_PREFIX + recipients[i]
  {
    if recipients == [] then [] else [USER_PREFIX + recipients[0]] + FeedKeys(recipients[1..])
  }

  lemma FeedKeysDistinct(recipients: seq<string>)
    requires NoRepeats(recipients)
    ensures NoRepeats(FeedKeys(recipients))
  {
    forall i, j | 0 <= i < j < |recipients| ensures FeedKeys(recipients)[i] != FeedKeys(recipients)[j] {
      assert (USER_PREFIX + recipients[i])[|USER_PREFIX|..] == recipients[i];
      assert (USER_PREFIX + recipients[j])[|USER_PREFIX|..] == recipients[j];
    }
  }

  function Join(batches: seq<seq<string>>): seq<string> {
    if batches == [] then [] else batches[0] + Join(batches[1..])
  }

  lemma {:induction false} JoinAppend(batches: seq<seq<string>>, b: seq<string>)
    ensures Join(batches + [b]) == Join(batches) + b
  {
    if batches == [] {
      assert batches + [b] == [b];
    } else {
      assert (batches + [b])[1..] == batches[1..] + [b];
      JoinAppend(batches[1..], b);
    }
  }

  method Batch(keys: seq<string>) returns (batches: seq<seq<string>>)
    ensures Join(batches) == keys
    ensures forall i :: 0 <= i < |batches| ==> 1 <= |batches[i]| <= 25
    ensures forall i :: 0 <= i < |batches| - 1 ==> |batches[i]| == 25
  {
    batches := [];
    var i := 0;
    while i < |keys|
      invariant 0 <= i && (i < |keys| ==> i == BATCH_SIZE * |batches|)
      invariant i >= |keys| ==> Join(batches) == keys
      invariant i < |keys| ==> Join(batches) == keys[..i]
      invariant forall k :: 0 <= k < |batches| ==> 1 <= |batches[k]| <= BATCH_SIZE
      invariant forall k :: 0 <= k < |batches| - 1 ==> |batches[k]| == BATCH_SIZE
      invariant i < |keys| && batches != [] ==> |batches[|batches| - 1]| == BATCH_SIZE
    {
      var end := if i + BATCH_SIZE < |keys| then i + BATCH_SIZE else |keys|;
      JoinAppend(batches, keys[i..end]);
      assert keys[..i] + keys[i..end] == keys[..end];
      assert keys[..|keys|] == keys;
      batches := batches + [keys[i..end]];
      i := i + BATCH_SIZE;
    }
  }

  /** A batch of a repetition-free list has no two writes to one key. */
  lemma {:induction false} BatchHasNoRepeats(batches: seq<seq<string>>, i: nat)
    requires NoRepeats(Join(batches)) && i < |batches|
    ensures NoRepeats(batches[i])
    ensures forall k :: k in batches[i] ==> k in Join(batches)
  {
    var head, tail := batches[0], Join(batches[1..]);
    if i == 0 {
      forall a, b | 0 <= a < b < |head| ensures head[a] != head[b] {
        assert (head + tail)[a] == head[a] && (head + tail)[b] == head[b];
      }
    } else {
      forall a, b | 0 <= a < b < |tail| ensures tail[a] != tail[b] {
        assert (head + tail)[|head| + a] == tail[a] && (head + tail)[|head| + b] == tail[b];
      }
      BatchHasNoRepeats(batches[1..], i - 1);
    }
  }

  lemma {:induction false} InSomeBatch(batches: seq<seq<string>>, key: string)
    requires key in Join(batches)
    ensures exists i :: 0 <= i < |batches| && key in batches[i]
  {
    if key in batches[0] {
    } else {
      InSomeBatch(batches[1..], key);
      var i :| 0 <= i < |batches[1..]| && key in batches[1..][i];
      assert key in batches[i + 1];
    }
  }

  // ----- the worker pool -----

  datatype Worker =
    | Idle
    | Sending(index: nat, attempt: nat, remaining: seq<string>)
    | Returned
    | Threw(index: nat)

  datatype Outcome = Running | Completed | Failed

  /** `claims` and `landed` are history: the batches handed out, and of each the keys that answers have
      confirmed. */
  datatype Pool = Pool(
    batches: seq<seq<string>>, next: nat, workers: seq<Worker>, claims: seq<nat>, landed: map<nat, set<string>>,
    table: set<string>, outcome: Outcome, deleted: bool)

  /** `written` is what the table took of this request; the rest comes back as UnprocessedItems. */
  datatype Action =
    | Take(w: nat)
    | Send(w: nat, written: set<string>)
    | Error(w: nat, written: set<string>)     // the request itself fails, after some effect
    | Await                                   // Promise.all looks at its workers
    | Deadline                                // withDeadline gives up
    | Delete                                  // what follows a successful await

  function Start(batches: seq<seq<string>>, table: set<string>): Pool {
    var n := if |batches| < FANOUT_CONCURRENCY then |batches| else FANOUT_CONCURRENCY;
    Pool(batches, 0, seq(n, i => Idle), [], map[], table, Running, false)
  }

  function Unwritten(keys: seq<string>, written: set<string>): seq<string> {
    if keys == [] then []
    else (if keys[0] in written then [] else [keys[0]]) + Unwritten(keys[1..], written)
  }

  function KeySet(keys: seq<string>): set<string> {
    set k | k in keys
  }

  function AfterSend(w: Worker, written: set<string>): Worker
    requires w.Sending?
  {
    var left := Unwritten(w.remaining, written);
    if left == [] then Idle
    else if w.attempt >= MAX_SENDS then Threw(w.index)
    else Sending(w.index, w.attempt + 1, left)
  }

  /** The keys of batch `i` that answers have confirmed. */
  function Landed(p: Pool, i: nat): set<string> {
    if i in p.landed then p.landed[i] else {}
  }

  function Step(p: Pool, a: Action): Pool {
    match a
    case Take(w) =>
      if w < |p.workers| && p.workers[w].Idle? then
        if p.next < |p.batches|
        then p.(next := p.next + 1, claims := p.claims + [p.next],
                workers := p.workers[w := Sending(p.next, 1, p.batches[p.next])])
        else p.(next := p.next + 1, workers := p.workers[w := Returned])
      else p
    case Send(w, written) =>
      if w < |p.workers| && p.workers[w].Sending?
      then
        var i, taken := p.workers[w].index, written * KeySet(p.workers[w].remaining);
        p.(table := p.table + taken, landed := p.landed[i := Landed(p, i) + taken],
           workers := p.workers[w := AfterSend(p.workers[w], written)])
      else p
    case Error(w, written) =>
      if w < |p.workers| && p.workers[w].Sending?
      then p.(table := p.table + (written * KeySet(p.workers[w].remaining)),
              workers := p.workers[w := Threw(p.workers[w].index)])
      else p
    case Await =>
      if p.outcome != Running then p
      else if exists w :: 0 <= w < |p.workers| && p.workers[w].Threw? then p.(outcome := Failed)
      else if forall w :: 0 <= w < |p.workers| ==> p.workers[w].Returned? then p.(outcome := Completed)
      else p
    case Deadline => if p.outcome == Running then p.(outcome := Failed) else p
    case Delete => if p.outcome == Completed then p.(deleted := true) else p
  }

  function Run(p: Pool, actions: seq<Action>): Pool {
    if actions == [] then p else Step(Run(p, actions[..|actions| - 1]), actions[|actions| - 1])
  }

  /** The shared variables of `fanout` and the turns of its workers. */
  class Fanout {
    const batches: seq<seq<string>>
    var nextIndex: nat
    var workers: seq<Worker>
    ghost var claims: seq<nat>
    ghost var landed: map<nat, set<string>>
    var table: set<string>
    var outcome: Outcome
    var deleted: bool

    constructor (batches: seq<seq<string>>, table: set<string>)
      ensures View() == Start(batches, table)
    {
      this.batches := batches;
      var n := if |batches| < FANOUT_CONCURRENCY then |batches| else FANOUT_CONCURRENCY;
      nextIndex, workers, claims, landed := 0, seq(n, i => Idle), [], map[];
      this.table, outcome, deleted := table, Running, false;
    }

    ghost function View(): Pool
      reads this
    {
      Pool(batches, nextIndex, workers, claims, landed, table, outcome, deleted)
    }

    /** The shared index moves on by one; the worker takes the batch it was at, or returns if there is none. */
    method TakeNext(w: nat)
      requires w < |workers| && workers[w].Idle?
      modifies this
      ensures View() == Step(old(View()), Take(w))
    {
      var index := nextIndex;
      nextIndex := nextIndex + 1;
      if index >= |batches| {
        workers := workers[w := Returned];
        return;
      }
      claims := claims + [index];
      workers := workers[w := Sending(index, 1, batches[index])];
    }

    /** One call of `writeBatchWithRetry`, up to the recursive one. */
    method WriteBatch(w: nat, written: set<string>)
      requires w < |workers| && workers[w].Sending?
      modifies this
      ensures View() == Step(old(View()), Send(w, written))
    {
      var sending := workers[w];
      landed := landed[sending.index := Landed(View(), sending.index) + written * KeySet(sending.remaining)];
      table := table + (written * KeySet(sending.remaining));
      var unprocessed := Unwritten(sending.remaining, written);
      if |unprocessed| > 0 {
        if sending.attempt >= MAX_SENDS {
          workers := workers[w := Threw(sending.index)];
        } else {
          workers := workers[w := Sending(sending.index, sending.attempt + 1, unprocessed)];
        }
      } else {
        workers := workers[w := Idle];
      }
    }

    method DeleteMessage()
      modifies this
      ensures View() == Step(old(View()), Delete)
    {
      if outcome == Completed {
        deleted := true;
      }
    }
  }

  // ----- every interleaving -----

  /** Worker `w` is at batch `i`, or threw there. */
  predicate Owns(p: Pool, w: int, i: int) {
    0 <= w < |p.workers| && (p.workers[w].Sending? || p.workers[w].Threw?) && p.workers[w].index == i
  }

  /** Worker `w` is sending exactly the keys of batch `i` that no answer has confirmed. */
  predicate SendsRest(p: Pool, w: int, i: int)
    requires 0 <= i < |p.batches|
  {
    Owns(p, w, i) && p.workers[w].Sending? && KeySet(p.workers[w].remaining) == KeySet(p.batches[i]) - Landed(p, i)
  }

  /** Batch `i` is confirmed, or its own worker sends exactly the rest of it, or its own worker threw. */
  ghost predicate Accounted(p: Pool, i: nat)
    requires i < |p.batches|
  {
    || KeySet(p.batches[i]) <= Landed(p, i)
    || (exists w :: SendsRest(p, w, i))
    || (exists w :: Owns(p, w, i) && p.workers[w].Threw?)
  }

  predicate AllReturned(p: Pool) {
    forall w :: 0 <= w < |p.workers| ==> p.workers[w].Returned?
  }

  ghost predicate Sound(p: Pool) {
    && |p.claims| == (if p.next < |p.batches| then p.next else |p.batches|)
    && (forall k :: 0 <= k < |p.claims| ==> p.claims[k] == k)
    && (forall w :: 0 <= w < |p.workers| && p.workers[w].Returned? ==> p.next > |p.batches|)
    && (forall w, i :: Owns(p, w, i) ==> i < |p.claims|)
    && (forall w :: 0 <= w < |p.workers| && p.workers[w].Sending? ==> 1 <= p.workers[w].attempt <= MAX_SENDS)
    && (forall v, w, i :: Owns(p, v, i) && Owns(p, w, i) ==> v == w)
    && (forall i :: 0 <= i < |p.claims| ==> Accounted(p, i))
    && (forall i :: i in p.landed ==> i < |p.claims| && p.landed[i] <= p.table)
    && (p.batches != [] ==> p.workers != [])
    && (p.outcome == Completed ==> AllReturned(p))
    && (p.deleted ==> p.outcome == Completed)
  }

  lemma StartIsSound(batches: seq<seq<string>>, table: set<string>)
    ensures Sound(Start(batches, table))
  {
  }

  lemma {:induction false} UnwrittenKeys(keys: seq<string>, written: set<string>)
    ensures KeySet(Unwritten(keys, written)) == KeySet(keys) - written
    ensures Unwritten(keys, written) == [] ==> KeySet(keys) <= written
  {
    if keys != [] {
      UnwrittenKeys(keys[1..], written);
      assert keys == [keys[0]] + keys[1..];
      var left := Unwritten(keys[1..], written);
      assert KeySet(keys) == {keys[0]} + KeySet(keys[1..]);
      assert KeySet([keys[0]] + left) == {keys[0]} + KeySet(left);
      assert [] + left == left;
    }
  }

  /** A batch that worker `w` does not own keeps its account when only `w` moves. */
  lemma StaysAccounted(p: Pool, p': Pool, w: nat, worker: Worker, i: nat)
    requires i < |p.batches| && Accounted(p, i) && w < |p.workers|
    requires p'.batches == p.batches && p'.workers == p.workers[w := worker] && Landed(p', i) == Landed(p, i)
    requires !Owns(p, w, i)
    ensures Accounted(p', i)
  {
    if v :| SendsRest(p, v, i) {
      assert SendsRest(p', v, i);
    } else if v :| Owns(p, v, i) && p.workers[v].Threw? {
      assert Owns(p', v, i);
    }
  }

  lemma TakeKeepsSound(p: Pool, w: nat)
    requires Sound(p)
    ensures Sound(Step(p, Take(w)))
  {
    hide Accounted;
    var p' := Step(p, Take(w));
    if w < |p.workers| && p.workers[w].Idle? {
      forall i | 0 <= i < |p'.claims| ensures Accounted(p', i) {
        if i < |p.claims| {
          StaysAccounted(p, p', w, p'.workers[w], i);
        } else {
          NewIsAccounted(p', w, i);
        }
      }
      OneOwner(p, p', w);
      forall u, i | Owns(p', u, i) ensures i < |p'.claims| {
        assert u != w ==> Owns(p, u, i);
      }
    }
  }

  lemma NewIsAccounted(p: Pool, w: nat, i: nat)
    requires i < |p.batches| && w < |p.workers| && p.workers[w] == Sending(i, 1, p.batches[i]) && i !in p.landed
    ensures Accounted(p, i)
  {
    assert SendsRest(p, w, i);
  }

  /** Ownership of the other workers does not change when only `w` moves, to its own batch or a new one. */
  lemma OneOwner(p: Pool, p': Pool, w: nat)
    requires w < |p.workers| && |p'.workers| == |p.workers| && p'.workers == p.workers[w := p'.workers[w]]
    requires forall u, v, i :: Owns(p, u, i) && Owns(p, v, i) ==> u == v
    requires forall i :: Owns(p', w, i) ==> Owns(p, w, i) || forall v :: !Owns(p, v, i)
    ensures forall u, v, i :: Owns(p', u, i) && Owns(p', v, i) ==> u == v
  {
    forall u, v, i | Owns(p', u, i) && Owns(p', v, i) ensures u == v {
      assert u != w ==> Owns(p, u, i);
      assert v != w ==> Owns(p, v, i);
    }
  }

  lemma SendKeepsSound(p: Pool, w: nat, written: set<string>)
    requires Sound(p) && w < |p.workers| && p.workers[w].Sending?
    ensures Sound(Step(p, Send(w, written)))
  {
    hide Accounted;
    var p' := Step(p, Send(w, written));
    assert Owns(p, w, p.workers[w].index);
    forall i | 0 <= i < |p'.claims| ensures Accounted(p', i) {
      if Owns(p, w, i) {
        SentIsAccounted(p, w, written);
      } else {
        StaysAccounted(p, p', w, p'.workers[w], i);
      }
    }
    OneOwner(p, p', w);
    forall u, i | Owns(p', u, i) ensures i < |p'.claims| {
      assert Owns(p, u, i);
    }
  }

  lemma SentIsAccounted(p: Pool, w: nat, written: set<string>)
    requires w < |p.workers| && p.workers[w].Sending? && p.workers[w].index < |p.batches|
    requires Accounted(p, p.workers[w].index)
    requires forall v :: Owns(p, v, p.workers[w].index) ==> v == w
    ensures Accounted(Step(p, Send(w, written)), p.workers[w].index)
  {
    var i := p.workers[w].index;
    var p' := Step(p, Send(w, written));
    UnwrittenKeys(p.workers[w].remaining, written);
    if KeySet(p.batches[i]) <= Landed(p, i) {
      assert KeySet(p.batches[i]) <= Landed(p', i);
    } else {
      assert SendsRest(p, w, i);
      if p'.workers[w].Sending? {
        assert SendsRest(p', w, i);
      } else if p'.workers[w].Threw? {
        assert Owns(p', w, i);
      } else {
        assert KeySet(p.batches[i]) <= Landed(p', i);
      }
    }
  }

  lemma ErrorKeepsSound(p: Pool, w: nat, written: set<string>)
    requires Sound(p) && w < |p.workers| && p.workers[w].Sending?
    ensures Sound(Step(p, Error(w, written)))
  {
    hide Accounted;
    var p' := Step(p, Error(w, written));
    assert Owns(p, w, p.workers[w].index);
    forall i | 0 <= i < |p'.claims| ensures Accounted(p', i) {
      if Owns(p, w, i) {
        ThrownIsAccounted(p', w, i);
      } else {
        StaysAccounted(p, p', w, p'.workers[w], i);
      }
    }
    OneOwner(p, p', w);
    forall u, i | Owns(p', u, i) ensures i < |p'.claims| {
      assert Owns(p, u, i);
    }
  }

  lemma ThrownIsAccounted(p: Pool, w: nat, i: nat)
    requires i < |p.batches| && w < |p.workers| && p.workers[w] == Threw(i)
    ensures Accounted(p, i)
  {
    assert Owns(p, w, i);
  }

  /** If all workers have returned, every batch is in the table. */
  lemma AllWritten(p: Pool)
    requires Sound(p) && AllReturned(p)
    ensures forall i :: 0 <= i < |p.batches| ==> KeySet(p.batches[i]) <= p.table
  {
    if p.batches != [] {
      assert p.workers[0].Returned?;
    }
    forall i | 0 <= i < |p.batches| ensures KeySet(p.batches[i]) <= p.table {
      assert Accounted(p, i);
      assert Landed(p, i) <= p.table;
    }
  }

  lemma {:induction false} StepKeepsSound(p: Pool, a: Action)
    requires Sound(p)
    ensures Sound(Step(p, a))
  {
    hide Sound, Step;
    match a
    case Take(w) => TakeKeepsSound(p, w);
    case Send(w, written) =>
      if w < |p.workers| && p.workers[w].Sending? {
        SendKeepsSound(p, w, written);
      } else {
        NothingToSend(p, a);
      }
    case Error(w, written) =>
      if w < |p.workers| && p.workers[w].Sending? {
        ErrorKeepsSound(p, w, written);
      } else {
        NothingToSend(p, a);
      }
    case _ => OutcomeKeepsSound(p, a);
  }

  lemma NothingToSend(p: Pool, a: Action)
    requires a.Send? || a.Error?
    requires !(a.w < |p.workers| && p.workers[a.w].Sending?)
    ensures Step(p, a) == p
  {
  }

  lemma OutcomeKeepsSound(p: Pool, a: Action)
    requires Sound(p) && (a.Await? || a.Deadline? || a.Delete?)
    ensures Sound(Step(p, a))
  {
    hide Accounted;
    var p' := Step(p, a);
    forall i | 0 <= i < |p'.claims| ensures Accounted(p', i) {
      SameAccount(p, p', i);
    }
    forall w, i ensures Owns(p', w, i) <==> Owns(p, w, i) {
    }
  }

  lemma SameAccount(p: Pool, p': Pool, i: nat)
    requires i < |p.batches| && Accounted(p, i)
    requires p'.batches == p.batches && p'.workers == p.workers && p'.landed == p.landed
    ensures Accounted(p', i)
  {
    if w :| SendsRest(p, w, i) {
      assert SendsRest(p', w, i);
    } else if w :| Owns(p, w, i) && p.workers[w].Threw? {
      assert Owns(p', w, i);
    }
  }

  lemma {:induction false} RunsAreSound(p: Pool, actions: seq<Action>)
    requires Sound(p)
    ensures Sound(Run(p, actions)) && Run(p, actions).batches == p.batches
  {
    hide Step, Sound;
    if actions != [] {
      RunsAreSound(p, actions[..|actions| - 1]);
      StepKeepsSound(Run(p, actions[..|actions| - 1]), actions[|actions| - 1]);
      StepKeepsBatches(Run(p, actions[..|actions| - 1]), actions[|actions| - 1]);
    }
  }

  lemma StepKeepsBatches(p: Pool, a: Action)
    ensures Step(p, a).batches == p.batches
  {
  }

  /** Each index is claimed once, whatever the interleaving: the claims are 0, 1, 2, ... in that order. */
  lemma EachBatchClaimedOnce(batches: seq<seq<string>>, table: set<string>, actions: seq<Action>)
    ensures var claims := Run(Start(batches, table), actions).claims;
            |claims| <= |batches| && forall k :: 0 <= k < |claims| ==> claims[k] == k
  {
    StartIsSound(batches, table);
    RunsAreSound(Start(batches, table), actions);
  }

  /** The message is deleted only when the author and the follower in every item of every page have the
      feed item, for any interleaving, any unprocessed items, failures, deadlines and earlier attempts. */
  lemma DeletedMeansFannedOut(
      pages: seq<Page>, author: string, batches: seq<seq<string>>, table: set<string>, actions: seq<Action>)
    requires Join(batches) == FeedKeys(Recipients(pages, author))
    ensures var p := Run(Start(batches, table), actions);
            p.deleted ==>
              && USER_PREFIX + author in p.table
              && forall i, j, id :: Lists(pages, i, j, id) ==> USER_PREFIX + id in p.table
  {
    hide Run, AllFollowers;
    StartIsSound(batches, table);
    RunsAreSound(Start(batches, table), actions);
    var p := Run(Start(batches, table), actions);
    if p.deleted {
      assert author in AllFollowers(pages) + [author];
      RecipientIsWritten(pages, author, p, author);
      forall i, j, id | Lists(pages, i, j, id) ensures USER_PREFIX + id in p.table {
        PagesHave(pages, i, j, id);
        RecipientIsWritten(pages, author, p, id);
      }
    }
  }

  lemma RecipientIsWritten(pages: seq<Page>, author: string, p: Pool, id: string)
    requires Sound(p) && p.deleted && Join(p.batches) == FeedKeys(Recipients(pages, author))
    requires id in AllFollowers(pages) + [author]
    ensures USER_PREFIX + id in p.table
  {
    hide AllFollowers;
    var recipients := Recipients(pages, author);
    DedupKeeps(AllFollowers(pages) + [author]);
    var k :| 0 <= k < |recipients| && recipients[k] == id;
    assert FeedKeys(recipients)[k] == USER_PREFIX + id;
    InSomeBatch(p.batches, USER_PREFIX + id);
    var i :| 0 <= i < |p.batches| && USER_PREFIX + id in p.batches[i];
    AllWritten(p);
    assert KeySet(p.batches[i]) <= p.table;
  }

  /** Nobody else gets it. */
  lemma OnlyRecipientsAreWritten(
      pages: seq<Page>, author: string, batches: seq<seq<string>>, table: set<string>, actions: seq<Action>,
      key: string)
    requires Join(batches) == FeedKeys(Recipients(pages, author)) && Keyed(pages)
    requires key in Run(Start(batches, table), actions).table && key !in table
    ensures key == USER_PREFIX + author || exists i, j, id :: Lists(pages, i, j, id) && key == USER_PREFIX + id
  {
    hide Run, AllFollowers, Keyed;
    WritesAreKeys(batches, table, actions);
    var recipients := Recipients(pages, author);
    DedupKeeps(AllFollowers(pages) + [author]);
    var k :| 0 <= k < |FeedKeys(recipients)| && FeedKeys(recipients)[k] == key;
    assert recipients[k] in recipients;
    if recipients[k] != author {
      ListedIff(pages, recipients[k]);
    }
  }

  /** Workers only hold keys of their batches. */
  ghost predicate Held(p: Pool, table: set<string>) {
    && (forall k :: k in p.table ==> k in table || k in Join(p.batches))
    && (forall w :: 0 <= w < |p.workers| && p.workers[w].Sending? ==>
          KeySet(p.workers[w].remaining) <= KeySet(Join(p.batches)))
  }

  lemma {:induction false} BatchInJoin(batches: seq<seq<string>>, i: nat)
    requires i < |batches|
    ensures KeySet(batches[i]) <= KeySet(Join(batches))
  {
    if i > 0 {
      BatchInJoin(batches[1..], i - 1);
    }
  }

  lemma StepKeepsHeld(p: Pool, table: set<string>, a: Action)
    requires Held(p, table)
    ensures Held(Step(p, a), table)
  {
    match a
    case Take(w) =>
      if p.next < |p.batches| {
        BatchInJoin(p.batches, p.next);
      }
    case Send(w, written) =>
      if w < |p.workers| && p.workers[w].Sending? {
        UnwrittenKeys(p.workers[w].remaining, written);
        assert forall k :: k in p.workers[w].remaining ==> k in KeySet(p.workers[w].remaining);
      }
    case Error(w, written) =>
      if w < |p.workers| && p.workers[w].Sending? {
        assert forall k :: k in p.workers[w].remaining ==> k in KeySet(p.workers[w].remaining);
      }
    case _ =>
  }

  lemma {:induction false} WritesAreKeys(batches: seq<seq<string>>, table: set<string>, actions: seq<Action>)
    ensures Held(Run(Start(batches, table), actions), table) && Run(Start(batches, table), actions).batches == batches
  {
    hide Step, Held;
    if actions == [] {
      StartHolds(batches, table);
    } else {
      var n := |actions| - 1;
      WritesAreKeys(batches, table, actions[..n]);
      StepKeepsHeld(Run(Start(batches, table), actions[..n]), table, actions[n]);
      StepKeepsBatches(Run(Start(batches, table), actions[..n]), actions[n]);
    }
  }

  lemma StartHolds(batches: seq<seq<string>>, table: set<string>)
    ensures Held(Start(batches, table), table)
  {
  }

  /** And no batch ever sent writes one key twice. */
  lemma BatchesHaveDistinctKeys(pages: seq<Page>, author: string, batches: seq<seq<string>>, i: nat)
    requires Join(batches) == FeedKeys(Recipients(pages, author)) && i < |batches|
    ensures NoRepeats(batches[i])
  {
    DedupKeeps(AllFollowers(pages) + [author]);
    FeedKeysDistinct(Recipients(pages, author));
    BatchHasNoRepeats(batches, i);
  }
}
