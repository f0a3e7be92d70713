/**
 The analytics processor of one replica: analytics/src/processor.ts with receipts.ts and the bucket
 writes of bucketed-trending.ts. TrendingReplicas lets many of them share the store.
 */
module TrendingProcessor {
  import opened Wrappers

  type Id = string

  const DAY := 24 * 60 * 60
  const RECEIPT_TTL := 8 * DAY       // seconds
  const RETENTION := 7 * DAY         // how long Kafka may deliver a record again
  const BUCKET_MS := 5 * 60_000

  /** A parsed envelope: the parts of it that the processor reads. */
  datatype Event = Event(
    id: Id, eventType: string, actorId: Option<string>, postId: Option<string>,
    tags: seq<Option<string>>, occurredAtMs: int, userId: Option<string>, ownedPosts: seq<Option<string>>)

  datatype Message = Message(offset: nat, envelope: Option<Event>)

  datatype Kind = Posts | Hashtags

  /** One member of one five-minute sorted set. */
  datatype Cell = Cell(kind: Kind, bucket: int, id: string)

  datatype Increment = Increment(cell: Cell, weight: nat)

  datatype Store = Store(receipts: map<Id, int>, buckets: map<Cell, nat>, users: set<string>, posts: set<string>)

  // ----- what one event contributes -----

  /** `Math.floor(eventTimeMs / 300_000)`: Dafny's division by a positive number is the floor. */
  function ToBucket(eventTimeMs: int): int {
    eventTimeMs / BUCKET_MS
  }

  /** `trendingContribution`: zero for the types that do not count. */
  function Weight(eventType: string): nat {
    if eventType == "post.created" then 1
    else if eventType == "post.liked" then 3
    else if eventType == "post.commented" then 5
    else 0
  }

  function LowerChar(c: char): char {
    if 'A' <= c <= 'Z' then c - 'A' + 'a' else c
  }

  function Lower(s: string): string {
    if s == [] then [] else [LowerChar(s[0])] + Lower(s[1..])
  }

  /** The tags recorded: non-empty strings among the first ten, in lower case. */
  function TagNames(tags: seq<Option<string>>): seq<string> {
    if tags == [] then []
    else
      (if tags[0].Some? && tags[0].value != [] then [Lower(tags[0].value)] else []) + TagNames(tags[1..])
  }

  function Recorded(e: Event): seq<string> {
    if e.eventType == "post.created" then TagNames(e.tags[..if |e.tags| < 10 then |e.tags| else 10]) else []
  }

  function TagIncrements(names: seq<string>, weight: nat, bucket: int): seq<Increment> {
    if names == [] then []
    else [Increment(Cell(Hashtags, bucket, names[0]), weight)] + TagIncrements(names[1..], weight, bucket)
  }

  /** An event counts if its type has a weight and its payload names a post. */
  predicate Counts(e: Event) {
    Weight(e.eventType) > 0 && e.postId.Some?
  }

  /** The writes that follow a successful claim, in order. */
  function Contribution(e: Event): seq<Increment> {
    if !Counts(e) then []
    else
      var bucket := ToBucket(e.occurredAtMs);
      TagIncrements(Recorded(e), Weight(e.eventType), bucket)
      + [Increment(Cell(Posts, bucket, e.postId.value), Weight(e.eventType))]
  }

  // ----- the store's operations -----

  function Claimable(s: Store, id: Id, now: int): bool {
    id !in s.receipts || s.receipts[id] <= now
  }

  /** CLAIM_SCRIPT: EXISTS, then HSET and EXPIRE, as one step. */
  function Claim(s: Store, id: Id, now: int): Store {
    if Claimable(s, id, now) then s.(receipts := s.receipts[id := now + RECEIPT_TTL]) else s
  }

  function Count(buckets: map<Cell, nat>, c: Cell): nat {
    if c in buckets then buckets[c] else 0
  }

  function Write(s: Store, i: Increment): Store {
    if i.weight == 0 then s else s.(buckets := s.buckets[i.cell := Count(s.buckets, i.cell) + i.weight])
  }

  function WriteAll(s: Store, writes: seq<Increment>): Store
    decreases writes
  {
    if writes == [] then s else WriteAll(Write(s, writes[0]), writes[1..])
  }

  predicate Deletion(e: Event) {
    e.eventType == "user.deletion_requested" || e.eventType == "user.deletion_completed"
  }

  predicate UserSuppressed(s: Store, e: Event) {
    e.actorId.Some? && e.actorId.value != [] && e.actorId.value in s.users
  }

  predicate PostSuppressed(s: Store, e: Event) {
    e.postId.Some? && e.postId.value in s.posts
  }

  predicate Suppressed(s: Store, e: Event) {
    UserSuppressed(s, e) || PostSuppressed(s, e)
  }

  /** One SADD to one of the suppression sets. */
  datatype Sadd = SaddUser(id: string) | SaddPost(id: string)

  function DeletedUser(d: Event): Option<string> {
    if d.userId.Some? then d.userId else d.actorId
  }

  function PostSadds(owned: seq<Option<string>>): seq<Sadd> {
    if owned == [] then []
    else
      (if owned[0].Some? && owned[0].value != [] then [SaddPost(owned[0].value)] else []) + PostSadds(owned[1..])
  }

  /** The posts that one deletion suppresses: the first 5000 listed. */
  function Owned(d: Event): seq<Option<string>> {
    d.ownedPosts[..if |d.ownedPosts| < 5000 then |d.ownedPosts| else 5000]
  }

  /** The commands of `applyDeletion` on the suppression sets, in order. */
  function Sadds(d: Event): seq<Sadd> {
    var user := DeletedUser(d);
    (if user.Some? && user.value != [] then [SaddUser(user.value)] else []) + PostSadds(Owned(d))
  }

  function Add(s: Store, x: Sadd): Store {
    match x
    case SaddUser(id) => s.(users := s.users + {id})
    case SaddPost(id) => s.(posts := s.posts + {id})
  }

  function AddAll(s: Store, xs: seq<Sadd>): Store
    decreases xs
  {
    if xs == [] then s else AddAll(Add(s, xs[0]), xs[1..])
  }

  /** One message, start to end, with nobody in between. */
  function Handle(s: Store, m: Message, now: int): Store {
    match m.envelope
    case None => s
    case Some(e) =>
      if Deletion(e) then AddAll(s, Sadds(e))
      else if Suppressed(s, e) || !Counts(e) then s
      else if !Claimable(s, e.id, now) then s
      else WriteAll(Claim(s, e.id, now), Contribution(e))
  }

  function HandleAll(s: Store, ms: seq<Message>, now: int): Store {
    if ms == [] then s else Handle(HandleAll(s, ms[..|ms| - 1], now), ms[|ms| - 1], now)
  }

  function Offsets(ms: seq<Message>): seq<nat> {
    if ms == [] then [] else Offsets(ms[..|ms| - 1]) + [ms[|ms| - 1].offset]
  }

  class Processor {
    var receipts: map<Id, int>
    var buckets: map<Cell, nat>
    var suppressedUsers: set<string>
    var suppressedPosts: set<string>
    var resolved: seq<nat>
    var committed: seq<nat>

    constructor ()
      ensures View() == Store(map[], map[], {}, {}) && resolved == committed == []
    {
      receipts, buckets, suppressedUsers, suppressedPosts := map[], map[], {}, {};
      resolved, committed := [], [];
    }

    function View(): Store
      reads this
    {
      Store(receipts, buckets, suppressedUsers, suppressedPosts)
    }

    method TryClaim(id: Id, now: int) returns (claimed: bool)
      modifies this`receipts
      ensures claimed == Claimable(old(View()), id, now)
      ensures View() == Claim(old(View()), id, now)
      ensures receipts == if claimed then old(receipts)[id := now + RECEIPT_TTL] else old(receipts)
    {
      claimed := id !in receipts || receipts[id] <= now;
      if claimed {
        receipts := receipts[id := now + RECEIPT_TTL];
      }
    }

    method Record(kind: Kind, id: string, weight: nat, eventTimeMs: int)
      modifies this`buckets
      ensures View() == Write(old(View()), Increment(Cell(kind, ToBucket(eventTimeMs), id), weight))
    {
      if weight == 0 { return; }
      var cell := Cell(kind, ToBucket(eventTimeMs), id);
      buckets := buckets[cell := Count(buckets, cell) + weight];
    }

    method RecordTags(names: seq<string>, weight: nat, eventTimeMs: int)
      modifies this`buckets
      ensures View() == WriteAll(old(View()), TagIncrements(names, weight, ToBucket(eventTimeMs)))
    {
      var i := 0;
      while i < |names|
        invariant i <= |names|
        invariant WriteAll(View(), TagIncrements(names[i..], weight, ToBucket(eventTimeMs)))
               == WriteAll(old(View()), TagIncrements(names, weight, ToBucket(eventTimeMs)))
      {
        ghost var ahead := TagIncrements(names[i..], weight, ToBucket(eventTimeMs));
        assert names[i..][1..] == names[i + 1..];
        assert ahead[1..] == TagIncrements(names[i + 1..], weight, ToBucket(eventTimeMs));
        Record(Hashtags, names[i], weight, eventTimeMs);
        i := i + 1;
      }
    }

    method ApplyDeletion(d: Event)
      modifies this`suppressedUsers, this`suppressedPosts
      ensures View() == AddAll(old(View()), Sadds(d))
    {
      var user := DeletedUser(d);
      ghost var sadds := Sadds(d);
      if user.Some? && user.value != [] {
        assert sadds[0] == SaddUser(user.value) && sadds[1..] == PostSadds(Owned(d));
        suppressedUsers := suppressedUsers + {user.value};
        assert View() == Add(old(View()), sadds[0]);
      } else {
        assert sadds == PostSadds(Owned(d));
      }
      var owned := Owned(d);
      var i := 0;
      assert owned[0..] == owned;
      while i < |owned|
        invariant i <= |owned| && AddAll(View(), PostSadds(owned[i..])) == AddAll(old(View()), sadds)
      {
        ghost var ahead := PostSadds(owned[i..]);
        assert owned[i..][1..] == owned[i + 1..];
        if owned[i].Some? && owned[i].value != [] {
          ghost var before := View();
          assert ahead[0] == SaddPost(owned[i].value) && ahead[1..] == PostSadds(owned[i + 1..]);
          suppressedPosts := suppressedPosts + {owned[i].value};
          assert View() == Add(before, ahead[0]);
        } else {
          assert ahead == PostSadds(owned[i + 1..]);
        }
        i := i + 1;
      }
    }

    method HandleMessage(m: Message, now: int)
      modifies this
      ensures View() == Handle(old(View()), m, now)
      ensures resolved == old(resolved) + [m.offset] && committed == old(committed)
    {
      if m.envelope.Some? {
        var e := m.envelope.value;
        if Deletion(e) {
          ApplyDeletion(e);
        } else if !Suppressed(View(), e) && Counts(e) {
          var claimed := TryClaim(e.id, now);
          if claimed {
            ghost var before := View();
            ghost var bucket := ToBucket(e.occurredAtMs);
            var weight := Weight(e.eventType);
            RecordTags(Recorded(e), weight, e.occurredAtMs);
            Record(Posts, e.postId.value, weight, e.occurredAtMs);
            WriteAllLast(before, TagIncrements(Recorded(e), weight, bucket),
                         Increment(Cell(Posts, bucket, e.postId.value), weight));
          }
        }
      }
      resolved := resolved + [m.offset];
    }

    /** `live[i]` is what isRunning() and isStale() say before message `i`; only a batch that was handled to
        its end commits. */
    method HandleBatch(ms: seq<Message>, live: seq<bool>, now: int) returns (k: nat)
      requires |live| == |ms|
      modifies this
      ensures k <= |ms| && (forall i :: 0 <= i < k ==> live[i]) && (k < |ms| ==> !live[k])
      ensures View() == HandleAll(old(View()), ms[..k], now)
      ensures resolved == old(resolved) + Offsets(ms[..k])
      ensures |resolved| == |old(resolved)| + k
      ensures forall i :: 0 <= i < k ==> resolved[|old(resolved)| + i] == ms[i].offset
      ensures committed == if k == |ms| then resolved else old(committed)
    {
      k := 0;
      while k < |ms|
        invariant k <= |ms| && forall i :: 0 <= i < k ==> live[i]
        invariant View() == HandleAll(old(View()), ms[..k], now)
        invariant resolved == old(resolved) + Offsets(ms[..k]) && committed == old(committed)
        invariant |resolved| == |old(resolved)| + k
        invariant forall i :: 0 <= i < k ==> resolved[|old(resolved)| + i] == ms[i].offset
      {
        if !live[k] { return; }
        assert ms[..k + 1][..k] == ms[..k];
        HandleMessage(ms[k], now);
        k := k + 1;
      }
      committed := resolved;
    }
  }

  lemma {:induction false} WriteAllLast(s: Store, writes: seq<Increment>, last: Increment)
    ensures WriteAll(s, writes + [last]) == Write(WriteAll(s, writes), last)
    decreases writes
  {
    if writes == [] {
      assert [] + [last] == [last];
    } else {
      assert (writes + [last])[1..] == writes[1..] + [last];
      WriteAllLast(Write(s, writes[0]), writes[1..], last);
    }
  }

  // ----- what a list of writes adds to one cell -----

  function SumFor(writes: seq<Increment>, c: Cell): nat {
    if writes == [] then 0 else (if writes[0].cell == c then writes[0].weight else 0) + SumFor(writes[1..], c)
  }

  lemma {:induction false} SumForConcat(a: seq<Increment>, b: seq<Increment>, c: Cell)
    ensures SumFor(a + b, c) == SumFor(a, c) + SumFor(b, c)
  {
    if a == [] {
      assert a + b == b;
    } else {
      assert (a + b)[1..] == a[1..] + b;
      SumForConcat(a[1..], b, c);
    }
  }

  // ----- hashtags -----

  function Occurrences(names: seq<string>, name: string): nat {
    if names == [] then 0 else (if names[0] == name then 1 else 0) + Occurrences(names[1..], name)
  }

  lemma {:induction false} TagSum(names: seq<string>, weight: nat, bucket: int, name: string)
    ensures SumFor(TagIncrements(names, weight, bucket), Cell(Hashtags, bucket, name))
         == weight * Occurrences(names, name)
  {
    if names != [] {
      var all := TagIncrements(names, weight, bucket);
      assert all[1..] == TagIncrements(names[1..], weight, bucket);
      TagSum(names[1..], weight, bucket, name);
    }
  }

  lemma {:induction false} OccursIff(names: seq<string>, name: string)
    ensures Occurrences(names, name) > 0 <==> name in names
  {
    if names != [] {
      OccursIff(names[1..], name);
      assert names == [names[0]] + names[1..];
    }
  }

  predicate Once(names: seq<string>, name: string) {
    Occurrences(names, name) <= 1
  }

  lemma {:induction false} RepeatsCount(names: seq<string>)
    ensures NoRepeats(names) <==> forall name :: Once(names, name)
  {
    if names != [] {
      var head, tail := names[0], names[1..];
      RepeatsCount(tail);
      OccursIff(tail, head);
      RepeatsCons(names);
      if head in tail {
        assert !Once(names, head);
      } else {
        forall name ensures Once(names, name) <==> Once(tail, name) {
          OccursIff(tail, name);
        }
      }
      if !NoRepeats(tail) {
        var name :| !Once(tail, name);
        assert !Once(names, name);
      }
    }
  }

  lemma RepeatsCons(names: seq<string>)
    requires names != []
    ensures NoRepeats(names) <==> NoRepeats(names[1..]) && names[0] !in names[1..]
  {
    var tail := names[1..];
    assert forall i :: 0 <= i < |tail| ==> tail[i] == names[i + 1];
    if NoRepeats(names) {
      forall i, j | 0 <= i < j < |tail| ensures tail[i] != tail[j] {
        assert names[i + 1] == tail[i] && names[j + 1] == tail[j];
      }
    } else {
      var i, j :| 0 <= i < j < |names| && names[i] == names[j];
      assert names[j] == tail[j - 1];
      assert i > 0 ==> names[i] == tail[i - 1];
    }
  }

  /** The event adds no more than its weight to the hashtag. */
  predicate AddsOnce(e: Event, name: string) {
    SumFor(Contribution(e), Cell(Hashtags, ToBucket(e.occurredAtMs), name)) <= Weight(e.eventType)
  }

  /** A claimed event adds its weight to a hashtag at most once exactly when no two of its recorded tags
      agree after lowering. */
  lemma TagCountedOnceIff(e: Event)
    requires Counts(e)
    ensures NoRepeats(Recorded(e)) <==> forall name :: AddsOnce(e, name)
  {
    hide Recorded, NoRepeats, Contribution;
    RepeatsCount(Recorded(e));
    forall name ensures AddsOnce(e, name) <==> Once(Recorded(e), name) {
      HashtagShare(e, name);
      AtMostOne(Weight(e.eventType), Occurrences(Recorded(e), name));
    }
  }

  lemma HashtagShare(e: Event, name: string)
    requires Counts(e)
    ensures SumFor(Contribution(e), Cell(Hashtags, ToBucket(e.occurredAtMs), name))
         == Weight(e.eventType) * Occurrences(Recorded(e), name)
  {
    hide Recorded, TagIncrements;
    var w, bucket, names := Weight(e.eventType), ToBucket(e.occurredAtMs), Recorded(e);
    TagSum(names, w, bucket, name);
    var post := [Increment(Cell(Posts, bucket, e.postId.value), w)];
    SumForConcat(TagIncrements(names, w, bucket), post, Cell(Hashtags, bucket, name));
    assert SumFor(post, Cell(Hashtags, bucket, name)) == 0;
  }

  lemma AtMostOne(w: nat, n: nat)
    requires w > 0
    ensures w * n <= w <==> n <= 1
  {
    if n >= 2 {
      assert w * n >= w * 2;
    }
  }

  /** The tags `["Go", "go"]` count twice for "go". */
  lemma TwoSpellingsCountTwice(e: Event)
    requires Counts(e) && e.eventType == "post.created" && e.tags == [Some("Go"), Some("go")]
    ensures SumFor(Contribution(e), Cell(Hashtags, ToBucket(e.occurredAtMs), "go")) == 2 * Weight(e.eventType)
  {
    hide Contribution, Counts;
    HashtagShare(e, "go");
    GoIsGo();
    assert e.tags[..2] == e.tags && e.tags[1..] == [Some("go")] && e.tags[1..][1..] == [];
    assert TagNames([Some("go")]) == ["go"];
    assert TagNames(e.tags) == ["go", "go"];
    assert ["go", "go"][1..] == ["go"];
    assert Occurrences(["go"], "go") == 1;
  }

  lemma GoIsGo()
    ensures Lower("Go") == "go" && Lower("go") == "go"
  {
    assert "Go"[1..] == "o" && "go"[1..] == "o" && "o"[1..] == "";
    assert Lower("o") == "o";
  }

  /** Tags as the post service normalizes them: distinct, non-empty, in lower case already. */
  predicate Normalized(tags: seq<Option<string>>) {
    && (forall i :: 0 <= i < |tags| ==> tags[i].Some? && tags[i].value != [] && Lower(tags[i].value) == tags[i].value)
    && (forall i, j :: 0 <= i < j < |tags| ==> tags[i] != tags[j])
  }

  lemma {:induction false} NormalizedNames(tags: seq<Option<string>>)
    requires Normalized(tags)
    ensures |TagNames(tags)| == |tags| && forall i :: 0 <= i < |tags| ==> Some(TagNames(tags)[i]) == tags[i]
  {
    hide Lower;
    if tags != [] {
      assert forall i :: 0 <= i < |tags[1..]| ==> tags[1..][i] == tags[i + 1];
      NormalizedNames(tags[1..]);
    }
  }

  /** Events of the post service never count a hashtag twice. */
  lemma NormalizedTagsCountOnce(e: Event, name: string)
    requires Counts(e) && Normalized(e.tags)
    ensures AddsOnce(e, name)
  {
    hide AddsOnce, Counts, TagNames, Lower;
    var ten := e.tags[..if |e.tags| < 10 then |e.tags| else 10];
    assert Normalized(ten);
    NormalizedNames(ten);
    forall i, j | 0 <= i < j < |Recorded(e)| ensures Recorded(e)[i] != Recorded(e)[j] {
      assert ten[i] != ten[j];
    }
    TagCountedOnceIff(e);
  }
}
