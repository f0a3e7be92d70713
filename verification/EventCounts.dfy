/**
 What one event adds to each cell, said from its fields: analytics/src/processor.ts with envelope.ts and
 bucketed-trending.ts. And so what many replicas have counted in the end.
 */
module EventCounts {
  import opened Wrappers
  import opened TrendingProcessor
  import opened TrendingReplicas

  /** The five minutes that a bucket's number stands for. */
  predicate Within(bucket: int, timeMs: int) {
    bucket * 300_000 <= timeMs < (bucket + 1) * 300_000
  }

  /** Letter by letter, capitals of the ASCII alphabet give way to small ones. */
  predicate InLowerCase(tag: string, name: string) {
    && |tag| == |name|
    && forall k :: 0 <= k < |tag| ==>
         name[k] as int == tag[k] as int + if 'A' <= tag[k] <= 'Z' then 32 else 0
  }

  /** The i-th tag is among the first ten, and it is the name up to case. */
  predicate TagIs(e: Event, i: int, name: string) {
    0 <= i < |e.tags| && i < 10 && e.tags[i].Some? && e.tags[i].value != [] && InLowerCase(e.tags[i].value, name)
  }

  function TagPlaces(e: Event, name: string): set<int> {
    set i | 0 <= i < |e.tags| && TagIs(e, i, name)
  }

  /** A post created, liked or commented on counts 1, 3 or 5 for the post; its creation also counts 1 for
      each of its first ten tags. */
  function Adds(e: Event, c: Cell): nat {
    if e.postId.None? || !Within(c.bucket, e.occurredAtMs) then 0
    else
      match c.kind
      case Posts =>
        if e.postId.value != c.id then 0
        else if e.eventType == "post.created" then 1
        else if e.eventType == "post.liked" then 3
        else if e.eventType == "post.commented" then 5
        else 0
      case Hashtags => if e.eventType == "post.created" then |TagPlaces(e, c.id)| else 0
  }

  // ----- the writes add just that -----

  lemma BucketIff(bucket: int, timeMs: int)
    ensures Within(bucket, timeMs) <==> bucket == ToBucket(timeMs)
  {
  }

  lemma {:induction false} LowerIff(tag: string, name: string)
    ensures InLowerCase(tag, name) <==> Lower(tag) == name
  {
    hide InLowerCase;
    if tag == [] || name == [] {
      EmptyLower(tag, name);
    } else {
      LowerIff(tag[1..], name[1..]);
      LowerCons(tag, name);
      assert name == [name[0]] + name[1..];
      assert ([LowerChar(tag[0])] + Lower(tag[1..]))[1..] == Lower(tag[1..]);
    }
  }

  lemma EmptyLower(tag: string, name: string)
    requires tag == [] || name == []
    ensures InLowerCase(tag, name) <==> Lower(tag) == name
  {
  }

  lemma LowerCons(tag: string, name: string)
    requires tag != [] && name != []
    ensures InLowerCase(tag, name) <==> name[0] == LowerChar(tag[0]) && InLowerCase(tag[1..], name[1..])
  {
    assert forall k :: 0 <= k < |tag| - 1 ==> tag[1..][k] == tag[k + 1];
    assert forall k :: 0 <= k < |name| - 1 ==> name[1..][k] == name[k + 1];
    if name[0] == LowerChar(tag[0]) && InLowerCase(tag[1..], name[1..]) {
      forall k | 0 <= k < |tag| ensures name[k] as int == tag[k] as int + if 'A' <= tag[k] <= 'Z' then 32 else 0 {
        if k > 0 {
          assert tag[k] == tag[1..][k - 1] && name[k] == name[1..][k - 1];
        }
      }
    }
    if InLowerCase(tag, name) {
      forall k | 0 <= k < |tag[1..]|
        ensures name[1..][k] as int == tag[1..][k] as int + if 'A' <= tag[1..][k] <= 'Z' then 32 else 0
      {
        assert tag[1..][k] == tag[k + 1] && name[1..][k] == name[k + 1];
      }
    }
  }

  /** A place of a name among tags, counted from the front. */
  predicate IsPlace(tags: seq<Option<string>>, name: string, i: int) {
    0 <= i < |tags| && tags[i].Some? && tags[i].value != [] && InLowerCase(tags[i].value, name)
  }

  function Places(tags: seq<Option<string>>, name: string): set<int> {
    set i | 0 <= i < |tags| && IsPlace(tags, name, i)
  }

  lemma PlaceShifts(tags: seq<Option<string>>, name: string, i: int)
    requires tags != [] && i > 0
    ensures IsPlace(tags, name, i) <==> IsPlace(tags[1..], name, i - 1)
  {
    hide InLowerCase;
    assert i < |tags| ==> tags[1..][i - 1] == tags[i];
  }

  lemma LaterPlaces(tags: seq<Option<string>>, name: string) returns (later: set<int>)
    requires tags != []
    ensures |later| == |Places(tags[1..], name)| && 0 !in later
    ensures Places(tags, name) == later + if IsPlace(tags, name, 0) then {0} else {}
  {
    hide IsPlace;
    later := set i | 1 <= i < |tags| && IsPlace(tags, name, i);
    forall i ensures i in later <==> i - 1 in Places(tags[1..], name) {
      if i > 0 {
        PlaceShifts(tags, name, i);
      }
    }
    ShiftKeepsSize(Places(tags[1..], name), later);
  }

  lemma {:induction false} NamesAtPlaces(tags: seq<Option<string>>, name: string)
    ensures Occurrences(TagNames(tags), name) == |Places(tags, name)|
  {
    hide Lower, InLowerCase;
    if tags != [] {
      var rest := tags[1..];
      NamesAtPlaces(rest, name);
      var later := LaterPlaces(tags, name);
      if tags[0].Some? && tags[0].value != [] {
        LowerIff(tags[0].value, name);
        OccurrencesCons(Lower(tags[0].value), TagNames(rest), name);
      } else {
        assert TagNames(tags) == TagNames(rest);
      }
    }
  }

  lemma OccurrencesCons(head: string, tail: seq<string>, name: string)
    ensures Occurrences([head] + tail, name) == Occurrences(tail, name) + if head == name then 1 else 0
  {
    assert ([head] + tail)[1..] == tail;
  }

  /** Cell by cell, the writes that follow a claim add what the event's fields say, and nothing else. */
  lemma ContributionAdds(e: Event, c: Cell)
    ensures SumFor(Contribution(e), c) == Adds(e, c)
  {
    hide TagIncrements, Recorded, ToBucket, Within, TagPlaces;
    BucketIff(c.bucket, e.occurredAtMs);
    if Counts(e) {
      var bucket, w, names := ToBucket(e.occurredAtMs), Weight(e.eventType), Recorded(e);
      var post := [Increment(Cell(Posts, bucket, e.postId.value), w)];
      SumForConcat(TagIncrements(names, w, bucket), post, c);
      assert post[1..] == [];
      if c.kind == Hashtags && c.bucket == bucket {
        TagSum(names, w, bucket, c.id);
        RecordedAtPlaces(e, c.id);
      } else {
        NoTagSum(names, w, bucket, c);
      }
    }
  }

  lemma {:induction false} NoTagSum(names: seq<string>, w: nat, bucket: int, c: Cell)
    requires c.kind != Hashtags || c.bucket != bucket
    ensures SumFor(TagIncrements(names, w, bucket), c) == 0
  {
    if names != [] {
      var all := TagIncrements(names, w, bucket);
      assert all[1..] == TagIncrements(names[1..], w, bucket);
      NoTagSum(names[1..], w, bucket, c);
    }
  }

  lemma RecordedAtPlaces(e: Event, name: string)
    requires Counts(e)
    ensures Weight(e.eventType) * Occurrences(Recorded(e), name)
         == if e.eventType == "post.created" then |TagPlaces(e, name)| else 0
  {
    hide TagNames, InLowerCase;
    var ten := e.tags[..if |e.tags| < 10 then |e.tags| else 10];
    if e.eventType == "post.created" {
      NamesAtPlaces(ten, name);
      assert Places(ten, name) == TagPlaces(e, name);
    }
  }

  // ----- one processor -----

  /** What handling a message adds to a cell: what its event adds, if it counts, is not suppressed and has
      no live receipt. */
  lemma HandlingAdds(s: Store, m: Message, now: int, c: Cell)
    ensures Count(Handle(s, m, now).buckets, c)
         == Count(s.buckets, c)
            + if m.envelope.Some? && !Deletion(m.envelope.value) && !Suppressed(s, m.envelope.value)
                 && Claimable(s, m.envelope.value.id, now)
              then Adds(m.envelope.value, c) else 0
  {
    hide Contribution, Adds, Deletion, Suppressed, Claimable, Sadds;
    if m.envelope.Some? {
      var e := m.envelope.value;
      ContributionAdds(e, c);
      WritesAddUp(Claim(s, e.id, now), Contribution(e), c);
      LedgerKeepsCounts(s, Sadds(e), c);
      UncountedAddsNothing(e, c);
      assert Claim(s, e.id, now).buckets == s.buckets;
    }
  }

  lemma UncountedAddsNothing(e: Event, c: Cell)
    ensures !Counts(e) ==> SumFor(Contribution(e), c) == 0
  {
  }

  lemma {:induction false} LedgerKeepsCounts(s: Store, xs: seq<Sadd>, c: Cell)
    ensures AddAll(s, xs).buckets == s.buckets
    decreases xs
  {
    if xs != [] {
      LedgerKeepsCounts(Add(s, xs[0]), xs[1..], c);
    }
  }

  // ----- many replicas -----

  /** What a list of events adds to a cell. */
  function Total(events: seq<Event>, c: Cell): nat {
    if events == [] then 0 else Adds(events[0], c) + Total(events[1..], c)
  }

  lemma {:induction false} OwedIsTotal(events: seq<Event>, c: Cell)
    ensures Owed(events, c) == Total(events, c)
  {
    hide Adds, Contribution;
    if events != [] {
      ContributionAdds(events[0], c);
      OwedIsTotal(events[1..], c);
    }
  }

  /** However many replicas, whatever the interleaving, redelivery, deletions, failures and stops: no cell
      holds more than the distinct events that reached the claim add to it; and once all writes are made and
      none was lost it holds exactly that. */
  lemma CountsAreTotals(run: seq<Action>, events: seq<Event>, c: Cell)
    requires Timely(Run(run).attempts) && ClaimedOnce(events)
    requires forall e :: Attempted(Run(run).attempts, e) ==> e in events
    ensures Count(Run(run).store.buckets, c) <= Total(events, c)
    ensures Consistent(Run(run).attempts) && NothingLostIn(run) && Drained(Run(run))
            && (forall e :: e in events ==> Attempted(Run(run).attempts, e)) ==>
              Count(Run(run).store.buckets, c) == Total(events, c)
  {
    hide Run, Timely, Consistent, Attempted, Adds, Contribution, NothingLostIn, Drained;
    OwedIsTotal(events, c);
    NeverOvercounts(run, events, c);
    if Consistent(Run(run).attempts) && NothingLostIn(run) && Drained(Run(run))
       && forall e :: e in events ==> Attempted(Run(run).attempts, e) {
      FinalCountsAreExact(run, events, c);
    }
  }
}
