/** Bucket keys run out seven days after their last write: when readers can notice. */
module BucketExpiry {
  import opened BucketedTrending
  import T = TrendingProcessor

  /** A call of `record` at clock time `now`. */
  datatype Recording = Recording(id: string, weight: int, eventTimeMs: int, now: int)

  function Run(rs: seq<Recording>): Shelf {
    if rs == [] then Shelf(map[], map[])
    else
      var r := rs[|rs| - 1];
      RecordAt(Run(rs[..|rs| - 1]), r.id, r.weight, r.eventTimeMs, r.now)
  }

  /** The same calls on keys that never run out. */
  function Kept(rs: seq<Recording>): Buckets {
    if rs == [] then map[]
    else
      var r := rs[|rs| - 1];
      Record(Kept(rs[..|rs| - 1]), r.id, r.weight, r.eventTimeMs)
  }

  predicate InOrder(rs: seq<Recording>, nowMs: int) {
    && (forall i, j :: 0 <= i < j < |rs| ==> rs[i].now <= rs[j].now)
    && (forall i :: 0 <= i < |rs| ==> rs[i].now <= nowMs)
  }

  /** When the key runs out, reads have stopped looking at the event's bucket. */
  predicate LeavesFirst(r: Recording) {
    r.weight > 0 ==> T.ToBucket(r.eventTimeMs) <= T.ToBucket(r.now + BUCKET_TTL) - 12
  }

  lemma LaterBucket(x: int, y: int)
    requires x <= y
    ensures T.ToBucket(x) <= T.ToBucket(y)
  {
  }

  /** Every event stamped less than seven days less an hour ahead of the clock is such a one. */
  lemma StampedInTime(r: Recording)
    requires r.eventTimeMs <= r.now + BUCKET_TTL - 60 * MINUTE
    ensures LeavesFirst(r)
  {
    LaterBucket(r.eventTimeMs, r.now + BUCKET_TTL - 60 * MINUTE);
  }

  predicate SameAt(b: Buckets, c: Buckets, k: int) {
    (k in b <==> k in c) && (k in b ==> b[k] == c[k])
  }

  /** Keys in the window of a read at `nowMs` or later have all they ever held, with a deadline that falls
      after they have left it. */
  ghost predicate Whole(s: Shelf, b: Buckets, nowMs: int) {
    && (forall k :: k in s.buckets ==> k in s.expires && k <= T.ToBucket(s.expires[k]) - 12)
    && (forall k :: T.ToBucket(nowMs) - 12 < k ==> SameAt(s.buckets, b, k))
  }

  lemma LiveIsWhole(s: Shelf, b: Buckets, earlier: int, nowMs: int)
    requires Whole(s, b, earlier) && earlier <= nowMs
    ensures forall k :: T.ToBucket(nowMs) - 12 < k ==> SameAt(Live(s, nowMs), b, k)
  {
    LaterBucket(earlier, nowMs);
    forall k | T.ToBucket(nowMs) - 12 < k ensures SameAt(Live(s, nowMs), b, k) {
      assert SameAt(s.buckets, b, k);
      if k in s.buckets && s.expires[k] <= nowMs {
        LaterBucket(s.expires[k], nowMs);
        assert false;
      }
    }
  }

  lemma RecordKeepsWhole(s: Shelf, b: Buckets, earlier: int, r: Recording)
    requires Whole(s, b, earlier) && earlier <= r.now && LeavesFirst(r)
    ensures Whole(RecordAt(s, r.id, r.weight, r.eventTimeMs, r.now), Record(b, r.id, r.weight, r.eventTimeMs), r.now)
  {
    hide T.ToBucket;
    LiveIsWhole(s, b, earlier, r.now);
    LaterBucket(earlier, r.now);
    forall k | T.ToBucket(r.now) - 12 < k
      ensures SameAt(RecordAt(s, r.id, r.weight, r.eventTimeMs, r.now).buckets,
                     Record(b, r.id, r.weight, r.eventTimeMs), k)
    {
      assert SameAt(Live(s, r.now), b, k) && SameAt(s.buckets, b, k);
    }
  }

  lemma {:induction false} RunIsWhole(rs: seq<Recording>, nowMs: int)
    requires InOrder(rs, nowMs) && forall i :: 0 <= i < |rs| ==> LeavesFirst(rs[i])
    ensures Whole(Run(rs), Kept(rs), if rs == [] then nowMs else rs[|rs| - 1].now)
  {
    hide LeavesFirst, RecordAt, Record;
    if rs != [] {
      var r, before := rs[|rs| - 1], rs[..|rs| - 1];
      RunIsWhole(before, r.now);
      RecordKeepsWhole(Run(before), Kept(before), if before == [] then r.now else before[|before| - 1].now, r);
    }
  }

  lemma {:induction false} SameUnionScore(b: Buckets, c: Buckets, sources: seq<Source>, id: string)
    requires forall s :: s in sources ==> SameAt(b, c, s.bucket)
    ensures UnionScore(b, sources, id) == UnionScore(c, sources, id)
  {
    if sources != [] {
      assert sources[|sources| - 1] in sources;
      SameUnionScore(b, c, sources[..|sources| - 1], id);
    }
  }

  /** Over any run of timely recordings no read, then or later, can tell that keys run out: the union that
      is ranked is the one over everything ever recorded. */
  lemma {:induction false} ExpiryIsUnseen(rs: seq<Recording>, nowMs: int)
    requires InOrder(rs, nowMs) && forall i :: 0 <= i < |rs| ==> LeavesFirst(rs[i])
    ensures var current := T.ToBucket(nowMs);
            && Union(Live(Run(rs), nowMs), Window(current)) == Union(Kept(rs), Window(current))
            && forall id :: Score(Live(Run(rs), nowMs), id, current) == Score(Kept(rs), id, current)
  {
    hide LeavesFirst, Live, Run, Kept, SameAt, UnionScore, Score, T.ToBucket;
    var current := T.ToBucket(nowMs);
    var live, all := Live(Run(rs), nowMs), Kept(rs);
    RunIsWhole(rs, nowMs);
    LiveIsWhole(Run(rs), all, if rs == [] then nowMs else rs[|rs| - 1].now, nowMs);
    assert forall s :: s in Window(current) ==> current - 12 < s.bucket;
    SameIds(live, all, Window(current));
    forall id
      ensures UnionScore(live, Window(current), id) == UnionScore(all, Window(current), id)
      ensures Score(live, id, current) == Score(all, id, current)
    {
      SameUnionScore(live, all, Window(current), id);
      WindowScore(live, current, id);
      WindowScore(all, current, id);
    }
  }

  lemma SameIds(b: Buckets, c: Buckets, sources: seq<Source>)
    requires forall s :: s in sources ==> SameAt(b, c, s.bucket)
    ensures BucketIds(b, sources) == BucketIds(c, sources)
  {
  }

  lemma {:induction false} TotalOfNothing(id: string, newest: int, count: nat)
    ensures Total(map[], id, newest, count) == 0
  {
    if count > 0 {
      TotalOfNothing(id, newest, count - 1);
    }
  }

  lemma ScoreOfNothing(id: string, current: int)
    ensures Score(map[], id, current) == 0.0
  {
    TotalOfNothing(id, current, 3);
    TotalOfNothing(id, current - 3, 9);
  }

  predicate SeenInFull(r: Recording, nowMs: int) {
    var current := T.ToBucket(nowMs);
    Score(Live(Run([r]), nowMs), r.id, current) == Score(Kept([r]), r.id, current)
  }

  /** One recording alone: every later read sees it in full exactly when its bucket leaves the window
      before its key runs out. */
  lemma SeenInFullIff(r: Recording)
    requires r.weight > 0
    ensures (forall nowMs :: r.now <= nowMs ==> SeenInFull(r, nowMs)) <==> LeavesFirst(r)
  {
    if LeavesFirst(r) {
      forall nowMs | r.now <= nowMs ensures SeenInFull(r, nowMs) {
        ExpiryIsUnseen([r], nowMs);
      }
    } else {
      var end := r.now + BUCKET_TTL;
      var nowMs := if T.ToBucket(r.eventTimeMs) <= T.ToBucket(end) then end else r.eventTimeMs;
      RecordMovesScore(map[], r.id, r.weight, r.eventTimeMs, r.id, nowMs);
      assert [r][..|[r]| - 1] == [];
      assert Run([r]) == RecordAt(Shelf(map[], map[]), r.id, r.weight, r.eventTimeMs, r.now);
      assert Live(Run([r]), nowMs) == map[];
      ScoreOfNothing(r.id, T.ToBucket(nowMs));
      assert Score(Kept([r]), r.id, T.ToBucket(nowMs)) > 0.0;
      assert !SeenInFull(r, nowMs);
    }
  }
}
