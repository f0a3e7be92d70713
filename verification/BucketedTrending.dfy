/** Time-bucketed trending reads and writes: analytics/src/bucketed-trending.ts, for one entity type. */
module BucketedTrending {
  import T = TrendingProcessor

  const MINUTE := 60_000
  const BUCKET_TTL := 7 * 24 * 60 * MINUTE

  /** Sorted sets by bucket; a missing bucket is an empty one. */
  type Buckets = map<int, map<string, nat>>

  datatype Entry = Entry(id: string, score: real)

  function WeightIn(b: Buckets, bucket: int, id: string): nat {
    if bucket in b && id in b[bucket] then b[bucket][id] else 0
  }

  function Record(b: Buckets, id: string, weight: int, eventTimeMs: int): Buckets {
    if weight <= 0 then b
    else
      var bucket := T.ToBucket(eventTimeMs);
      var members := if bucket in b then b[bucket] else map[];
      b[bucket := members[id := WeightIn(b, bucket, id) + weight]]
  }

  /** The keys as Redis holds them: each sorted set and when its key runs out. */
  datatype Shelf = Shelf(buckets: Buckets, expires: map<int, int>)

  function Live(s: Shelf, now: int): Buckets {
    map k | k in s.buckets && k in s.expires && now < s.expires[k] :: s.buckets[k]
  }

  /** ZINCRBY and EXPIRE at clock time `now`; a key that has run out starts again from nothing. */
  function RecordAt(s: Shelf, id: string, weight: int, eventTimeMs: int, now: int): Shelf {
    if weight <= 0 then s
    else Shelf(Record(Live(s, now), id, weight, eventTimeMs), s.expires[T.ToBucket(eventTimeMs) := now + BUCKET_TTL])
  }

  // ----- what the score should be -----

  function Total(b: Buckets, id: string, newest: int, count: nat): nat {
    if count == 0 then 0 else WeightIn(b, newest - (count - 1), id) + Total(b, id, newest, count - 1)
  }

  /** The last three buckets in full and the nine before them by half. */
  function Score(b: Buckets, id: string, current: int): real {
    Total(b, id, current, 3) as real + Total(b, id, current - 3, 9) as real / 2.0
  }

  // ----- ZUNIONSTORE and ZREVRANGE -----

  datatype Source = Source(bucket: int, weight: real)

  function UnionScore(b: Buckets, sources: seq<Source>, id: string): real {
    if sources == [] then 0.0
    else UnionScore(b, sources[..|sources| - 1], id)
         + sources[|sources| - 1].weight * WeightIn(b, sources[|sources| - 1].bucket, id) as real
  }

  function BucketIds(b: Buckets, sources: seq<Source>): set<string> {
    set s, id | s in sources && s.bucket in b && id in b[s.bucket] :: id
  }

  function Union(b: Buckets, sources: seq<Source>): map<string, real> {
    map id | id in BucketIds(b, sources) :: UnionScore(b, sources, id)
  }

  predicate StringLess(a: string, b: string) {
    b != [] && (a == [] || a[0] < b[0] || (a[0] == b[0] && StringLess(a[1..], b[1..])))
  }

  /** Reverse order of a sorted set: higher score first, then the larger member. */
  predicate Before(a: Entry, b: Entry) {
    a.score > b.score || (a.score == b.score && StringLess(b.id, a.id))
  }

  /** The reply of ZREVRANGE key 0 -1 WITHSCORES. */
  ghost predicate IsRanking(r: seq<Entry>, scores: map<string, real>) {
    && (forall i :: 0 <= i < |r| ==> r[i].id in scores && r[i].score == scores[r[i].id])
    && (forall id :: id in scores ==> exists i :: 0 <= i < |r| && r[i].id == id)
    && (forall i, j :: 0 <= i < j < |r| ==> r[i].id != r[j].id && Before(r[i], r[j]))
  }

  /** ZREVRANGE key 0 stop: a negative stop counts from the end. */
  function Range(r: seq<Entry>, stop: int): seq<Entry> {
    var last := if stop < 0 then |r| + stop else stop;
    if last < 0 then [] else if last >= |r| then r else r[..last + 1]
  }

  function Exposed(r: seq<Entry>): seq<Entry> {
    if r == [] then []
    else (if r[0].score >= 20.0 then [r[0]] else []) + Exposed(r[1..])
  }

  /** The class's view of Redis: the buckets, and the order in which it lists a union. */
  class Store {
    var buckets: Buckets
    var expires: map<int, int>

    constructor ()
      ensures View() == Shelf(map[], map[])
    {
      buckets, expires := map[], map[];
    }

    function View(): Shelf
      reads this
    {
      Shelf(buckets, expires)
    }

    method RecordEvent(id: string, weight: int, eventTimeMs: int, now: int)
      modifies this
      ensures View() == RecordAt(old(View()), id, weight, eventTimeMs, now)
    {
      if weight <= 0 { return; }
      var bucket := T.ToBucket(eventTimeMs);
      var live := Live(View(), now);
      var members := if bucket in live then live[bucket] else map[];
      buckets := live[bucket := members[id := WeightIn(live, bucket, id) + weight]];
      expires := expires[bucket := now + BUCKET_TTL];
    }

    method Sources(current: int) returns (sources: seq<Source>)
      ensures sources == Window(current)
    {
      sources := [];
      for d := 0 to 3
        invariant sources == seq(d, i => Source(current - i, 1.0))
      {
        sources := sources + [Source(current - d, 1.0)];
      }
      for d := 3 to 12
        invariant sources == seq(3, i => Source(current - i, 1.0)) + seq(d - 3, i => Source(current - 3 - i, 0.5))
      {
        sources := sources + [Source(current - d, 0.5)];
      }
    }

    /** `ranking` is how Redis orders the temporary union. */
    method GetTop(limit: int, nowMs: int, ranking: seq<Entry>) returns (entries: seq<Entry>)
      requires IsRanking(ranking, Union(Live(View(), nowMs), Window(T.ToBucket(nowMs))))
      ensures entries == Exposed(Range(ranking, limit - 1))
    {
      hide IsRanking, Union, Window, Range;
      var raw := Range(ranking, limit - 1);
      entries := [];
      var i := 0;
      while i < |raw|
        invariant i <= |raw| && entries + Exposed(raw[i..]) == Exposed(raw)
      {
        assert raw[i..][1..] == raw[i + 1..];
        if raw[i].score >= 20.0 {
          entries := entries + [raw[i]];
        }
        i := i + 1;
      }
    }
  }

  function Window(current: int): seq<Source> {
    seq(3, i => Source(current - i, 1.0)) + seq(9, i => Source(current - 3 - i, 0.5))
  }

  // ----- the union computes the score -----

  lemma {:induction false} UnionScoreConcat(b: Buckets, xs: seq<Source>, ys: seq<Source>, id: string)
    ensures UnionScore(b, xs + ys, id) == UnionScore(b, xs, id) + UnionScore(b, ys, id)
  {
    if ys == [] {
      assert xs + ys == xs;
    } else {
      assert (xs + ys)[..|xs + ys| - 1] == xs + ys[..|ys| - 1];
      UnionScoreConcat(b, xs, ys[..|ys| - 1], id);
    }
  }

  lemma Distribute(weight: real, w: nat, t: nat)
    ensures weight * t as real + weight * w as real == weight * (w + t) as real
  {
    assert (w + t) as real == w as real + t as real;
  }

  lemma {:induction false} RunScore(b: Buckets, newest: int, count: nat, weight: real, id: string)
    ensures UnionScore(b, seq(count, i => Source(newest - i, weight)), id)
         == weight * Total(b, id, newest, count) as real
  {
    hide WeightIn;
    if count > 0 {
      var run := seq(count, i => Source(newest - i, weight));
      assert run[..count - 1] == seq(count - 1, i => Source(newest - i, weight));
      RunScore(b, newest, count - 1, weight, id);
      Distribute(weight, WeightIn(b, newest - (count - 1), id), Total(b, id, newest, count - 1));
    }
  }

  lemma WindowScore(b: Buckets, current: int, id: string)
    ensures UnionScore(b, Window(current), id) == Score(b, id, current)
  {
    UnionScoreConcat(b, seq(3, i => Source(current - i, 1.0)), seq(9, i => Source(current - 3 - i, 0.5)), id);
    RunScore(b, current, 3, 1.0, id);
    RunScore(b, current - 3, 9, 0.5, id);
  }

  lemma {:induction false} OutsideUnion(b: Buckets, sources: seq<Source>, id: string)
    ensures UnionScore(b, sources, id) == 0.0 || id in BucketIds(b, sources)
  {
    if sources != [] {
      var last := sources[|sources| - 1];
      assert last in sources;
      OutsideUnion(b, sources[..|sources| - 1], id);
    }
  }

  // ----- truncating first is harmless -----

  lemma {:induction false} NoneExposed(r: seq<Entry>)
    requires forall i :: 0 <= i < |r| ==> r[i].score < 20.0
    ensures Exposed(r) == []
  {
    if r != [] {
      NoneExposed(r[1..]);
    }
  }

  lemma {:induction false} ExposedIsPrefix(r: seq<Entry>) returns (n: nat)
    requires forall i, j :: 0 <= i < j < |r| ==> r[i].score >= r[j].score
    ensures n <= |r| && Exposed(r) == r[..n]
    ensures forall i :: 0 <= i < |r| ==> (r[i].score >= 20.0 <==> i < n)
  {
    if r == [] || r[0].score < 20.0 {
      n := 0;
      NoneExposed(r);
    } else {
      var m := ExposedIsPrefix(r[1..]);
      n := m + 1;
      assert r[..n] == [r[0]] + r[1..][..m];
      forall i | 0 <= i < |r| ensures r[i].score >= 20.0 <==> i < n {
        assert i > 0 ==> r[i] == r[1..][i - 1];
      }
    }
  }

  /** On a ranking, dropping the low scores and cutting at `limit` commute. */
  lemma CutThenFilter(r: seq<Entry>, limit: nat)
    requires limit >= 1 && forall i, j :: 0 <= i < j < |r| ==> r[i].score >= r[j].score
    ensures Exposed(Range(r, limit - 1)) == Range(Exposed(r), limit - 1)
  {
    var cut := Range(r, limit - 1);
    var n := ExposedIsPrefix(r);
    var m := ExposedIsPrefix(cut);
    assert forall i :: 0 <= i < |cut| ==> cut[i] == r[i];
    assert m < |cut| ==> !(cut[m].score >= 20.0);
    assert 0 < m ==> cut[m - 1].score >= 20.0;
    assert m == if n <= |cut| then n else |cut|;
    assert cut[..m] == r[..m];
  }

  /** The read equals the brute-force answer: the entries carry the true scores, they are the ids that
      score at least 20, best first, and an eligible id is left out only when `limit` better ones are in. */
  lemma TopIsBruteForce(b: Buckets, limit: nat, nowMs: int, ranking: seq<Entry>)
    requires limit >= 1 && IsRanking(ranking, Union(b, Window(T.ToBucket(nowMs))))
    ensures var current := T.ToBucket(nowMs);
            var top := Exposed(Range(ranking, limit - 1));
            && |top| <= limit
            && (forall i :: 0 <= i < |top| ==> top[i].score == Score(b, top[i].id, current) >= 20.0)
            && (forall i, j :: 0 <= i < j < |top| ==> top[i].id != top[j].id && Before(top[i], top[j]))
            && (forall id :: Score(b, id, current) >= 20.0 && (forall i :: 0 <= i < |top| ==> top[i].id != id) ==>
                  |top| == limit && forall i :: 0 <= i < |top| ==> Before(top[i], Entry(id, Score(b, id, current))))
  {
    hide Score, UnionScore, Window;
    var current := T.ToBucket(nowMs);
    var sources := Window(current);
    var cut := Range(ranking, limit - 1);
    assert forall i :: 0 <= i < |cut| ==> cut[i] == ranking[i];
    var n := ExposedIsPrefix(cut);
    var top := Exposed(cut);
    forall i | 0 <= i < |top| ensures top[i].score == Score(b, top[i].id, current) >= 20.0 {
      WindowScore(b, current, top[i].id);
      assert top[i] == ranking[i];
    }
    forall id | Score(b, id, current) >= 20.0 && forall i :: 0 <= i < |top| ==> top[i].id != id
      ensures |top| == limit && forall i :: 0 <= i < |top| ==> Before(top[i], Entry(id, Score(b, id, current)))
    {
      WindowScore(b, current, id);
      OutsideUnion(b, sources, id);
      assert id in Union(b, sources);
      var k :| 0 <= k < |ranking| && ranking[k].id == id;
      assert ranking[k] == Entry(id, Score(b, id, current));
      LeftOutIsBehind(ranking, limit, k);
    }
  }

  lemma LeftOutIsBehind(r: seq<Entry>, limit: nat, k: nat)
    requires limit >= 1 && k < |r| && r[k].score >= 20.0
    requires forall i, j :: 0 <= i < j < |r| ==> r[i].id != r[j].id && Before(r[i], r[j])
    ensures var top := Exposed(Range(r, limit - 1));
            (forall i :: 0 <= i < |top| ==> top[i].id != r[k].id) ==>
              |top| == limit && forall i :: 0 <= i < |top| ==> Before(top[i], r[k])
  {
    var cut := Range(r, limit - 1);
    assert forall i :: 0 <= i < |cut| ==> cut[i] == r[i];
    var n := ExposedIsPrefix(cut);
    var top := Exposed(cut);
    if k < |cut| {
      assert cut[k].score >= 20.0 && top[k] == r[k];
    } else {
      forall i | 0 <= i < |cut| ensures cut[i].score >= 20.0 {
        assert Before(r[i], r[k]);
      }
      assert |cut| > 0 ==> cut[|cut| - 1].score >= 20.0;
    }
  }

  /** With a limit of zero the stop index is -1, which Redis reads as "to the end": nothing is cut. */
  lemma ZeroLimitCutsNothing(ranking: seq<Entry>)
    ensures Range(ranking, 0 - 1) == ranking
  {
  }

  // ----- the age of an event -----

  /** How much one unit of weight adds, by how many buckets ago it was recorded. */
  function Coefficient(age: int): real {
    if 0 <= age < 3 then 1.0 else if 3 <= age < 12 then 0.5 else 0.0
  }

  lemma {:induction false} TotalAfterRecord(
      b: Buckets, id: string, weight: nat, eventTimeMs: int, probe: string, newest: int, count: nat)
    requires weight > 0
    ensures Total(Record(b, id, weight, eventTimeMs), probe, newest, count)
         == Total(b, probe, newest, count)
            + if probe == id && newest - count < T.ToBucket(eventTimeMs) <= newest then weight else 0
  {
    if count > 0 {
      TotalAfterRecord(b, id, weight, eventTimeMs, probe, newest, count - 1);
    }
  }

  /** Recording adds the weight times the coefficient of the event's age to its own id, and nothing else. */
  lemma RecordMovesScore(b: Buckets, id: string, weight: nat, eventTimeMs: int, probe: string, nowMs: int)
    requires weight > 0
    ensures var current := T.ToBucket(nowMs);
            var added := if probe == id then Coefficient(current - T.ToBucket(eventTimeMs)) * weight as real else 0.0;
            Score(Record(b, id, weight, eventTimeMs), probe, current) == Score(b, probe, current) + added
  {
    hide Record;
    var current := T.ToBucket(nowMs);
    TotalAfterRecord(b, id, weight, eventTimeMs, probe, current, 3);
    TotalAfterRecord(b, id, weight, eventTimeMs, probe, current - 3, 9);
  }

  /** A past event counts for sure below 55 minutes of age and not at all from 60 on; it counts in full
      below 10 minutes and no longer in full from 15 on. */
  lemma AgeLimits(eventTimeMs: int, nowMs: int)
    requires eventTimeMs <= nowMs
    ensures var age := nowMs - eventTimeMs;
            var c := Coefficient(T.ToBucket(nowMs) - T.ToBucket(eventTimeMs));
            && (age < 55 * MINUTE ==> c >= 0.5)
            && (age >= 60 * MINUTE ==> c == 0.0)
            && (age < 10 * MINUTE ==> c == 1.0)
            && (age >= 15 * MINUTE ==> c <= 0.5)
  {
    var x, y := T.ToBucket(eventTimeMs), T.ToBucket(nowMs);
    assert x * T.BUCKET_MS <= eventTimeMs < (x + 1) * T.BUCKET_MS;
    assert y * T.BUCKET_MS <= nowMs < (y + 1) * T.BUCKET_MS;
  }
}
