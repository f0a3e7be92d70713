/**
 What a read of the trending buckets adds up, how long a key lives, and that Redis has exactly one order to
 list a union in: analytics/src/bucketed-trending.ts.
 */
module TrendingRanks {
  import opened Wrappers
  import opened BucketedTrending
  import opened BucketExpiry
  import T = TrendingProcessor

  // ----- the sum -----

  /** What a recording is worth to a reader at `nowMs`: its weight if its five minutes are the reader's or
      one of the two before, half of it if one of the nine before those. */
  function Worth(r: Recording, nowMs: int): real {
    var age := nowMs / 300_000 - r.eventTimeMs / 300_000;
    if r.weight <= 0 then 0.0
    else if 0 <= age <= 2 then r.weight as real
    else if 3 <= age <= 11 then r.weight as real / 2.0
    else 0.0
  }

  function Sum(rs: seq<Recording>, id: string, nowMs: int): real {
    if rs == [] then 0.0
    else
      var last := rs[|rs| - 1];
      Sum(rs[..|rs| - 1], id, nowMs) + if last.id == id then Worth(last, nowMs) else 0.0
  }

  /** A reader that asks while nothing has run out finds, for each id, the sum over all of its recordings. */
  lemma {:induction false} ScoreIsSum(rs: seq<Recording>, id: string, nowMs: int)
    ensures Score(Kept(rs), id, T.ToBucket(nowMs)) == Sum(rs, id, nowMs)
  {
    if rs == [] {
      ScoreOfNothing(id, T.ToBucket(nowMs));
    } else {
      var n := |rs| - 1;
      var last := rs[n];
      ScoreIsSum(rs[..n], id, nowMs);
      if last.weight > 0 {
        RecordMovesScore(Kept(rs[..n]), last.id, last.weight, last.eventTimeMs, id, nowMs);
        WorthIsCoefficient(last, nowMs);
      }
    }
  }

  lemma WorthIsCoefficient(r: Recording, nowMs: int)
    requires r.weight > 0
    ensures Worth(r, nowMs) == Coefficient(T.ToBucket(nowMs) - T.ToBucket(r.eventTimeMs)) * r.weight as real
  {
  }

  /** So the answer to a read, whatever order Redis lists it in, has only ids whose recordings are worth
      twenty or more in sum, with that sum, in falling order, and misses one of them only if there are
      `limit` others before it. */
  lemma TopIsSum(rs: seq<Recording>, limit: nat, nowMs: int, ranking: seq<Entry>)
    requires limit >= 1 && InOrder(rs, nowMs) && forall i :: 0 <= i < |rs| ==> LeavesFirst(rs[i])
    requires IsRanking(ranking, Union(Live(Run(rs), nowMs), Window(T.ToBucket(nowMs))))
    ensures var top := Exposed(Range(ranking, limit - 1));
            && |top| <= limit
            && (forall i :: 0 <= i < |top| ==> top[i].score == Sum(rs, top[i].id, nowMs) >= 20.0)
            && (forall i, j :: 0 <= i < j < |top| ==> top[i].id != top[j].id && top[i].score >= top[j].score)
            && (forall id :: Sum(rs, id, nowMs) >= 20.0 && (forall i :: 0 <= i < |top| ==> top[i].id != id) ==>
                  |top| == limit && forall i :: 0 <= i < |top| ==> top[i].score >= Sum(rs, id, nowMs))
  {
    hide Score, Sum, Window, Live, Run, Kept, LeavesFirst, Union, IsRanking, Exposed, Range, T.ToBucket;
    ExpiryIsUnseen(rs, nowMs);
    TopIsBruteForce(Kept(rs), limit, nowMs, ranking);
    forall id ensures Score(Kept(rs), id, T.ToBucket(nowMs)) == Sum(rs, id, nowMs) {
      ScoreIsSum(rs, id, nowMs);
    }
  }

  // ----- the life of a key -----

  /** A recording that counts keeps its own key for seven days from now, and no other key; it adds to what
      was there only if that had not run out. */
  lemma RecordRenews(s: Shelf, id: string, weight: int, eventTimeMs: int, now: int, later: int, probe: string)
    requires weight > 0 && now <= later
    ensures var s', own := RecordAt(s, id, weight, eventTimeMs, now), eventTimeMs / 300_000;
            && (forall k :: k != own ==> WeightIn(Live(s', later), k, probe) == WeightIn(Live(s, later), k, probe))
            && WeightIn(Live(s', later), own, probe)
               == if later < now + 7 * 86_400_000
                  then WeightIn(Live(s, now), own, probe) + (if probe == id then weight else 0)
                  else 0
  {
    assert T.ToBucket(eventTimeMs) == eventTimeMs / 300_000;
  }

  /** One that does not count leaves everything alone. */
  lemma NoWeightNoRecord(s: Shelf, id: string, weight: int, eventTimeMs: int, now: int)
    requires weight <= 0
    ensures RecordAt(s, id, weight, eventTimeMs, now) == s
  {
  }

  // ----- the order of a sorted set -----

  lemma {:induction false} StringLessIff(a: string, b: string)
    ensures StringLess(a, b) <==> TextBefore(a, b)
  {
    hide TextBefore;
    TextBeforeFirst(a, b);
    if a != [] && b != [] && a[0] == b[0] {
      TextBeforeRest(a, b);
      StringLessIff(a[1..], b[1..]);
    }
  }

  lemma {:induction false} StringLessTotal(a: string, b: string)
    ensures !(StringLess(a, b) && StringLess(b, a))
    ensures a == b <==> !StringLess(a, b) && !StringLess(b, a)
  {
    if a != [] && b != [] && a[0] == b[0] {
      StringLessTotal(a[1..], b[1..]);
      assert a == [a[0]] + a[1..] && b == [b[0]] + b[1..];
    }
  }

  lemma {:induction false} StringLessTransitive(a: string, b: string, c: string)
    requires StringLess(a, b) && StringLess(b, c)
    ensures StringLess(a, c)
  {
    if a != [] && a[0] == b[0] == c[0] {
      StringLessTransitive(a[1..], b[1..], c[1..]);
    }
  }

  lemma BeforeOrder(a: Entry, b: Entry, c: Entry)
    ensures !(Before(a, b) && Before(b, a))
    ensures a.id != b.id ==> Before(a, b) || Before(b, a)
    ensures Before(a, b) && Before(b, c) ==> Before(a, c)
  {
    hide StringLess;
    StringLessTotal(a.id, b.id);
    if StringLess(b.id, a.id) && StringLess(c.id, b.id) {
      StringLessTransitive(c.id, b.id, a.id);
    }
  }

  /** The entry before the first one that it precedes. */
  function Place(r: seq<Entry>, e: Entry): seq<Entry> {
    if r == [] || Before(e, r[0]) then [e] + r else [r[0]] + Place(r[1..], e)
  }

  predicate Ordered(r: seq<Entry>) {
    forall i, j :: 0 <= i < j < |r| ==> r[i].id != r[j].id && Before(r[i], r[j])
  }

  lemma {:induction false} PlaceKeeps(r: seq<Entry>, e: Entry)
    requires Ordered(r) && forall i :: 0 <= i < |r| ==> r[i].id != e.id
    ensures Ordered(Place(r, e))
    ensures forall x :: x in Place(r, e) <==> x == e || x in r
  {
    hide Before;
    if r != [] {
      var head, tail := r[0], r[1..];
      assert r == [head] + tail;
      if Before(e, head) {
        forall i | 0 <= i < |r| ensures Before(e, r[i]) {
          BeforeOrder(e, head, r[i]);
        }
      } else {
        PlaceKeeps(tail, e);
        BeforeOrder(head, e, e);
        var placed := Place(tail, e);
        forall j | 0 <= j < |placed| ensures head.id != placed[j].id && Before(head, placed[j]) {
          assert placed[j] in placed;
          if placed[j] != e {
            var k :| 0 <= k < |tail| && tail[k] == placed[j];
            assert r[k + 1] == placed[j];
          }
        }
      }
    }
  }

  /** Every union can be listed. */
  lemma {:induction false} RankingExists(scores: map<string, real>) returns (r: seq<Entry>)
    ensures IsRanking(r, scores)
    decreases |scores|
  {
    hide Before;
    r := [];
    if scores.Keys != {} {
      var id := SomeElement(scores.Keys);
      var less := scores - {id};
      assert |less| < |scores| by { assert less.Keys == scores.Keys - {id}; }
      var before := RankingExists(less);
      var e := Entry(id, scores[id]);
      PlaceKeeps(before, e);
      r := Place(before, e);
      forall i | 0 <= i < |r| ensures r[i].id in scores && r[i].score == scores[r[i].id] {
        assert r[i] in r;
      }
      forall x | x in scores ensures exists i :: 0 <= i < |r| && r[i].id == x {
        if x == id {
          assert e in r;
        } else {
          assert x in less;
          var k :| 0 <= k < |before| && before[k].id == x;
          assert before[k] in r;
        }
      }
    }
  }

  /** And in one order only. */
  lemma {:induction false} RankingIsUnique(r: seq<Entry>, s: seq<Entry>, scores: map<string, real>)
    requires IsRanking(r, scores) && IsRanking(s, scores)
    ensures r == s
  {
    hide Before;
    SameEntries(r, s, scores);
    OneOrder(r, s);
  }

  lemma SameEntries(r: seq<Entry>, s: seq<Entry>, scores: map<string, real>)
    requires IsRanking(r, scores) && IsRanking(s, scores)
    ensures forall x :: x in r <==> x in s
  {
    hide Before;
    forall x | x in r || x in s ensures x in r && x in s {
      assert x.id in scores && x.score == scores[x.id];
      var i :| 0 <= i < |r| && r[i].id == x.id;
      var j :| 0 <= j < |s| && s[j].id == x.id;
      assert r[i] == x && s[j] == x;
    }
  }

  lemma EmptyTogether(r: seq<Entry>, s: seq<Entry>)
    requires forall x :: x in r <==> x in s
    ensures r == [] <==> s == []
  {
    if r == [] && s != [] {
      var x := SomeMember(s);
    }
    if s == [] && r != [] {
      var x := SomeMember(r);
    }
  }

  lemma SomeMember(r: seq<Entry>) returns (x: Entry)
    requires r != []
    ensures x in r
  {
    x := r[0];
  }

  lemma {:induction false} OneOrder(r: seq<Entry>, s: seq<Entry>)
    requires Ordered(r) && Ordered(s) && forall x :: x in r <==> x in s
    ensures r == s
  {
    hide Before;
    EmptyTogether(r, s);
    if r != [] {
      FirstIsFirst(r, s);
      TailMembers(r);
      TailMembers(s);
      assert Ordered(r[1..]) && Ordered(s[1..]) by { TailIsOrdered(r); TailIsOrdered(s); }
      OneOrder(r[1..], s[1..]);
      assert r == [r[0]] + r[1..] && s == [s[0]] + s[1..];
    }
  }

  lemma TailIsOrdered(r: seq<Entry>)
    requires Ordered(r) && r != []
    ensures Ordered(r[1..])
  {
  }

  lemma TailMembers(r: seq<Entry>)
    requires Ordered(r) && r != []
    ensures forall x :: x in r[1..] <==> x in r && x != r[0]
  {
    assert r == [r[0]] + r[1..];
  }

  lemma FirstIsFirst(r: seq<Entry>, s: seq<Entry>)
    requires Ordered(r) && Ordered(s) && r != [] && s != [] && forall x :: x in r <==> x in s
    ensures r[0] == s[0]
  {
    hide Before;
    assert r[0] in r && s[0] in s;
    var i :| 0 <= i < |s| && s[i] == r[0];
    var j :| 0 <= j < |r| && r[j] == s[0];
    BeforeOrder(r[0], s[0], r[0]);
  }
}
