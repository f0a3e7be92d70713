/**
 The payloadVariants column of event_conflicts: when is it the number of payloads really seen for the
 id? Conditions are on the rows of the windows alone.
 */
module ConflictCounts {
  import opened Bytes
  import opened Wrappers
  import opened Canonicalizer

  /** The stored count is the number of payloads ever seen for the id. */
  predicate Exact(t: Tables, seen: seq<Row>, id: string) {
    id in t.conflicts && t.conflicts[id].payloadVariants == |Hashes(id, seen)|
  }

  /** No stored count is too large. */
  ghost predicate Bounded(t: Tables, seen: seq<Row>) {
    forall id :: id in t.conflicts ==> t.conflicts[id].payloadVariants <= |Hashes(id, seen)|
  }

  lemma HashesOfBoth(id: string, a: seq<Row>, b: seq<Row>)
    ensures Hashes(id, a + b) == Hashes(id, a) + Hashes(id, b)
  {
    assert forall r :: r in a || r in b ==> r in a + b;
  }

  /** What a run compares, and so counts, if it finds the id in conflict. */
  lemma ComparedHashes(t: Tables, seen: seq<Row>, candidates: seq<Row>, id: string)
    requires Faithful(t, seen) && id in Ids(candidates)
    ensures Hashes(id, Compared(candidates, t.canonical))
         == Hashes(id, candidates) + if Disputed(id, seen) then {} else Hashes(id, seen)
  {
    var matching := Restrict(t.canonical, Ids(candidates), true);
    HashesOfBoth(id, candidates, matching);
    if Disputed(id, seen) {
      assert Hashes(id, matching) == {};
    } else {
      forall h ensures h in Hashes(id, matching) <==> h in Hashes(id, seen) {
        if h in Hashes(id, seen) {
          var r :| r in seen && r.eventId == id && r.payloadHash == h;
          var c :| c in t.canonical && c.eventId == id;
          assert c in seen && Variant(c) == Variant(r);
          assert c in matching;
        }
      }
    }
  }

  /** A conflict already known is found again exactly if the window disputes it by itself; a new one is
      always found. */
  lemma DetectedIff(t: Tables, seen: seq<Row>, candidates: seq<Row>, now: int, id: string)
    requires Faithful(t, seen)
    ensures id in CurrentConflicts(Compared(candidates, t.canonical), now)
       <==> if Disputed(id, seen) then Disputed(id, candidates) else Disputed(id, seen + candidates)
  {
    var compared := Compared(candidates, t.canonical);
    CurrentIffDisputed(id, compared, now);
    if Disputed(id, seen) {
      assert forall r :: r in compared && r.eventId == id ==> r in candidates;
      assert forall r :: r in candidates ==> r in compared;
    } else {
      assert forall r :: r in compared ==> r in seen + candidates;
      if Disputed(id, seen + candidates) {
        NewDisputeIsCompared(t, seen, candidates, id);
      }
    }
  }

  lemma DetectedIsCandidate(t: Tables, candidates: seq<Row>, now: int, id: string)
    requires id in CurrentConflicts(Compared(candidates, t.canonical), now)
    ensures id in Ids(candidates)
  {
    hide Clashes;
  }

  lemma StoredCount(t: Tables, candidates: seq<Row>, now: int, id: string)
    ensures var current := CurrentConflicts(Compared(candidates, t.canonical), now);
            var after := Reconcile(t, candidates, now).conflicts;
            && (id in current ==>
                  id in after && after[id].payloadVariants == |Hashes(id, Compared(candidates, t.canonical))|)
            && (id !in current && id in t.conflicts ==> id in after && after[id] == t.conflicts[id])
  {
    hide Winners, Compared, Restrict, Clashes;
  }

  /** What one run leaves in the column for an id that is disputed by then. */
  lemma CountAfterRun(t: Tables, seen: seq<Row>, candidates: seq<Row>, now: int, id: string)
    requires Faithful(t, seen) && Disputed(id, seen + candidates)
    ensures id in Reconcile(t, candidates, now).conflicts
    ensures var stored := Reconcile(t, candidates, now).conflicts[id].payloadVariants;
            if !Disputed(id, seen) then stored == |Hashes(id, seen + candidates)|
            else if Disputed(id, candidates) then stored == |Hashes(id, candidates)|
            else id in t.conflicts && stored == t.conflicts[id].payloadVariants
  {
    hide Reconcile, Compared, CurrentConflicts, Hashes, Disputed;
    DetectedIff(t, seen, candidates, now, id);
    StoredCount(t, candidates, now, id);
    if id in CurrentConflicts(Compared(candidates, t.canonical), now) {
      DetectedIsCandidate(t, candidates, now, id);
      ComparedHashes(t, seen, candidates, id);
      HashesOfBoth(id, seen, candidates);
      assert Hashes(id, candidates) + Hashes(id, seen) == Hashes(id, seen) + Hashes(id, candidates);
    }
  }

  lemma CountsStayBounded(t: Tables, seen: seq<Row>, candidates: seq<Row>, now: int)
    requires Faithful(t, seen) && Bounded(t, seen)
    ensures Bounded(Reconcile(t, candidates, now), seen + candidates)
  {
    hide Reconcile, Hashes, Disputed;
    var t' := Reconcile(t, candidates, now);
    RunKeepsFaithful(t, seen, candidates, now);
    forall id | id in t'.conflicts ensures t'.conflicts[id].payloadVariants <= |Hashes(id, seen + candidates)| {
      CountAfterRun(t, seen, candidates, now, id);
      HashesOfBoth(id, seen, candidates);
      SubsetSize(Hashes(id, seen), Hashes(id, seen + candidates));
      SubsetSize(Hashes(id, candidates), Hashes(id, seen + candidates));
    }
  }

  /** Exactly when the column is right after a run, for every id in conflict: at once when the conflict
      is new; when the window disputes the id again, if it holds every payload seen before; and
      otherwise, if the column was right and the window brings no new payload. */
  lemma VariantCountExactIff(t: Tables, seen: seq<Row>, candidates: seq<Row>, now: int, id: string)
    requires Faithful(t, seen) && Bounded(t, seen) && Disputed(id, seen + candidates)
    ensures Exact(Reconcile(t, candidates, now), seen + candidates, id)
       <==> if !Disputed(id, seen) then true
            else if Disputed(id, candidates) then Hashes(id, seen) <= Hashes(id, candidates)
            else Exact(t, seen, id) && Hashes(id, candidates) <= Hashes(id, seen)
  {
    hide Reconcile, Hashes, Disputed;
    CountAfterRun(t, seen, candidates, now, id);
    HashesOfBoth(id, seen, candidates);
    var old', new' := Hashes(id, seen), Hashes(id, candidates);
    SubsetSize(old', old' + new');
    SubsetSize(new', old' + new');
    assert new' == old' + new' <==> old' <= new';
    assert old' == old' + new' <==> new' <= old';
  }

  // ----- whole histories -----

  lemma {:induction false} HistoryIsBounded(passes: seq<Pass>)
    ensures Bounded(After(passes), Seen(passes))
  {
    hide Reconcile, Hashes;
    if passes == [] {
      assert After(passes).conflicts == map[];
    } else {
      var before, last := passes[..|passes| - 1], passes[|passes| - 1];
      HistoryIsBounded(before);
      HistoryIsFaithful(before);
      CountsStayBounded(After(before), Seen(before), last.candidates, last.now);
    }
  }

  /** Run `k` is the last to count the payloads of `id`: the first by which it is disputed, or a later
      one whose own window disputes it. */
  ghost predicate CountedLast(passes: seq<Pass>, id: string, k: nat) {
    && k < |passes| && Disputed(id, Seen(passes[..k + 1]))
    && (Disputed(id, Seen(passes[..k])) ==> Disputed(id, passes[k].candidates))
    && (forall j :: k < j < |passes| ==> !Disputed(id, passes[j].candidates))
  }

  /** The payloads run `k` had before it. */
  ghost function Counted(passes: seq<Pass>, id: string, k: nat): set<Option<bytes>>
    requires k < |passes|
  {
    if Disputed(id, Seen(passes[..k])) then Hashes(id, passes[k].candidates)
    else Hashes(id, Seen(passes[..k + 1]))
  }

  lemma Prefixes(passes: seq<Pass>, k: nat)
    requires passes != [] && k <= |passes| - 1
    ensures passes[..|passes| - 1][..k] == passes[..k]
  {
  }

  lemma DisputedBefore(passes: seq<Pass>, id: string)
    requires passes != [] && Disputed(id, Seen(passes[..|passes| - 1]))
    ensures Disputed(id, Seen(passes))
  {
    assert forall r :: r in Seen(passes[..|passes| - 1]) ==> r in Seen(passes);
  }

  lemma {:induction false} SomeRunCounted(passes: seq<Pass>, id: string) returns (k: nat)
    requires Disputed(id, Seen(passes))
    ensures CountedLast(passes, id, k)
  {
    hide Disputed;
    assert passes != [] by { assert !Disputed(id, []) by { NothingDisputed(id); } }
    var n := |passes| - 1;
    assert passes[..n + 1] == passes;
    if !Disputed(id, Seen(passes[..n])) || Disputed(id, passes[n].candidates) {
      k := n;
    } else {
      k := SomeRunCounted(passes[..n], id);
      Prefixes(passes, k);
      Prefixes(passes, k + 1);
      assert forall j :: k < j < n ==> passes[..n][j] == passes[j];
    }
  }

  lemma NothingDisputed(id: string)
    ensures !Disputed(id, [])
  {
  }

  /** The column holds the number of payloads that the last counting run had before it. */
  lemma {:induction false} CountOverHistory(passes: seq<Pass>, id: string, k: nat)
    requires CountedLast(passes, id, k)
    ensures id in After(passes).conflicts
    ensures After(passes).conflicts[id].payloadVariants == |Counted(passes, id, k)|
  {
    hide Disputed, Hashes, Reconcile;
    var n := |passes| - 1;
    var before, last := passes[..n], passes[n];
    HistoryIsFaithful(before);
    assert passes[..n + 1] == passes;
    if k == n {
      CountAfterRun(After(before), Seen(before), last.candidates, last.now, id);
    } else {
      Prefixes(passes, k);
      Prefixes(passes, k + 1);
      assert forall j :: k < j < n ==> before[j] == passes[j];
      CountOverHistory(before, id, k);
      assert Disputed(id, Seen(before));
      DisputedBefore(passes, id);
      CountAfterRun(After(before), Seen(before), last.candidates, last.now, id);
    }
  }

  lemma {:induction false} CountedWereSeen(passes: seq<Pass>, id: string, k: nat)
    requires k < |passes|
    ensures Counted(passes, id, k) <= Hashes(id, Seen(passes))
  {
    hide Disputed, Hashes;
    var n := |passes| - 1;
    assert passes[..n + 1] == passes;
    HashesOfBoth(id, Seen(passes[..n]), passes[n].candidates);
    if k < n {
      Prefixes(passes, k);
      Prefixes(passes, k + 1);
      CountedWereSeen(passes[..n], id, k);
    }
  }

  /** Over any sequence of windows the column is right if and only if the last counting run had every
      payload of the id before it; and each id in conflict has such a run. */
  lemma HistoryCountExactIff(passes: seq<Pass>, id: string, k: nat)
    requires CountedLast(passes, id, k)
    ensures Exact(After(passes), Seen(passes), id) <==> Hashes(id, Seen(passes)) <= Counted(passes, id, k)
  {
    hide Disputed, Hashes, After, Seen, CountedLast, Counted;
    CountOverHistory(passes, id, k);
    assert k < |passes| by { CountingRunExists(passes, id, k); }
    CountedWereSeen(passes, id, k);
    var some, overall := Counted(passes, id, k), Hashes(id, Seen(passes));
    SubsetSize(some, overall);
    assert overall <= some ==> some == overall;
  }

  lemma CountingRunExists(passes: seq<Pass>, id: string, k: nat)
    requires CountedLast(passes, id, k)
    ensures k < |passes|
  {
  }

  // ----- two inputs for which the column is wrong -----

  function Sample(payload: byte): Row {
    Row("e", "post.liked", 0, Some([payload]), None, None, None, 0)
  }

  lemma SamplesDiffer(a: byte, b: byte)
    requires a != b
    ensures Sample(a).payloadHash != Sample(b).payloadHash && Variant(Sample(a)) != Variant(Sample(b))
  {
    assert [a][0] != [b][0];
  }

  lemma TwoSamples(a: byte, b: byte, rows: seq<Row>)
    requires a != b && Sample(a) in rows && Sample(b) in rows
    ensures Disputed("e", rows)
  {
    SamplesDiffer(a, b);
  }

  lemma ThreePayloads(rows: seq<Row>)
    requires forall r :: r in rows <==> r == Sample(1) || r == Sample(2) || r == Sample(3)
    ensures |Hashes("e", rows)| == 3
  {
    SamplesDiffer(1, 2);
    SamplesDiffer(1, 3);
    SamplesDiffer(2, 3);
    assert Hashes("e", rows) == {Sample(1).payloadHash, Sample(2).payloadHash, Sample(3).payloadHash};
  }

  lemma TwoPayloads(a: byte, b: byte)
    requires a != b
    ensures |Hashes("e", [Sample(a), Sample(b)])| == 2
  {
    SamplesDiffer(a, b);
    var rows := [Sample(a), Sample(b)];
    assert Sample(a) in rows && Sample(b) in rows;
    assert Hashes("e", rows) == {Sample(a).payloadHash, Sample(b).payloadHash};
  }

  lemma SeenOfTwo(a: Pass, b: Pass)
    ensures Seen([a]) == a.candidates && Seen([a, b]) == a.candidates + b.candidates
    ensures After([a, b]) == Reconcile(After([a]), b.candidates, b.now)
  {
    hide Reconcile;
    assert [a][..0] == [] && [a, b][..1] == [a];
  }

  /** Detected again with part of the payloads: a first window with 1 and 2, a second with 1 and 3. */
  lemma VariantCountFallsShort()
    ensures var passes := [Pass([Sample(1), Sample(2)], 0), Pass([Sample(1), Sample(3)], 1)];
            && "e" in After(passes).conflicts
            && After(passes).conflicts["e"].payloadVariants == 2
            && |Hashes("e", Seen(passes))| == 3
  {
    hide Reconcile, Hashes, Disputed, After, Seen;
    var a, b := Pass([Sample(1), Sample(2)], 0), Pass([Sample(1), Sample(3)], 1);
    SeenOfTwo(a, b);
    HistoryIsFaithful([a]);
    TwoSamples(1, 2, a.candidates);
    TwoSamples(1, 3, b.candidates);
    TwoSamples(1, 2, a.candidates + b.candidates);
    CountAfterRun(After([a]), a.candidates, b.candidates, 1, "e");
    TwoPayloads(1, 3);
    ThreePayloads(a.candidates + b.candidates);
  }

  /** Not detected again: a first window with 1 and 2, a second with 3 alone, which is never counted. */
  lemma LonePayloadIsNotCounted()
    ensures var passes := [Pass([Sample(1), Sample(2)], 0), Pass([Sample(3)], 1)];
            && "e" in After(passes).conflicts
            && After(passes).conflicts["e"].payloadVariants == 2
            && |Hashes("e", Seen(passes))| == 3
  {
    hide Reconcile, Hashes, After, Seen;
    var a, b := Pass([Sample(1), Sample(2)], 0), Pass([Sample(3)], 1);
    SeenOfTwo(a, b);
    TwoSamples(1, 2, a.candidates);
    TwoSamples(1, 2, a.candidates + b.candidates);
    FirstCount(a);
    HistoryIsFaithful([a]);
    CountAfterRun(After([a]), a.candidates, b.candidates, 1, "e");
    TwoPayloads(1, 2);
    ThreePayloads(a.candidates + b.candidates);
  }

  lemma FirstCount(a: Pass)
    requires Disputed("e", a.candidates)
    ensures "e" in After([a]).conflicts && After([a]).conflicts["e"].payloadVariants == |Hashes("e", a.candidates)|
  {
    hide Reconcile, Hashes;
    assert [a][..0] == [] && [] + a.candidates == a.candidates;
    HistoryIsFaithful([]);
    CountAfterRun(EMPTY, [], a.candidates, a.now, "e");
  }
}
