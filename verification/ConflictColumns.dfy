/**
 What the columns of event_conflicts hold and in which order copies of an event rank, said of the rows
 themselves: the MIN and MAX, the DISTINCT lists, which columns an update leaves, and the ORDER BY of
 ROW_NUMBER() (bq-sink/src/canonicalizer.ts).
 */
module ConflictColumns {
  import opened Bytes
  import opened Wrappers
  import opened Canonicalizer

  // ----- one run -----

  /** The run compares the row: a candidate, or what is published under the id of one. */
  ghost predicate Looked(t: Tables, candidates: seq<Row>, id: string, r: Row) {
    r.eventId == id && (r in candidates || (r in t.canonical && exists c :: c in candidates && c.eventId == id))
  }

  /** Two compared rows of the id differ in type or payload. */
  ghost predicate Differ(t: Tables, candidates: seq<Row>, id: string) {
    exists r, s :: Looked(t, candidates, id, r) && Looked(t, candidates, id, s)
                   && (r.eventType != s.eventType || r.payloadHash != s.payloadHash)
  }

  lemma LookedIsCompared(t: Tables, candidates: seq<Row>, id: string)
    ensures forall r :: Looked(t, candidates, id, r) <==> r in Compared(candidates, t.canonical) && r.eventId == id
  {
    forall r: Row | r.eventId == id
      ensures Looked(t, candidates, id, r) <==> r in Compared(candidates, t.canonical)
    {
      assert id in Ids(candidates) <==> exists c :: c in candidates && c.eventId == id;
    }
  }

  lemma DifferIffCurrent(t: Tables, candidates: seq<Row>, now: int, id: string)
    ensures Differ(t, candidates, id) <==> id in CurrentConflicts(Compared(candidates, t.canonical), now)
  {
    hide Looked, Compared, CurrentConflicts;
    var compared := Compared(candidates, t.canonical);
    LookedIsCompared(t, candidates, id);
    CurrentIffDisputed(id, compared, now);
    if Differ(t, candidates, id) {
      var r, s :| Looked(t, candidates, id, r) && Looked(t, candidates, id, s)
                  && (r.eventType != s.eventType || r.payloadHash != s.payloadHash);
      assert Variant(r) != Variant(s);
    }
    if Disputed(id, compared) {
      var r, s :| r in compared && s in compared && r.eventId == id && s.eventId == id && Variant(r) != Variant(s);
      assert Looked(t, candidates, id, r) && Looked(t, candidates, id, s);
    }
  }

  /** MIN(ingestedAt) and MAX(ingestedAt) over a group. */
  lemma {:induction false} SpanIsExact(id: string, rows: seq<Row>)
    requires exists r :: r in rows && r.eventId == id
    ensures forall r :: r in rows && r.eventId == id ==> Earliest(id, rows) <= r.ingestedAt <= Latest(id, rows)
    ensures exists r :: r in rows && r.eventId == id && r.ingestedAt == Earliest(id, rows)
    ensures exists r :: r in rows && r.eventId == id && r.ingestedAt == Latest(id, rows)
  {
    var head, tail := rows[0], rows[1..];
    assert rows == [head] + tail;
    if exists r :: r in tail && r.eventId == id {
      SpanIsExact(id, tail);
      assert id in Ids(tail);
    }
  }

  /** What one run leaves in the columns of an id, whatever the tables held: a dispute it finds is written
      from the compared rows, but a conflict already recorded keeps its firstSeenAt; one it does not find
      stays as recorded, column for column. */
  lemma ColumnsAfterRun(t: Tables, candidates: seq<Row>, now: int, id: string)
    ensures var after := Reconcile(t, candidates, now).conflicts;
            && (id in after <==> id in t.conflicts || Differ(t, candidates, id))
            && (id in t.conflicts && !Differ(t, candidates, id) ==> after[id] == t.conflicts[id])
    ensures Differ(t, candidates, id) ==>
              var c := Reconcile(t, candidates, now).conflicts[id];
              && c.detectedAt == now
              && (id in t.conflicts ==> c.firstSeenAt == t.conflicts[id].firstSeenAt)
              && (id !in t.conflicts ==>
                    && (forall r :: Looked(t, candidates, id, r) ==> c.firstSeenAt <= r.ingestedAt)
                    && (exists r :: Looked(t, candidates, id, r) && c.firstSeenAt == r.ingestedAt))
              && (forall r :: Looked(t, candidates, id, r) ==> r.ingestedAt <= c.lastSeenAt)
              && (exists r :: Looked(t, candidates, id, r) && r.ingestedAt == c.lastSeenAt)
              && (forall y :: y in c.eventTypes <==> exists r :: Looked(t, candidates, id, r) && r.eventType == y)
  {
    hide Looked, Compared, Winners, Restrict, Clashes;
    var compared := Compared(candidates, t.canonical);
    LookedIsCompared(t, candidates, id);
    DifferIffCurrent(t, candidates, now, id);
    if Differ(t, candidates, id) {
      var r0 :| Looked(t, candidates, id, r0);
      assert r0 in compared && r0.eventId == id;
      SpanIsExact(id, compared);
    }
  }

  /** A run that stops behind its first statement has recorded the conflicts, behind its second also taken
      the disputed ids out of canonical_events, and only behind its third added the winners. */
  lemma StoppedRunIs(t: Tables, candidates: seq<Row>, now: int, done: nat)
    ensures var s, whole := Stopped(t, candidates, now, done), Reconcile(t, candidates, now);
            && s.conflicts == (if done == 0 then t.conflicts else whole.conflicts)
            && (done <= 1 ==> s.canonical == t.canonical)
            && (done >= 3 ==> s.canonical == whole.canonical)
            && (done == 2 ==>
                  && s.canonical <= whole.canonical
                  && forall r :: r in s.canonical <==> r in t.canonical && !Differ(t, candidates, r.eventId))
  {
    hide Differ, Winners, CurrentConflicts, Compared;
    if done == 2 {
      forall r ensures r in Stopped(t, candidates, now, done).canonical
                   <==> r in t.canonical && !Differ(t, candidates, r.eventId)
      {
        DifferIffCurrent(t, candidates, now, r.eventId);
      }
    }
  }

  // ----- whole histories -----

  /** Once recorded, a conflict is never taken back, and its firstSeenAt never changes. */
  lemma {:induction false} FirstSeenStays(passes: seq<Pass>, n: nat, id: string)
    requires n <= |passes| && id in After(passes[..n]).conflicts
    ensures id in After(passes).conflicts
    ensures After(passes).conflicts[id].firstSeenAt == After(passes[..n]).conflicts[id].firstSeenAt
    decreases |passes|
  {
    hide Reconcile, Differ;
    if n == |passes| {
      assert passes[..n] == passes;
    } else {
      var last := passes[|passes| - 1];
      var before := passes[..|passes| - 1];
      assert before[..n] == passes[..n];
      FirstSeenStays(before, n, id);
      ColumnsAfterRun(After(before), last.candidates, last.now, id);
    }
  }

  /** Run number k found the dispute in what it compared. */
  ghost predicate Finds(passes: seq<Pass>, k: nat, id: string) {
    k < |passes| && Differ(After(passes[..k]), passes[k].candidates, id)
  }

  lemma FindsBefore(passes: seq<Pass>, n: nat, k: nat, id: string)
    requires n <= |passes|
    ensures Finds(passes[..n], k, id) <==> k < n && Finds(passes, k, id)
  {
    hide Differ, After;
    if k < n {
      assert passes[..n][..k] == passes[..k];
    }
  }

  /** An id is in conflict exactly if some run has found it so. */
  lemma {:induction false} RecordedIffFound(passes: seq<Pass>, id: string)
    ensures id in After(passes).conflicts <==> exists k: nat :: Finds(passes, k, id)
  {
    hide Reconcile, Differ;
    if passes != [] {
      var n := |passes| - 1;
      var before, last := passes[..n], passes[n];
      RecordedIffFound(before, id);
      ColumnsAfterRun(After(before), last.candidates, last.now, id);
      assert Finds(passes, n, id) <==> Differ(After(before), last.candidates, id);
      forall k: nat ensures Finds(before, k, id) <==> k < n && Finds(passes, k, id) {
        FindsBefore(passes, n, k, id);
      }
      if k: nat :| Finds(passes, k, id) {
        assert k < n ==> Finds(before, k, id);
      }
      if k: nat :| Finds(before, k, id) {
        assert Finds(passes, k, id);
      }
    }
  }

  /** detectedAt is the time of the last run that found it. */
  lemma {:induction false} DetectedLast(passes: seq<Pass>, k: nat, id: string)
    requires Finds(passes, k, id) && forall j :: k < j < |passes| ==> !Finds(passes, j, id)
    ensures id in After(passes).conflicts && After(passes).conflicts[id].detectedAt == passes[k].now
    decreases |passes|
  {
    hide Reconcile, Differ;
    var n := |passes| - 1;
    var before, last := passes[..n], passes[n];
    ColumnsAfterRun(After(before), last.candidates, last.now, id);
    if k < n {
      assert !Finds(passes, n, id);
      forall j: nat ensures Finds(before, j, id) <==> j < n && Finds(passes, j, id) {
        FindsBefore(passes, n, j, id);
      }
      DetectedLast(before, k, id);
    }
  }

  // ----- the order of copies -----

  lemma {:induction false} CompareStringIsText(a: string, b: string)
    ensures CompareString(a, b) < 0 <==> TextBefore(a, b)
    ensures CompareString(a, b) == 0 <==> a == b
  {
    hide TextBefore;
    TextBeforeFirst(a, b);
    if a != [] && b != [] && a[0] == b[0] {
      TextBeforeRest(a, b);
      CompareStringIsText(a[1..], b[1..]);
      assert a == [a[0]] + a[1..] && b == [b[0]] + b[1..];
    }
  }

  /** NULL is before any number. */
  predicate NumberBefore(a: Option<int>, b: Option<int>) {
    b.Some? && (a.None? || a.value < b.value)
  }

  predicate TopicBefore(a: Option<string>, b: Option<string>) {
    b.Some? && (a.None? || TextBefore(a.value, b.value))
  }

  /** A copy ranks before another exactly by time of ingestion, then topic, then partition, then offset,
      each ascending with NULL first; and level exactly if it agrees in all four. */
  lemma RanksBeforeIff(a: Row, b: Row)
    ensures CompareRows(a, b) < 0 <==>
              || a.ingestedAt < b.ingestedAt
              || (a.ingestedAt == b.ingestedAt
                  && (|| TopicBefore(a.sourceTopic, b.sourceTopic)
                      || (a.sourceTopic == b.sourceTopic
                          && (|| NumberBefore(a.sourcePartition, b.sourcePartition)
                              || (a.sourcePartition == b.sourcePartition
                                  && NumberBefore(a.sourceOffset, b.sourceOffset))))))
    ensures CompareRows(a, b) == 0 <==>
              a.ingestedAt == b.ingestedAt && a.sourceTopic == b.sourceTopic
              && a.sourcePartition == b.sourcePartition && a.sourceOffset == b.sourceOffset
  {
    hide CompareString, TextBefore;
    if a.sourceTopic.Some? && b.sourceTopic.Some? {
      CompareStringIsText(a.sourceTopic.value, b.sourceTopic.value);
    }
  }
}
