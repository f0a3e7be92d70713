/**
 Which copy of an undisputed event canonical_events keeps. One run over everything keeps the copy that
 ranks first by ingestion time, topic, partition and offset; runs over windows may keep another.
 */
module CanonicalCopies {
  import opened Wrappers
  import opened Canonicalizer

  /** No row of the same id ranks before `r`. */
  predicate RanksFirst(r: Row, rows: seq<Row>) {
    forall x :: x in rows && x.eventId == r.eventId ==> CompareRows(r, x) <= 0
  }

  // ----- one run -----

  lemma UniqueRow(rows: seq<Row>, a: Row, b: Row)
    requires UniqueIds(rows) && a in rows && b in rows && a.eventId == b.eventId
    ensures a == b
  {
  }

  lemma StaysUndisputed(t: Tables, seen: seq<Row>, candidates: seq<Row>, now: int, id: string)
    requires Faithful(t, seen) && !Disputed(id, seen + candidates)
    ensures !Disputed(id, seen)
    ensures id !in CurrentConflicts(Compared(candidates, t.canonical), now)
    ensures id !in Reconcile(t, candidates, now).conflicts
  {
    hide Reconcile;
    var compared := Compared(candidates, t.canonical);
    CurrentIffDisputed(id, compared, now);
    ConflictsAfter(t, seen, candidates, now, id);
    assert forall r :: r in compared ==> r in seen + candidates;
    if Disputed(id, compared) {
      DisputedMonotone(id, compared, seen + candidates);
    }
    if Disputed(id, seen) {
      DisputedMonotone(id, seen, seen + candidates);
    }
  }

  /** A published row stays; a new one is the first of its window. */
  lemma RowAfterRun(t: Tables, seen: seq<Row>, candidates: seq<Row>, now: int, r: Row)
    requires Faithful(t, seen) && !Disputed(r.eventId, seen + candidates)
    requires r in Reconcile(t, candidates, now).canonical
    ensures r.eventId in Ids(t.canonical) <==> r.eventId in Ids(seen)
    ensures if r.eventId in Ids(seen) then r in t.canonical else r in candidates && RanksFirst(r, candidates)
  {
    hide Reconcile, Disputed, CurrentConflicts, Compared, CompareRows;
    StaysUndisputed(t, seen, candidates, now, r.eventId);
    CanonicalAfter(t, candidates, now);
    if r.eventId in Ids(seen) {
      assert exists x :: x in seen && x.eventId == r.eventId;
      var c :| c in t.canonical && c.eventId == r.eventId;
      UniqueRow(Reconcile(t, candidates, now).canonical, r, c);
    } else {
      NewRowWins(t, candidates, now, r);
    }
  }

  lemma NewRowWins(t: Tables, candidates: seq<Row>, now: int, r: Row)
    requires r in Reconcile(t, candidates, now).canonical && r !in t.canonical
    requires r.eventId !in CurrentConflicts(Compared(candidates, t.canonical), now)
    requires r.eventId !in Reconcile(t, candidates, now).conflicts
    ensures RanksFirst(r, candidates)
  {
    hide CurrentConflicts, Compared, CompareRows, Winners;
    var current := CurrentConflicts(Compared(candidates, t.canonical), now);
    var conflicts := Reconcile(t, candidates, now).conflicts;
    var open := Restrict(Restrict(candidates, current.Keys, false), conflicts.Keys, false);
    assert r in Winners(open);
    WinnersRankFirst(open);
    assert forall x :: x in candidates && x.eventId == r.eventId ==> x in open;
  }

  /** After a run the row kept for an undisputed id ranks first among all rows seen if and only if it
      did so before and no candidate ranks before it; for an id seen for the first time it always does. */
  lemma KeptRowRanksFirstIff(t: Tables, seen: seq<Row>, candidates: seq<Row>, now: int, r: Row)
    requires Faithful(t, seen) && !Disputed(r.eventId, seen + candidates)
    requires r in Reconcile(t, candidates, now).canonical
    ensures RanksFirst(r, seen + candidates)
       <==> (r.eventId in Ids(seen) ==> r in t.canonical && RanksFirst(r, seen) && RanksFirst(r, candidates))
  {
    hide Reconcile, Disputed, CompareRows;
    RowAfterRun(t, seen, candidates, now, r);
    assert forall x :: x in seen || x in candidates ==> x in seen + candidates;
  }

  // ----- whole histories -----

  /** Window `k` is the first that holds a row of the id. */
  predicate FirstWindow(passes: seq<Pass>, id: string, k: nat) {
    k < |passes| && id in Ids(passes[k].candidates) && id !in Ids(Seen(passes[..k]))
  }

  lemma IdsSeen(passes: seq<Pass>)
    requires passes != []
    ensures Ids(Seen(passes)) == Ids(Seen(passes[..|passes| - 1])) + Ids(passes[|passes| - 1].candidates)
  {
    var a, b := Seen(passes[..|passes| - 1]), passes[|passes| - 1].candidates;
    assert Seen(passes) == a + b;
    assert forall r :: r in a || r in b ==> r in a + b;
  }

  lemma {:induction false} SomeWindowIsFirst(passes: seq<Pass>, id: string) returns (k: nat)
    requires id in Ids(Seen(passes))
    ensures FirstWindow(passes, id, k)
  {
    hide Ids;
    assert passes != [] by { assert id !in Ids([]) by { NoIds(); } }
    var n := |passes| - 1;
    IdsSeen(passes);
    if id in Ids(Seen(passes[..n])) {
      k := SomeWindowIsFirst(passes[..n], id);
      assert passes[..n][..k] == passes[..k];
    } else {
      k := n;
    }
  }

  lemma {:induction false} SeenAfterFirst(passes: seq<Pass>, id: string, k: nat)
    requires FirstWindow(passes, id, k) && k < |passes| - 1
    ensures FirstWindow(passes[..|passes| - 1], id, k) && id in Ids(Seen(passes[..|passes| - 1]))
  {
    hide Ids;
    var before := passes[..|passes| - 1];
    assert before[..k] == passes[..k];
    IdsSeen(before);
    if k < |before| - 1 {
      SeenAfterFirst(before, id, k);
    }
  }

  /** The row kept is the first of the first window that held the id, however the history goes on. */
  lemma {:induction false} KeptFromFirstWindow(passes: seq<Pass>, r: Row, k: nat)
    requires FirstWindow(passes, r.eventId, k) && !Disputed(r.eventId, Seen(passes))
    requires r in After(passes).canonical
    ensures r in passes[k].candidates && RanksFirst(r, passes[k].candidates)
  {
    hide Reconcile, Disputed, CompareRows, Ids, RanksFirst;
    var n := |passes| - 1;
    var before, last := passes[..n], passes[n];
    HistoryIsFaithful(before);
    RowAfterRun(After(before), Seen(before), last.candidates, last.now, r);
    StaysUndisputed(After(before), Seen(before), last.candidates, last.now, r.eventId);
    if k < n {
      SeenAfterFirst(passes, r.eventId, k);
      KeptFromFirstWindow(before, r, k);
    }
  }

  /** A row of `rows` that ranks first shares that place with every other one that does. */
  lemma FirstIsShared(a: Row, b: Row, rows: seq<Row>)
    requires a in rows && b in rows && a.eventId == b.eventId && RanksFirst(a, rows)
    ensures RanksFirst(b, rows) <==> CompareRows(b, a) <= 0
  {
    hide CompareRows;
    forall x | CompareRows(b, a) <= 0 && x in rows && x.eventId == b.eventId ensures CompareRows(b, x) <= 0 {
      CompareRowsOrder(b, a, x);
    }
  }

  lemma {:induction false} WindowWasSeen(passes: seq<Pass>, k: nat)
    requires k < |passes|
    ensures forall x :: x in passes[k].candidates ==> x in Seen(passes)
  {
    if k < |passes| - 1 {
      WindowWasSeen(passes[..|passes| - 1], k);
    }
  }

  /** One run over everything seen keeps a row that ranks first. */
  lemma BatchRanksFirst(rows: seq<Row>, now: int, b: Row)
    requires !Disputed(b.eventId, rows) && b in After([Pass(rows, now)]).canonical
    ensures b in rows && RanksFirst(b, rows)
  {
    hide Reconcile, Disputed, CompareRows;
    var one := [Pass(rows, now)];
    assert one[..0] == [] && Seen(one) == [] + rows == rows;
    assert b.eventId in Ids(rows) by {
      HistoryIsFaithful(one);
    }
    KeptFromFirstWindow(one, b, 0);
  }

  lemma OppositeRanks(a: Row, b: Row)
    ensures CompareRows(a, b) == -CompareRows(b, a)
  {
    hide CompareString;
    if a.sourceTopic.Some? && b.sourceTopic.Some? {
      CompareStringOrder(a.sourceTopic.value, b.sourceTopic.value, []);
    }
  }

  /** No two rows of the id share their rank: their places in Kafka tell them apart. */
  predicate RanksDiffer(id: string, rows: seq<Row>) {
    forall x, y :: x in rows && y in rows && x.eventId == id && y.eventId == id && CompareRows(x, y) == 0 ==> x == y
  }

  /** Row for row: the windows and one run over everything keep the same row of an undisputed id if and
      only if the first window to hold the id held a row that no row of any window ranks before. (Rows
      of equal rank may stand for each other.) */
  lemma KeptIsBatchWinnerIff(passes: seq<Pass>, now: int, r: Row, b: Row, k: nat)
    requires !Disputed(r.eventId, Seen(passes)) && FirstWindow(passes, r.eventId, k)
    requires r in After(passes).canonical
    requires b in After([Pass(Seen(passes), now)]).canonical && b.eventId == r.eventId
    ensures var hadFirst :=
              exists x :: x in passes[k].candidates && x.eventId == r.eventId && RanksFirst(x, Seen(passes));
            && (CompareRows(r, b) == 0 <==> hadFirst)
            && (RanksDiffer(r.eventId, Seen(passes)) ==> (r == b <==> hadFirst))
  {
    hide After, Seen, Disputed, CompareRows, FirstWindow, RanksFirst;
    OppositeRanks(r, b);
    CompareRowsOrder(r, b, r);
    var all := Seen(passes);
    BatchRanksFirst(all, now, b);
    FirstWindowExists(passes, r.eventId, k);
    KeptFromFirstWindow(passes, r, k);
    WindowWasSeen(passes, k);
    FirstIsShared(b, r, all);
    RanksBefore(b, r, all);
    if x :| x in passes[k].candidates && x.eventId == r.eventId && RanksFirst(x, all) {
      FirstIsShared(x, r, all);
      RanksBefore(r, x, passes[k].candidates);
    }
  }

  lemma RanksBefore(r: Row, x: Row, rows: seq<Row>)
    requires RanksFirst(r, rows) && x in rows && x.eventId == r.eventId
    ensures CompareRows(r, x) <= 0
  {
  }

  lemma FirstWindowExists(passes: seq<Pass>, id: string, k: nat)
    requires FirstWindow(passes, id, k)
    ensures k < |passes|
  {
  }

  // ----- windows that keep another row than one run over everything -----

  function Copy(ingestedAt: int): Row {
    Row("e", "post.liked", ingestedAt, None, None, None, None, 0)
  }

  /** A copy ingested earlier arrives only in the second window: the later one stays. */
  lemma LaterCopyStays()
    ensures var passes := [Pass([Copy(2)], 0), Pass([Copy(1), Copy(2)], 1)];
            && (forall r :: r in After(passes).canonical ==> r == Copy(2))
            && (forall b :: b in After([Pass(Seen(passes), 1)]).canonical ==> b == Copy(1))
            && After(passes).canonical != [] && After([Pass(Seen(passes), 1)]).canonical != []
  {
    hide Reconcile, CompareRows, After, RanksFirst;
    var first := Pass([Copy(2)], 0);
    var passes := [first, Pass([Copy(1), Copy(2)], 1)];
    assert passes[..1] == [first] && [first][..0] == [] && passes[..0] == [];
    var all := Seen(passes);
    assert Seen([first]) == [Copy(2)];
    assert all == [Copy(2), Copy(1), Copy(2)];
    assert all[0] == Copy(2) && all[1] == Copy(1);
    assert FirstWindow(passes, "e", 0) by { assert Copy(2) in passes[0].candidates; }
    HistoryIsFaithful(passes);
    HistoryIsFaithful([Pass(all, 1)]);
    assert [Pass(all, 1)][..0] == [] && Seen([Pass(all, 1)]) == all;
    assert !Disputed("e", all);
    assert Copy(1) in all;
    forall r | r in After(passes).canonical ensures r == Copy(2) {
      assert r.eventId == "e";
      KeptFromFirstWindow(passes, r, 0);
    }
    forall b | b in After([Pass(all, 1)]).canonical ensures b == Copy(1) {
      assert b.eventId == "e";
      BatchRanksFirst(all, 1, b);
      RanksBefore(b, Copy(1), all);
      assert CompareRows(Copy(2), Copy(1)) > 0 by { EarlierRanksFirst(); }
    }
    assert Copy(1).eventId in Ids(After(passes).canonical);
  }

  lemma EarlierRanksFirst()
    ensures CompareRows(Copy(2), Copy(1)) > 0
  {
  }
}
