/**
 The raw-to-canonical reconciliation of bq-sink/src/canonicalizer.ts, from the candidate rows to the
 MERGE into canonical_events. A run sees one window of raw rows and the two tables; windows overlap,
 repeat and arrive in any order.
 */
module Canonicalizer {
  import opened Bytes
  import opened Wrappers

  /** One row of `candidate_events`. `rest` stands for the columns that no statement looks at. */
  datatype Row = Row(
    eventId: string,
    eventType: string,
    ingestedAt: int,
    payloadHash: Option<bytes>,
    sourceTopic: Option<string>,
    sourcePartition: Option<int>,
    sourceOffset: Option<int>,
    rest: nat)

  datatype Conflict = Conflict(
    firstSeenAt: int, lastSeenAt: int, payloadVariants: nat, eventTypes: set<string>, detectedAt: int)

  datatype Tables = Tables(canonical: seq<Row>, conflicts: map<string, Conflict>)

  const EMPTY := Tables([], map[])

  // ----- candidate_events -----

  /** The raw rows at or after the cut-off of a lookback window. */
  function Window(raw: seq<Row>, since: int): seq<Row> {
    if raw == [] then []
    else (if raw[0].ingestedAt >= since then [raw[0]] else []) + Window(raw[1..], since)
  }

  // ----- current_conflicts -----

  function Ids(rows: seq<Row>): set<string> {
    set r | r in rows :: r.eventId
  }

  function Hashes(id: string, rows: seq<Row>): set<Option<bytes>> {
    set r | r in rows && r.eventId == id :: r.payloadHash
  }

  function Types(id: string, rows: seq<Row>): set<string> {
    set r | r in rows && r.eventId == id :: r.eventType
  }

  /** Rows whose eventId is in (or, with `keep` false, not in) `ids`. */
  function Restrict(rows: seq<Row>, ids: set<string>, keep: bool): (r: seq<Row>)
    ensures forall x :: x in r <==> x in rows && ((x.eventId in ids) == keep)
  {
    if rows == [] then []
    else (if (rows[0].eventId in ids) == keep then [rows[0]] else []) + Restrict(rows[1..], ids, keep)
  }

  function Compared(candidates: seq<Row>, canonical: seq<Row>): seq<Row> {
    candidates + Restrict(canonical, Ids(candidates), true)
  }

  /** HAVING payloadVariants > 1 OR ARRAY_LENGTH(eventTypes) > 1 */
  predicate Clashes(id: string, rows: seq<Row>) {
    |Hashes(id, rows)| > 1 || |Types(id, rows)| > 1
  }

  function Earliest(id: string, rows: seq<Row>): int {
    if rows == [] then 0
    else if rows[0].eventId != id then Earliest(id, rows[1..])
    else if id !in Ids(rows[1..]) || rows[0].ingestedAt < Earliest(id, rows[1..]) then rows[0].ingestedAt
    else Earliest(id, rows[1..])
  }

  function Latest(id: string, rows: seq<Row>): int {
    if rows == [] then 0
    else if rows[0].eventId != id then Latest(id, rows[1..])
    else if id !in Ids(rows[1..]) || rows[0].ingestedAt > Latest(id, rows[1..]) then rows[0].ingestedAt
    else Latest(id, rows[1..])
  }

  function CurrentConflicts(compared: seq<Row>, now: int): map<string, Conflict> {
    map id | id in Ids(compared) && Clashes(id, compared) ::
      Conflict(Earliest(id, compared), Latest(id, compared), |Hashes(id, compared)|, Types(id, compared), now)
  }

  // ----- MERGE event_conflicts -----

  function MergeConflicts(target: map<string, Conflict>, source: map<string, Conflict>): map<string, Conflict> {
    map id | id in target.Keys + source.Keys ::
      if id !in source then target[id]
      else if id in target then source[id].(firstSeenAt := target[id].firstSeenAt)
      else source[id]
  }

  // ----- winners -----

  function CompareInt(a: int, b: int): int {
    if a < b then -1 else if a > b then 1 else 0
  }

  function CompareString(a: string, b: string): int {
    if a == b then 0
    else if a == [] then -1
    else if b == [] then 1
    else if a[0] != b[0] then (if a[0] < b[0] then -1 else 1)
    else CompareString(a[1..], b[1..])
  }

  /** Ascending order puts NULL first. */
  function CompareRows(a: Row, b: Row): int {
    var byTime := CompareInt(a.ingestedAt, b.ingestedAt);
    if byTime != 0 then byTime
    else
      var byTopic :=
        if a.sourceTopic.None? || b.sourceTopic.None?
        then CompareInt(if a.sourceTopic.None? then 0 else 1, if b.sourceTopic.None? then 0 else 1)
        else CompareString(a.sourceTopic.value, b.sourceTopic.value);
      if byTopic != 0 then byTopic
      else
        var byPartition := CompareNullable(a.sourcePartition, b.sourcePartition);
        if byPartition != 0 then byPartition else CompareNullable(a.sourceOffset, b.sourceOffset)
  }

  function CompareNullable(a: Option<int>, b: Option<int>): int {
    if a.None? || b.None? then CompareInt(if a.None? then 0 else 1, if b.None? then 0 else 1)
    else CompareInt(a.value, b.value)
  }

  /** Keep, of each eventId, the row that ranks first so far. */
  function Rank(winners: seq<Row>, r: Row): seq<Row> {
    if winners == [] then [r]
    else if winners[0].eventId == r.eventId then
      [if CompareRows(r, winners[0]) < 0 then r else winners[0]] + winners[1..]
    else [winners[0]] + Rank(winners[1..], r)
  }

  function Winners(rows: seq<Row>): seq<Row> {
    if rows == [] then [] else Rank(Winners(rows[..|rows| - 1]), rows[|rows| - 1])
  }

  // ----- the run -----

  /** The statements in order. */
  function Reconcile(t: Tables, candidates: seq<Row>, now: int): Tables {
    var current := CurrentConflicts(Compared(candidates, t.canonical), now);
    var conflicts := MergeConflicts(t.conflicts, current);
    var kept := Restrict(t.canonical, current.Keys, false);
    var winners := Winners(Restrict(Restrict(candidates, current.Keys, false), conflicts.Keys, false));
    Tables(kept + Restrict(winners, Ids(kept), false), conflicts)
  }

  /** The tables after the first `done` of the three statements that change them. */
  function Stopped(t: Tables, candidates: seq<Row>, now: int, done: nat): Tables {
    var current := CurrentConflicts(Compared(candidates, t.canonical), now);
    if done == 0 then t
    else if done == 1 then t.(conflicts := MergeConflicts(t.conflicts, current))
    else if done == 2 then
      Tables(Restrict(t.canonical, current.Keys, false), MergeConflicts(t.conflicts, current))
    else Reconcile(t, candidates, now)
  }

  /** The two tables as the script updates them. */
  class Dataset {
    var canonicalEvents: seq<Row>
    var eventConflicts: map<string, Conflict>

    constructor ()
      ensures View() == EMPTY
    {
      canonicalEvents, eventConflicts := [], map[];
    }

    function View(): Tables
      reads this
    {
      Tables(canonicalEvents, eventConflicts)
    }

    method Run(raw: seq<Row>, since: int, now: int)
      modifies this
      ensures View() == Reconcile(old(View()), Window(raw, since), now)
    {
      RunUntil(raw, since, now, 3);
    }

    /** The script is no transaction: it may stop behind any of its statements. */
    method RunUntil(raw: seq<Row>, since: int, now: int, done: nat)
      modifies this
      ensures View() == Stopped(old(View()), Window(raw, since), now, done)
    {
      if done == 0 { return; }
      var candidates := Window(raw, since);
      var current := CurrentConflicts(Compared(candidates, canonicalEvents), now);
      eventConflicts := MergeConflicts(eventConflicts, current);
      if done == 1 { return; }
      canonicalEvents := Restrict(canonicalEvents, current.Keys, false);
      if done == 2 { return; }
      var winners :=
        Winners(Restrict(Restrict(candidates, current.Keys, false), eventConflicts.Keys, false));
      canonicalEvents := canonicalEvents + Restrict(winners, Ids(canonicalEvents), false);
    }
  }

  // ----- what all runs keep -----

  function Variant(r: Row): (string, Option<bytes>) {
    (r.eventType, r.payloadHash)
  }

  /** Two rows of this id disagree on type or payload. */
  ghost predicate Disputed(id: string, seen: seq<Row>) {
    exists r, s :: r in seen && s in seen && r.eventId == id && s.eventId == id && Variant(r) != Variant(s)
  }

  predicate UniqueIds(rows: seq<Row>) {
    forall i, j :: 0 <= i < j < |rows| ==> rows[i].eventId != rows[j].eventId
  }

  /** The tables say exactly what the rows seen so far say, however they were windowed. */
  ghost predicate Faithful(t: Tables, seen: seq<Row>) {
    && (forall id :: id in t.conflicts <==> Disputed(id, seen))
    && UniqueIds(t.canonical)
    && (forall r :: r in t.canonical ==> r in seen && !Disputed(r.eventId, seen))
    && (forall r :: r in seen && !Disputed(r.eventId, seen) ==> r.eventId in Ids(t.canonical))
  }

  lemma {:induction false} TwoElements<T>(s: set<T>, a: T, b: T)
    requires a in s && b in s && a != b
    ensures |s| > 1
  {
    assert {a, b} <= s;
    SubsetSize({a, b}, s);
  }

  lemma {:induction false} SubsetSize<T>(a: set<T>, b: set<T>)
    requires a <= b
    ensures |a| <= |b|
    ensures |a| == |b| ==> a == b
  {
    if a != {} {
      var x :| x in a;
      SubsetSize(a - {x}, b - {x});
    }
  }

  lemma PickTwo<T>(s: set<T>) returns (a: T, b: T)
    requires |s| > 1
    ensures a in s && b in s && a != b
  {
    a :| a in s;
    assert |s - {a}| > 0;
    b :| b in s - {a};
  }

  /** The HAVING clause finds exactly the disputes among the compared rows. */
  lemma ClashesIffDisputed(id: string, rows: seq<Row>)
    ensures Clashes(id, rows) <==> Disputed(id, rows)
  {
    if |Hashes(id, rows)| > 1 {
      var a, b := PickTwo(Hashes(id, rows));
      var r :| r in rows && r.eventId == id && r.payloadHash == a;
      var s :| s in rows && s.eventId == id && s.payloadHash == b;
      assert Variant(r) != Variant(s);
    } else if |Types(id, rows)| > 1 {
      var a, b := PickTwo(Types(id, rows));
      var r :| r in rows && r.eventId == id && r.eventType == a;
      var s :| s in rows && s.eventId == id && s.eventType == b;
      assert Variant(r) != Variant(s);
    } else if Disputed(id, rows) {
      var r, s :| r in rows && s in rows && r.eventId == id && s.eventId == id && Variant(r) != Variant(s);
      if r.payloadHash != s.payloadHash {
        TwoElements(Hashes(id, rows), r.payloadHash, s.payloadHash);
      } else {
        TwoElements(Types(id, rows), r.eventType, s.eventType);
      }
    }
  }

  lemma CurrentIffDisputed(id: string, compared: seq<Row>, now: int)
    ensures id in CurrentConflicts(compared, now) <==> Disputed(id, compared)
  {
    ClashesIffDisputed(id, compared);
  }

  lemma DisputedMonotone(id: string, rows: seq<Row>, more: seq<Row>)
    requires Disputed(id, rows) && forall r :: r in rows ==> r in more
    ensures Disputed(id, more)
  {
  }

  /** Comparing the window with the canonical rows of its ids catches every new dispute. */
  lemma NewDisputeIsCompared(t: Tables, seen: seq<Row>, candidates: seq<Row>, id: string)
    requires Faithful(t, seen) && Disputed(id, seen + candidates) && !Disputed(id, seen)
    ensures Disputed(id, Compared(candidates, t.canonical))
  {
    var all := seen + candidates;
    var r, s :| r in all && s in all && r.eventId == id && s.eventId == id && Variant(r) != Variant(s);
    var compared := Compared(candidates, t.canonical);
    if r in candidates && s in candidates {
      assert r in compared && s in compared;
    } else {
      var old' := if r in candidates then s else r;
      var new' := if r in candidates then r else s;
      assert old' in seen;
      assert new' in candidates;
      var c :| c in t.canonical && c.eventId == id;
      assert c in seen;
      assert Variant(c) == Variant(old');
      assert new'.eventId in Ids(candidates);
      assert c in compared && new' in compared;
    }
  }

  lemma ConflictsAfter(t: Tables, seen: seq<Row>, candidates: seq<Row>, now: int, id: string)
    requires Faithful(t, seen)
    ensures id in Reconcile(t, candidates, now).conflicts <==> Disputed(id, seen + candidates)
  {
    var compared := Compared(candidates, t.canonical);
    CurrentIffDisputed(id, compared, now);
    if Disputed(id, compared) {
      assert forall r :: r in compared ==> r in seen + candidates;
      DisputedMonotone(id, compared, seen + candidates);
    }
    if Disputed(id, seen) {
      DisputedMonotone(id, seen, seen + candidates);
    } else if Disputed(id, seen + candidates) {
      NewDisputeIsCompared(t, seen, candidates, id);
    }
  }

  // ----- the winners -----

  lemma IdsOfCons(r: Row, rows: seq<Row>)
    ensures Ids([r] + rows) == {r.eventId} + Ids(rows)
  {
    assert r in [r] + rows;
    assert forall x :: x in rows ==> x in [r] + rows;
  }

  lemma {:induction false} RankKeeps(winners: seq<Row>, r: Row)
    requires UniqueIds(winners)
    ensures UniqueIds(Rank(winners, r))
    ensures Ids(Rank(winners, r)) == Ids(winners) + {r.eventId}
    ensures forall x :: x in Rank(winners, r) ==> x == r || x in winners
  {
    hide CompareRows, UniqueIds, Ids;
    if winners == [] {
      IdsOfCons(r, []);
      UniqueCons(r, []);
      NoIds();
      assert [r] + [] == [r];
    } else {
      var head, tail := winners[0], winners[1..];
      assert winners == [head] + tail;
      IdsOfCons(head, tail);
      UniqueCons(head, tail);
      if head.eventId == r.eventId {
        var first := if CompareRows(r, head) < 0 then r else head;
        IdsOfCons(first, tail);
        UniqueCons(first, tail);
      } else {
        RankKeeps(tail, r);
        IdsOfCons(head, Rank(tail, r));
        UniqueCons(head, Rank(tail, r));
      }
    }
  }

  lemma NoIds()
    ensures Ids([]) == {} && UniqueIds([])
  {
  }

  lemma UniqueCons(r: Row, rows: seq<Row>)
    ensures UniqueIds([r] + rows) <==> UniqueIds(rows) && r.eventId !in Ids(rows)
  {
    var all := [r] + rows;
    if UniqueIds(all) {
      forall i, j | 0 <= i < j < |rows| ensures rows[i].eventId != rows[j].eventId {
        assert all[i + 1] == rows[i] && all[j + 1] == rows[j];
      }
      forall x | x in rows ensures x.eventId != r.eventId {
        var k :| 0 <= k < |rows| && rows[k] == x;
        assert all[0] == r && all[k + 1] == x;
      }
    } else {
      var i, j :| 0 <= i < j < |all| && all[i].eventId == all[j].eventId;
      assert all[j] == rows[j - 1];
      assert i > 0 ==> all[i] == rows[i - 1];
    }
  }

  /** One winner per candidate id, and it is a candidate. */
  lemma {:induction false} WinnersAreChosen(rows: seq<Row>)
    ensures UniqueIds(Winners(rows))
    ensures Ids(Winners(rows)) == Ids(rows)
    ensures forall x :: x in Winners(rows) ==> x in rows
  {
    if rows != [] {
      var before, last := rows[..|rows| - 1], rows[|rows| - 1];
      WinnersAreChosen(before);
      RankKeeps(Winners(before), last);
      assert rows == before + [last];
      assert Ids(rows) == Ids(before) + {last.eventId};
    }
  }

  lemma {:induction false} CompareStringOrder(a: string, b: string, c: string)
    ensures CompareString(a, b) == -CompareString(b, a)
    ensures CompareString(a, b) <= 0 && CompareString(b, c) <= 0 ==>
              CompareString(a, c) <= 0
              && (CompareString(a, b) < 0 || CompareString(b, c) < 0 ==> CompareString(a, c) < 0)
  {
    if a != [] && b != [] && c != [] {
      CompareStringOrder(a[1..], b[1..], c[1..]);
    } else if a != [] && b != [] {
      CompareStringOrder(a[1..], b[1..], []);
    }
  }

  lemma CompareRowsOrder(a: Row, b: Row, c: Row)
    ensures CompareRows(a, a) == 0
    ensures CompareRows(a, b) <= 0 && CompareRows(b, c) <= 0 ==> CompareRows(a, c) <= 0
    ensures CompareRows(a, b) < 0 || CompareRows(b, a) <= 0
  {
    hide CompareString;
    if a.sourceTopic.Some? && b.sourceTopic.Some? {
      CompareStringOrder(a.sourceTopic.value, b.sourceTopic.value,
                         if c.sourceTopic.Some? then c.sourceTopic.value else []);
    }
    if a.sourceTopic.Some? {
      CompareStringOrder(a.sourceTopic.value, a.sourceTopic.value, a.sourceTopic.value);
    }
  }

  lemma {:induction false} RankKeepsFirst(winners: seq<Row>, r: Row, rows: seq<Row>)
    requires UniqueIds(winners) && Ids(rows) <= Ids(winners)
    requires forall w, x :: w in winners && x in rows && x.eventId == w.eventId ==> CompareRows(w, x) <= 0
    ensures forall w, x :: w in Rank(winners, r) && x in rows + [r] && x.eventId == w.eventId ==>
                             CompareRows(w, x) <= 0
  {
    hide CompareRows, Rank;
    forall w, x | w in Rank(winners, r) && x in rows + [r] && x.eventId == w.eventId
      ensures CompareRows(w, x) <= 0
    {
      RankedRow(winners, r, w);
      if w.eventId == r.eventId && r.eventId in Ids(winners) {
        var v :| v in winners && v.eventId == r.eventId && w == if CompareRows(r, v) < 0 then r else v;
        CompareRowsOrder(w, v, x);
        CompareRowsOrder(r, v, x);
        CompareRowsOrder(r, r, r);
      } else {
        CompareRowsOrder(r, r, r);
        assert x in rows ==> x.eventId in Ids(rows);
      }
    }
  }

  /** Where a ranked row comes from. */
  lemma {:induction false} RankedRow(winners: seq<Row>, r: Row, w: Row)
    requires UniqueIds(winners) && w in Rank(winners, r)
    ensures w.eventId != r.eventId ==> w in winners
    ensures w.eventId == r.eventId && r.eventId in Ids(winners) ==>
              exists v :: v in winners && v.eventId == r.eventId && w == if CompareRows(r, v) < 0 then r else v
    ensures w.eventId == r.eventId && r.eventId !in Ids(winners) ==> w == r
  {
    hide CompareRows;
    if winners == [] {
    } else if winners[0].eventId == r.eventId {
      if w in winners[1..] {
        var j :| 0 <= j < |winners[1..]| && winners[1..][j] == w;
        assert winners[j + 1] == w;
      }
    } else {
      IdsOfCons(winners[0], winners[1..]);
      assert winners == [winners[0]] + winners[1..];
      if w != winners[0] {
        RankedRow(winners[1..], r, w);
      } else {
        assert w in winners;
      }
    }
  }

  /** ROW_NUMBER() = 1: no candidate of the same id ranks before the winner. */
  lemma {:induction false} WinnersRankFirst(rows: seq<Row>)
    ensures forall w, x :: w in Winners(rows) && x in rows && x.eventId == w.eventId ==> CompareRows(w, x) <= 0
  {
    hide CompareRows, Rank;
    if rows != [] {
      var before, last := rows[..|rows| - 1], rows[|rows| - 1];
      WinnersAreChosen(before);
      WinnersRankFirst(before);
      RankKeepsFirst(Winners(before), last, before);
      assert rows == before + [last];
    }
  }

  // ----- every run keeps the tables faithful -----

  lemma {:induction false} RestrictKeepsUnique(rows: seq<Row>, ids: set<string>, keep: bool)
    requires UniqueIds(rows)
    ensures UniqueIds(Restrict(rows, ids, keep))
  {
    if rows != [] {
      RestrictKeepsUnique(rows[1..], ids, keep);
      var more := Restrict(rows[1..], ids, keep);
      forall j | 0 <= j < |more| ensures more[j].eventId != rows[0].eventId {
        assert more[j] in more;
        var k :| 0 <= k < |rows[1..]| && rows[1..][k] == more[j];
        assert rows[k + 1] == more[j];
      }
    }
  }

  lemma AppendKeepsUnique(a: seq<Row>, b: seq<Row>)
    requires UniqueIds(a) && UniqueIds(b) && Ids(a) !! Ids(b)
    ensures UniqueIds(a + b)
  {
    forall i, j | 0 <= i < j < |a + b| ensures (a + b)[i].eventId != (a + b)[j].eventId {
      if i < |a| <= j {
        assert a[i].eventId in Ids(a) && b[j - |a|].eventId in Ids(b);
      }
    }
  }

  lemma CanonicalAfter(t: Tables, candidates: seq<Row>, now: int)
    requires UniqueIds(t.canonical)
    ensures var t' := Reconcile(t, candidates, now);
            var current := CurrentConflicts(Compared(candidates, t.canonical), now);
            && UniqueIds(t'.canonical)
            && (forall r :: r in t'.canonical ==>
                  || (r in t.canonical && r.eventId !in current)
                  || (r in candidates && r.eventId !in t'.conflicts))
            && (forall r :: r in t.canonical && r.eventId !in current ==> r in t'.canonical)
            && (forall r :: r in candidates && r.eventId !in t'.conflicts ==> r.eventId in Ids(t'.canonical))
  {
    hide Winners, CurrentConflicts, Compared;
    var t' := Reconcile(t, candidates, now);
    var current := CurrentConflicts(Compared(candidates, t.canonical), now);
    var kept := Restrict(t.canonical, current.Keys, false);
    var open := Restrict(Restrict(candidates, current.Keys, false), t'.conflicts.Keys, false);
    var added := Restrict(Winners(open), Ids(kept), false);
    WinnersAreChosen(open);
    RestrictKeepsUnique(t.canonical, current.Keys, false);
    RestrictKeepsUnique(Winners(open), Ids(kept), false);
    AppendKeepsUnique(kept, added);
    forall r | r in candidates && r.eventId !in t'.conflicts ensures r.eventId in Ids(t'.canonical) {
      assert r in open && r.eventId in Ids(Winners(open));
      var w :| w in Winners(open) && w.eventId == r.eventId;
      if w.eventId in Ids(kept) {
        var k :| k in kept && k.eventId == r.eventId;
        assert k in t'.canonical;
      } else {
        assert w in added && w in t'.canonical;
      }
    }
  }

  /** One run over any window keeps the tables faithful to everything seen. */
  lemma RunKeepsFaithful(t: Tables, seen: seq<Row>, candidates: seq<Row>, now: int)
    requires Faithful(t, seen)
    ensures Faithful(Reconcile(t, candidates, now), seen + candidates)
  {
    hide Reconcile, Disputed;
    var t' := Reconcile(t, candidates, now);
    var all := seen + candidates;
    forall id ensures id in t'.conflicts <==> Disputed(id, all) {
      ConflictsAfter(t, seen, candidates, now, id);
    }
    CanonicalAfter(t, candidates, now);
    forall r | r in t'.canonical ensures r in all && !Disputed(r.eventId, all) {
      if r.eventId in t'.conflicts {
        KeptRowIsUndisputed(t, seen, candidates, now, r);
      }
    }
    forall r | r in all && !Disputed(r.eventId, all) ensures r.eventId in Ids(t'.canonical) {
      if r in seen && r !in candidates {
        UndisputedStays(t, seen, candidates, now, r);
      }
    }
  }

  lemma KeptRowIsUndisputed(t: Tables, seen: seq<Row>, candidates: seq<Row>, now: int, r: Row)
    requires Faithful(t, seen) && r in t.canonical
    requires r.eventId !in CurrentConflicts(Compared(candidates, t.canonical), now)
    ensures r.eventId !in Reconcile(t, candidates, now).conflicts
  {
    assert !Disputed(r.eventId, seen);
  }

  lemma UndisputedStays(t: Tables, seen: seq<Row>, candidates: seq<Row>, now: int, r: Row)
    requires Faithful(t, seen) && r in seen && !Disputed(r.eventId, seen + candidates)
    ensures r.eventId in Ids(Reconcile(t, candidates, now).canonical)
  {
    hide Reconcile;
    if Disputed(r.eventId, seen) {
      DisputedMonotone(r.eventId, seen, seen + candidates);
    }
    var c :| c in t.canonical && c.eventId == r.eventId;
    var compared := Compared(candidates, t.canonical);
    CurrentIffDisputed(r.eventId, compared, now);
    if Disputed(r.eventId, compared) {
      assert forall x :: x in compared ==> x in seen + candidates;
      DisputedMonotone(r.eventId, compared, seen + candidates);
    }
    CanonicalAfter(t, candidates, now);
    assert c in Reconcile(t, candidates, now).canonical;
  }

  // ----- whole histories -----

  datatype Pass = Pass(candidates: seq<Row>, now: int)

  function After(passes: seq<Pass>): Tables {
    if passes == [] then EMPTY
    else
      var last := passes[|passes| - 1];
      Reconcile(After(passes[..|passes| - 1]), last.candidates, last.now)
  }

  function Seen(passes: seq<Pass>): seq<Row> {
    if passes == [] then [] else Seen(passes[..|passes| - 1]) + passes[|passes| - 1].candidates
  }

  lemma {:induction false} HistoryIsFaithful(passes: seq<Pass>)
    ensures Faithful(After(passes), Seen(passes))
  {
    if passes != [] {
      var before := passes[..|passes| - 1];
      HistoryIsFaithful(before);
      RunKeepsFaithful(After(before), Seen(before), passes[|passes| - 1].candidates, passes[|passes| - 1].now);
    }
  }

  /** What a reader of canonical_events can tell: which ids are published, as what. */
  function Published(t: Tables): set<(string, (string, Option<bytes>))> {
    set r | r in t.canonical :: (r.eventId, Variant(r))
  }

  lemma PublishedIffUndisputed(t: Tables, seen: seq<Row>, id: string, v: (string, Option<bytes>))
    requires Faithful(t, seen)
    ensures (id, v) in Published(t)
       <==> (exists r :: r in seen && r.eventId == id && Variant(r) == v) && !Disputed(id, seen)
  {
    if r :| r in seen && r.eventId == id && Variant(r) == v && !Disputed(id, seen) {
      var c :| c in t.canonical && c.eventId == id;
      assert c in seen && Variant(c) == Variant(r);
      assert (c.eventId, Variant(c)) in Published(t);
    }
  }

  /** Incremental equals batch: two histories that have seen the same rows, in any windows and any
      order, name the same conflicts and publish the same ids with the same variants, one row each. */
  lemma WindowingDoesNotMatter(a: seq<Pass>, b: seq<Pass>)
    requires forall r :: r in Seen(a) <==> r in Seen(b)
    ensures After(a).conflicts.Keys == After(b).conflicts.Keys
    ensures Published(After(a)) == Published(After(b))
    ensures UniqueIds(After(a).canonical) && UniqueIds(After(b).canonical)
  {
    hide After, Seen;
    HistoryIsFaithful(a);
    HistoryIsFaithful(b);
    forall id ensures Disputed(id, Seen(a)) <==> Disputed(id, Seen(b)) {
    }
    forall id, v ensures (id, v) in Published(After(a)) <==> (id, v) in Published(After(b)) {
      PublishedIffUndisputed(After(a), Seen(a), id, v);
      PublishedIffUndisputed(After(b), Seen(b), id, v);
    }
  }

  lemma {:induction false} RestrictAll(rows: seq<Row>, ids: set<string>, keep: bool)
    requires forall r :: r in rows ==> (r.eventId in ids) == keep
    ensures Restrict(rows, ids, keep) == rows
  {
    if rows != [] {
      RestrictAll(rows[1..], ids, keep);
    }
  }

  /** Running again over rows already seen leaves canonical_events as it is, row for row. */
  lemma RerunIsIdle(t: Tables, seen: seq<Row>, candidates: seq<Row>, now: int)
    requires Faithful(t, seen) && forall r :: r in candidates ==> r in seen
    ensures Reconcile(t, candidates, now).canonical == t.canonical
    ensures Reconcile(t, candidates, now).conflicts.Keys == t.conflicts.Keys
  {
    hide Winners, CurrentConflicts, Disputed;
    var t' := Reconcile(t, candidates, now);
    var current := CurrentConflicts(Compared(candidates, t.canonical), now);
    forall id ensures id in t'.conflicts <==> id in t.conflicts {
      ConflictsAfter(t, seen, candidates, now, id);
      SameRowsSameDisputes(id, seen, candidates);
    }
    forall r | r in t.canonical ensures r.eventId !in current {
      assert r.eventId !in t.conflicts;
    }
    RestrictAll(t.canonical, current.Keys, false);
    var open := Restrict(Restrict(candidates, current.Keys, false), t'.conflicts.Keys, false);
    WinnersAreChosen(open);
    forall w | w in Winners(open) ensures w.eventId in Ids(t.canonical) {
      assert w in seen && w.eventId !in t.conflicts;
    }
    NothingToAdd(Winners(open), Ids(t.canonical));
  }

  lemma SameRowsSameDisputes(id: string, seen: seq<Row>, candidates: seq<Row>)
    requires forall r :: r in candidates ==> r in seen
    ensures Disputed(id, seen + candidates) <==> Disputed(id, seen)
  {
  }

  lemma SomeMember<T>(s: seq<T>) returns (x: T)
    requires s != []
    ensures x in s
  {
    x := s[0];
  }

  lemma NothingToAdd(rows: seq<Row>, ids: set<string>)
    requires forall r :: r in rows ==> r.eventId in ids
    ensures Restrict(rows, ids, false) == []
  {
    var left := Restrict(rows, ids, false);
    if left != [] {
      var r := SomeMember(left);
    }
  }
}
