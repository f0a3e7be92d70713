/**
 Several reconciliation scripts at once, as while one task of bq-sink replaces another
 (infra/lib/bq-sink-service-stack.ts): they interleave statement by statement, and any of them may stop.
 */
module InterleavedScripts {
  import opened Wrappers
  import opened Canonicalizer
  import opened CanonicalizerStops

  /** A script under way: how many of its statements have run since it read its candidates, and its
      temporary tables. */
  datatype Script = Script(candidates: seq<Row>, now: int, done: nat, current: map<string, Conflict>, winners: seq<Row>)

  datatype System = System(tables: Tables, scripts: seq<Script>)

  datatype Action =
    | Begin(candidates: seq<Row>, now: int)   // a script reads its window
    | Next(script: nat)                       // a script runs its next statement

  function Statement(t: Tables, s: Script): Script {
    match s.done
    case 0 => s.(done := 1, current := CurrentConflicts(Compared(s.candidates, t.canonical), s.now))
    case 3 => s.(done := 4, winners := Winners(Open(t, s)))
    case _ => s.(done := s.done + 1)
  }

  /** The candidates that may be published. */
  function Open(t: Tables, s: Script): seq<Row> {
    Restrict(Restrict(s.candidates, s.current.Keys, false), t.conflicts.Keys, false)
  }

  function Changed(t: Tables, s: Script): Tables {
    match s.done
    case 1 => t.(conflicts := MergeConflicts(t.conflicts, s.current))
    case 2 => t.(canonical := Restrict(t.canonical, s.current.Keys, false))
    case 4 => t.(canonical := t.canonical + Restrict(s.winners, Ids(t.canonical), false))
    case _ => t
  }

  function Step(y: System, a: Action): System {
    match a
    case Begin(candidates, now) => y.(scripts := y.scripts + [Script(candidates, now, 0, map[], [])])
    case Next(k) =>
      if k < |y.scripts|
      then System(Changed(y.tables, y.scripts[k]), y.scripts[k := Statement(y.tables, y.scripts[k])])
      else y
  }

  function RunFrom(y: System, run: seq<Action>): System {
    if run == [] then y else Step(RunFrom(y, run[..|run| - 1]), run[|run| - 1])
  }

  /** The rows that the scripts of a run have read. */
  function Read(run: seq<Action>): seq<Row> {
    if run == [] then []
    else Read(run[..|run| - 1]) + if run[|run| - 1].Begin? then run[|run| - 1].candidates else []
  }

  lemma OneMore(y: System, run: seq<Action>, a: Action)
    ensures RunFrom(y, run + [a]) == Step(RunFrom(y, run), a)
    ensures Read(run + [a]) == Read(run) + if a.Begin? then a.candidates else []
  {
    hide Step;
    assert (run + [a])[..|run|] == run;
  }

  // ----- what interleaved scripts keep -----

  /** What a script knows from its statements so far stays true whatever the others do. */
  ghost predicate Informed(s: Script, t: Tables, seen: seq<Row>, read: seq<Row>) {
    && (forall r :: r in s.candidates ==> r in read)
    && (s.done >= 1 ==>
          && (forall id :: id in s.current ==> Disputed(id, seen + read))
          && (forall r :: r in s.candidates && r.eventId !in s.current ==>
                r.eventId in t.conflicts || Agrees(r, seen)))
    && (s.done >= 2 ==> s.current.Keys <= t.conflicts.Keys)
    && (s.done >= 4 ==>
          && UniqueIds(s.winners)
          && (forall w :: w in s.winners ==> w in read && Agrees(w, seen))
          && (forall r :: r in s.candidates ==> r.eventId in t.conflicts || r.eventId in Ids(s.winners)))
    && (s.done >= 5 ==> Covered(s.candidates, t))
  }

  /** Every row's id is published or in conflict. */
  predicate Covered(rows: seq<Row>, t: Tables) {
    forall r :: r in rows ==> r.eventId in t.conflicts || r.eventId in Ids(t.canonical)
  }

  /** Nothing recorded is forgotten, and what is no longer published is in conflict. */
  predicate Follows(t: Tables, t': Tables) {
    && t.conflicts.Keys <= t'.conflicts.Keys
    && forall id :: id in Ids(t.canonical) ==> id in Ids(t'.canonical) || id in t'.conflicts
  }

  ghost predicate Orderly(y: System, seen: seq<Row>, read: seq<Row>) {
    && Repairable(y.tables, seen, read)
    && forall k :: 0 <= k < |y.scripts| ==> Informed(y.scripts[k], y.tables, seen, read)
  }

  /** Conflicts and rows read only grow. */
  lemma StaysInformed(s: Script, t: Tables, t': Tables, seen: seq<Row>, read: seq<Row>, more: seq<Row>)
    requires Informed(s, t, seen, read) && Follows(t, t')
    requires forall r :: r in read ==> r in more
    ensures Informed(s, t', seen, more)
  {
    hide Agrees, UniqueIds, Ids;
    if s.done >= 1 {
      forall id | id in s.current ensures Disputed(id, seen + more) {
        DisputedMonotone(id, seen + read, seen + more);
      }
    }
  }

  lemma ChangedFollows(t: Tables, s: Script, seen: seq<Row>, read: seq<Row>)
    requires Informed(s, t, seen, read)
    ensures Follows(t, Changed(t, s))
  {
    hide Agrees, UniqueIds, Disputed, Restrict;
    forall id | id in Ids(t.canonical) ensures id in Ids(Changed(t, s).canonical) || id in Changed(t, s).conflicts {
      var c :| c in t.canonical && c.eventId == id;
      assert c in Changed(t, s).canonical || id in s.current;
    }
  }

  lemma ChangedIsRepairable(t: Tables, s: Script, seen: seq<Row>, read: seq<Row>)
    requires Repairable(t, seen, read) && Informed(s, t, seen, read)
    ensures Repairable(Changed(t, s), seen, read)
  {
    hide Repairable, MergeConflicts, Restrict, Disputed, Agrees, UniqueIds;
    match s.done
    case 1 => MergedIsRepairable(t, seen, read, s.current);
    case 2 => DeletedIsRepairable(t, seen, read, s.current.Keys);
    case 4 => InsertedIsRepairable(t, seen, read, s.winners);
    case _ =>
  }

  lemma StatementInforms(t: Tables, s: Script, seen: seq<Row>, read: seq<Row>)
    requires Repairable(t, seen, read) && Informed(s, t, seen, read)
    ensures Informed(Statement(t, s), Changed(t, s), seen, read)
  {
    hide Repairable, Disputed, Agrees, UniqueIds, CurrentConflicts, Compared;
    ChangedFollows(t, s, seen, read);
    match s.done
    case 0 => ComparisonInforms(t, s, seen, read);
    case 3 => RankingInforms(t, s, seen, read);
    case 4 => InsertCovers(t, s);
    case _ =>
  }

  lemma RankingInforms(t: Tables, s: Script, seen: seq<Row>, read: seq<Row>)
    requires Informed(s, t, seen, read) && s.done == 3
    ensures Informed(Statement(t, s), t, seen, read)
  {
    hide Disputed, Agrees, UniqueIds, Ids, Winners;
    WinnersAreChosen(Open(t, s));
    forall r | r in s.candidates ensures r.eventId in t.conflicts || r.eventId in Ids(Winners(Open(t, s))) {
      if r.eventId !in t.conflicts {
        IdOfRow(Open(t, s), r);
      }
    }
  }

  lemma IdOfRow(rows: seq<Row>, r: Row)
    requires r in rows
    ensures r.eventId in Ids(rows)
  {
  }

  lemma InsertCovers(t: Tables, s: Script)
    requires s.done == 4 && forall r :: r in s.candidates ==> r.eventId in t.conflicts || r.eventId in Ids(s.winners)
    ensures Covered(s.candidates, Changed(t, s))
  {
    var t' := Changed(t, s);
    forall r | r in s.candidates ensures r.eventId in t'.conflicts || r.eventId in Ids(t'.canonical) {
      if r.eventId !in t.conflicts {
        var w :| w in s.winners && w.eventId == r.eventId;
        if w.eventId in Ids(t.canonical) {
          var c :| c in t.canonical && c.eventId == w.eventId;
          assert c in t'.canonical;
        } else {
          assert w in t'.canonical;
        }
      }
    }
  }

  lemma ComparisonInforms(t: Tables, s: Script, seen: seq<Row>, read: seq<Row>)
    requires Repairable(t, seen, read) && Informed(s, t, seen, read) && s.done == 0
    ensures Informed(Statement(t, s), t, seen, read)
  {
    hide Repairable, Disputed, Agrees, CurrentConflicts, Compared;
    var compared := Compared(s.candidates, t.canonical);
    var current := CurrentConflicts(compared, s.now);
    RowsWereRead(t, seen, read);
    forall id | id in current ensures Disputed(id, seen + read) {
      CurrentIffDisputed(id, compared, s.now);
      ComparedIsDisputed(t, s.candidates, seen + read, id);
    }
    forall r | r in s.candidates && r.eventId !in current ensures r.eventId in t.conflicts || Agrees(r, seen) {
      CurrentIffDisputed(r.eventId, compared, s.now);
      UnclashingAgrees(t, seen, read, s.candidates, r);
    }
  }

  lemma StepKeepsOrderly(y: System, seen: seq<Row>, read: seq<Row>, a: Action)
    requires Orderly(y, seen, read)
    ensures Orderly(Step(y, a), seen, read + if a.Begin? then a.candidates else [])
  {
    hide Repairable, Informed, Changed, Statement;
    var more := read + if a.Begin? then a.candidates else [];
    var y' := Step(y, a);
    MoreRead(y.tables, seen, read, more);
    match a
    case Begin(candidates, now) =>
      BeginIsInformed(candidates, now, y.tables, seen, more);
      forall k | 0 <= k < |y.scripts| ensures Informed(y'.scripts[k], y'.tables, seen, more) {
        StaysInformed(y.scripts[k], y.tables, y.tables, seen, read, more);
      }
    case Next(j) =>
      assert more == read;
      if j < |y.scripts| {
        var s := y.scripts[j];
        ChangedFollows(y.tables, s, seen, read);
        ChangedIsRepairable(y.tables, s, seen, read);
        StatementInforms(y.tables, s, seen, read);
        forall k | 0 <= k < |y.scripts| ensures Informed(y'.scripts[k], y'.tables, seen, read) {
          StaysInformed(y.scripts[k], y.tables, y'.tables, seen, read, read);
        }
      }
  }

  lemma BeginIsInformed(candidates: seq<Row>, now: int, t: Tables, seen: seq<Row>, read: seq<Row>)
    requires forall r :: r in candidates ==> r in read
    ensures Informed(Script(candidates, now, 0, map[], []), t, seen, read)
  {
  }

  /** Whatever the interleaving and wherever scripts stop: no conflict is recorded that the rows do not
      show, none is lost, no id is published twice, and every published row agrees with all that was seen
      before the scripts began. */
  lemma {:induction false} RunsAreOrderly(t: Tables, seen: seq<Row>, run: seq<Action>)
    requires Faithful(t, seen)
    ensures Orderly(RunFrom(System(t, []), run), seen, Read(run))
  {
    hide Step, Repairable, Faithful;
    if run == [] {
      FaithfulIsRepairable(t, seen);
    } else {
      var n := |run| - 1;
      RunsAreOrderly(t, seen, run[..n]);
      StepKeepsOrderly(RunFrom(System(t, []), run[..n]), seen, Read(run[..n]), run[n]);
    }
  }

  /** No row is lost: every id that a finished script has read is published or in conflict. */
  lemma FinishedScriptsCover(t: Tables, seen: seq<Row>, run: seq<Action>, k: nat)
    requires Faithful(t, seen)
    requires k < |RunFrom(System(t, []), run).scripts| && RunFrom(System(t, []), run).scripts[k].done >= 5
    ensures var y := RunFrom(System(t, []), run);
            Covered(y.scripts[k].candidates, y.tables)
  {
    hide Repairable, Faithful, RunFrom, Covered;
    RunsAreOrderly(t, seen, run);
    assert Informed(RunFrom(System(t, []), run).scripts[k], RunFrom(System(t, []), run).tables, seen, Read(run));
  }

  /** One later complete run, undisturbed and over a window with the rows of all those scripts, leaves both
      tables true to everything seen. */
  lemma InterleavedScriptsAreRepaired(t: Tables, seen: seq<Row>, run: seq<Action>, again: seq<Row>, now: int)
    requires Faithful(t, seen) && forall r :: r in Read(run) ==> r in again
    ensures Faithful(Reconcile(RunFrom(System(t, []), run).tables, again, now), seen + again)
  {
    hide Reconcile, Repairable, Faithful, RunFrom, Informed;
    RunsAreOrderly(t, seen, run);
    FullRunRepairs(RunFrom(System(t, []), run).tables, seen, Read(run), again, now);
  }

  /** For one id, whatever the tables: a run leaves it in conflict and unpublished if and only if its
      comparison disputes the id, or the id was so before. */
  lemma SettledIff(t: Tables, again: seq<Row>, now: int, id: string)
    requires UniqueIds(t.canonical)
    ensures var t' := Reconcile(t, again, now);
            (id in t'.conflicts && id !in Ids(t'.canonical)) <==>
            Disputed(id, Compared(again, t.canonical)) || (id in t.conflicts && id !in Ids(t.canonical))
  {
    hide Reconcile, CurrentConflicts, Compared, Disputed;
    var t' := Reconcile(t, again, now);
    var current := CurrentConflicts(Compared(again, t.canonical), now);
    CanonicalAfter(t, again, now);
    CurrentIffDisputed(id, Compared(again, t.canonical), now);
    MergedKeys(t, again, now);
    if id in Ids(t.canonical) && id !in current {
      var c :| c in t.canonical && c.eventId == id;
      assert c in t'.canonical;
    }
  }

  lemma MergedKeys(t: Tables, candidates: seq<Row>, now: int)
    ensures Reconcile(t, candidates, now).conflicts.Keys
         == t.conflicts.Keys + CurrentConflicts(Compared(candidates, t.canonical), now).Keys
  {
    hide CurrentConflicts, Compared, Winners, Restrict;
  }

  // ----- one script by itself -----

  function Alone(k: nat): seq<Action> {
    [Next(k)] + [Next(k)] + [Next(k)] + [Next(k)] + [Next(k)]
  }

  lemma NextStep(y: System, run: seq<Action>, k: nat) returns (y': System)
    requires k < |RunFrom(y, run).scripts|
    ensures y' == RunFrom(y, run + [Next(k)])
    ensures var x := RunFrom(y, run);
            y' == System(Changed(x.tables, x.scripts[k]), x.scripts[k := Statement(x.tables, x.scripts[k])])
  {
    hide Changed, Statement, RunFrom;
    OneMore(y, run, Next(k));
    y' := RunFrom(y, run + [Next(k)]);
  }

  /** A script that nobody disturbs is a run of `Reconcile`. */
  lemma AloneReconciles(y: System, candidates: seq<Row>, now: int)
    ensures var y' := RunFrom(y, [Begin(candidates, now)] + Alone(|y.scripts|));
            && y'.tables == Reconcile(y.tables, candidates, now)
            && |y'.scripts| == |y.scripts| + 1 && y'.scripts[..|y.scripts|] == y.scripts
  {
    hide RunFrom, CurrentConflicts, Compared, MergeConflicts, Restrict, Winners, Ids;
    var k, b := |y.scripts|, [Begin(candidates, now)];
    Begun(y, candidates, now);
    var y1 := NextStep(y, b, k);
    var y2 := NextStep(y, b + [Next(k)], k);
    var y3 := NextStep(y, b + [Next(k)] + [Next(k)], k);
    var y4 := NextStep(y, b + [Next(k)] + [Next(k)] + [Next(k)], k);
    var y5 := NextStep(y, b + [Next(k)] + [Next(k)] + [Next(k)] + [Next(k)], k);
    assert b + Alone(k) == b + [Next(k)] + [Next(k)] + [Next(k)] + [Next(k)] + [Next(k)];
  }

  lemma Begun(y: System, candidates: seq<Row>, now: int)
    ensures RunFrom(y, [Begin(candidates, now)])
         == y.(scripts := y.scripts + [Script(candidates, now, 0, map[], [])])
  {
    assert [Begin(candidates, now)][..0] == [];
  }

  lemma {:induction false} RunFromAppend(y: System, a: seq<Action>, b: seq<Action>)
    ensures RunFrom(y, a + b) == RunFrom(RunFrom(y, a), b)
  {
    hide Step;
    if b == [] {
      assert a + b == a;
    } else {
      assert (a + b)[..|a + b| - 1] == a + b[..|b| - 1];
      RunFromAppend(y, a, b[..|b| - 1]);
    }
  }

  // ----- what two scripts at once can do -----

  function Sample(eventType: string): Row {
    Row("e", eventType, 0, None, None, None, None, 0)
  }

  lemma SamplesDispute(a: string, b: string, rows: seq<Row>)
    requires a != b && Sample(a) in rows && Sample(b) in rows
    ensures Disputed("e", rows)
  {
    assert Variant(Sample(a)) != Variant(Sample(b));
  }

  lemma OneRowIsCalm(r: Row, now: int)
    ensures CurrentConflicts(Compared([r], []), now) == map[]
  {
    hide CurrentConflicts;
    assert Compared([r], []) == [r];
    forall id ensures id !in CurrentConflicts([r], now) {
      CurrentIffDisputed(id, [r], now);
    }
  }

  lemma OneRowWins(r: Row, ids: set<string>)
    requires r.eventId !in ids
    ensures Restrict([r], ids, false) == [r] && Winners([r]) == [r]
  {
    assert [r][1..] == [] && [r][..0] == [];
  }

  lemma FewestConflicts(c: map<string, Conflict>)
    ensures MergeConflicts(c, map[]) == c
  {
  }

  /** The first script of two over one row each, up to and including its comparison. */
  lemma Comparing(r: Row) returns (y: System)
    ensures y == RunFrom(System(EMPTY, []), [Begin([r], 0)] + [Next(0)])
    ensures y == System(EMPTY, [Script([r], 0, 1, map[], [])])
  {
    hide RunFrom, CurrentConflicts, Compared;
    Begun(System(EMPTY, []), [r], 0);
    y := NextStep(System(EMPTY, []), [Begin([r], 0)], 0);
    OneRowIsCalm(r, 0);
  }

  function Ranks(): seq<Action> {
    [] + [Next(0)] + [Next(0)] + [Next(0)]
  }

  /** Its next statements, if no conflict has come up for the row: nothing to record or delete, one winner. */
  lemma Ranking(y: System, r: Row) returns (y': System)
    requires |y.scripts| >= 1 && y.scripts[0] == Script([r], 0, 1, map[], []) && r.eventId !in y.tables.conflicts
    ensures y' == RunFrom(y, Ranks())
    ensures y'.tables == y.tables
    ensures y'.scripts == y.scripts[0 := Script([r], 0, 4, map[], [r])]
  {
    hide RunFrom, Winners, MergeConflicts;
    assert RunFrom(y, []) == y by { Nothing(y); }
    var none: map<string, Conflict> := map[];
    assert none.Keys == {};
    var y1 := NextStep(y, [], 0);
    FewestConflicts(y.tables.conflicts);
    assert y1 == System(y.tables, y.scripts[0 := Script([r], 0, 2, none, [])]);
    var y2 := NextStep(y, [] + [Next(0)], 0);
    RestrictAll(y.tables.canonical, {}, false);
    assert y2 == System(y.tables, y.scripts[0 := Script([r], 0, 3, none, [])]);
    y' := NextStep(y, [] + [Next(0)] + [Next(0)], 0);
    OneRowWins(r, {});
    OneRowWins(r, y.tables.conflicts.Keys);
  }

  lemma Nothing(y: System)
    ensures RunFrom(y, []) == y
  {
  }

  /** Two scripts: the first compares its row and ranks it before the second runs in full. */
  function LateInsert(a: Row, b: Row): seq<Action> {
    [Begin([a], 0)] + [Next(0)] + Ranks() + ([Begin([a, b], 1)] + Alone(1)) + [Next(0)]
  }

  /** Two scripts: the first compares its row before the second runs in full. */
  function LateRank(a: Row, b: Row): seq<Action> {
    [Begin([a], 0)] + [Next(0)] + ([Begin([b], 1)] + Alone(1)) + Ranks() + [Next(0)]
  }

  /** The first script has ranked its row when the second finds the event in conflict: the first then
      publishes it all the same. */
  lemma PublishedInConflict()
    ensures var t := RunFrom(System(EMPTY, []), LateInsert(Sample("a"), Sample("b"))).tables;
            "e" in t.conflicts && "e" in Ids(t.canonical)
  {
    hide RunFrom, Reconcile, Disputed, Restrict, Ids, Winners, Alone, Ranks;
    var a, b := Sample("a"), Sample("b");
    var start := System(EMPTY, []);
    var first, other := [Begin([a], 0)] + [Next(0)], [Begin([a, b], 1)] + Alone(1);
    var y1 := Comparing(a);
    var y2 := Ranking(y1, a);
    RunFromAppend(start, first, Ranks());
    RunFromAppend(start, first + Ranks(), other);
    var y3 := BothTypes(y2, a, b);
    assert y3.scripts[0] == y2.scripts[0];
    var y4 := NextStep(start, first + Ranks() + other, 0);
    RowIsAdded(y3.tables.canonical, a);
  }

  lemma BothTypes(y: System, a: Row, b: Row) returns (y': System)
    requires y.tables == EMPTY && |y.scripts| == 1 && a == Sample("a") && b == Sample("b")
    ensures y' == RunFrom(y, [Begin([a, b], 1)] + Alone(1))
    ensures |y'.scripts| == 2 && y'.scripts[..1] == y.scripts
    ensures "e" in y'.tables.conflicts && "e" !in Ids(y'.tables.canonical)
  {
    hide RunFrom, Reconcile, Disputed, Ids, Alone;
    AloneReconciles(y, [a, b], 1);
    y' := RunFrom(y, [Begin([a, b], 1)] + Alone(1));
    NothingSeen();
    RunKeepsFaithful(EMPTY, [], [a, b], 1);
    assert [] + [a, b] == [a, b];
    SamplesDispute("a", "b", [a, b]);
    ConflictIsUnpublished(y'.tables, [a, b], "e");
  }

  /** Each script compares its own row with tables that lack the other's: one row of the
      disputed event is published, and no conflict is recorded. */
  lemma MissedDispute()
    ensures var y := RunFrom(System(EMPTY, []), LateRank(Sample("a"), Sample("b")));
            && "e" !in y.tables.conflicts && "e" in Ids(y.tables.canonical)
            && Disputed("e", [Sample("a"), Sample("b")])
  {
    hide RunFrom, Reconcile, Disputed, Restrict, Ids, Winners, Alone, Ranks;
    var a, b := Sample("a"), Sample("b");
    var start := System(EMPTY, []);
    var first, other := [Begin([a], 0)] + [Next(0)], [Begin([b], 1)] + Alone(1);
    var y1 := Comparing(a);
    RunFromAppend(start, first, other);
    var y2 := OneType(y1, b);
    assert y2.scripts[0] == y1.scripts[0];
    var y3 := Ranking(y2, a);
    RunFromAppend(start, first + other, Ranks());
    var y4 := NextStep(start, first + other + Ranks(), 0);
    PublishedStays(y3.tables.canonical, [a], "e");
    SamplesDispute("a", "b", [a, b]);
  }

  lemma OneType(y: System, b: Row) returns (y': System)
    requires y.tables == EMPTY && |y.scripts| == 1 && b == Sample("b")
    ensures y' == RunFrom(y, [Begin([b], 1)] + Alone(1))
    ensures |y'.scripts| == 2 && y'.scripts[..1] == y.scripts
    ensures "e" !in y'.tables.conflicts && "e" in Ids(y'.tables.canonical)
  {
    hide RunFrom, Reconcile, Ids, Alone;
    AloneReconciles(y, [b], 1);
    y' := RunFrom(y, [Begin([b], 1)] + Alone(1));
    NothingSeen();
    RunKeepsFaithful(EMPTY, [], [b], 1);
    assert [] + [b] == [b];
    UndisputedIsPublished(y'.tables, [b], b);
  }

  lemma UndisputedIsPublished(t: Tables, seen: seq<Row>, r: Row)
    requires Faithful(t, seen) && r in seen && !Disputed(r.eventId, seen)
    ensures r.eventId !in t.conflicts && r.eventId in Ids(t.canonical)
  {
  }

  lemma PublishedStays(canonical: seq<Row>, winners: seq<Row>, id: string)
    requires id in Ids(canonical)
    ensures id in Ids(canonical + Restrict(winners, Ids(canonical), false))
  {
    var c :| c in canonical && c.eventId == id;
    assert c in canonical + Restrict(winners, Ids(canonical), false);
  }

  lemma NothingSeen()
    ensures Faithful(EMPTY, [])
  {
  }

  lemma ConflictIsUnpublished(t: Tables, seen: seq<Row>, id: string)
    requires Faithful(t, seen) && Disputed(id, seen)
    ensures id in t.conflicts && id !in Ids(t.canonical)
  {
  }

  lemma RowIsAdded(canonical: seq<Row>, r: Row)
    requires r.eventId !in Ids(canonical)
    ensures r.eventId in Ids(canonical + Restrict([r], Ids(canonical), false))
  {
    OneRowWins(r, Ids(canonical));
    assert r in canonical + [r];
  }
}
