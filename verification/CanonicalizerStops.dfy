/**
 Reconciliation scripts that stop between two statements, or get in the way of one another, and the run
 that repairs what they leave.
 */
module CanonicalizerStops {
  import opened Canonicalizer

  /** No row seen of the same id is another variant. */
  predicate Agrees(c: Row, seen: seq<Row>) {
    forall r :: r in seen && r.eventId == c.eventId ==> Variant(r) == Variant(c)
  }

  /** What remains true of the tables while scripts over the rows `read` stop half-way or interleave:
      `seen` is what the last undisturbed run made them faithful to. */
  ghost predicate Repairable(t: Tables, seen: seq<Row>, read: seq<Row>) {
    && (forall id :: id in t.conflicts ==> Disputed(id, seen + read))
    && (forall id :: Disputed(id, seen) ==> id in t.conflicts)
    && UniqueIds(t.canonical)
    && (forall r :: r in t.canonical ==> r in seen + read && Agrees(r, seen))
    && (forall r :: r in seen ==> r.eventId in Ids(t.canonical) || r.eventId in t.conflicts)
  }

  lemma FaithfulIsRepairable(t: Tables, seen: seq<Row>)
    requires Faithful(t, seen)
    ensures Repairable(t, seen, [])
  {
    assert seen + [] == seen;
    forall r | r in t.canonical ensures Agrees(r, seen) {
      assert r in seen;
    }
  }

  /** A script finds no dispute that the rows do not show. */
  lemma ComparedIsDisputed(t: Tables, candidates: seq<Row>, all: seq<Row>, id: string)
    requires Disputed(id, Compared(candidates, t.canonical))
    requires (forall r :: r in t.canonical ==> r in all) && (forall r :: r in candidates ==> r in all)
    ensures Disputed(id, all)
  {
    DisputedMonotone(id, Compared(candidates, t.canonical), all);
  }

  lemma MoreRead(t: Tables, seen: seq<Row>, read: seq<Row>, more: seq<Row>)
    requires Repairable(t, seen, read) && forall r :: r in read ==> r in more
    ensures Repairable(t, seen, more)
  {
    forall id | id in t.conflicts ensures Disputed(id, seen + more) {
      DisputedMonotone(id, seen + read, seen + more);
    }
  }

  /** A candidate left alone by the comparison agrees with everything seen, unless its id is in conflict. */
  lemma UnclashingAgrees(t: Tables, seen: seq<Row>, read: seq<Row>, candidates: seq<Row>, r: Row)
    requires Repairable(t, seen, read) && r in candidates && !Disputed(r.eventId, Compared(candidates, t.canonical))
    ensures r.eventId in t.conflicts || Agrees(r, seen)
  {
    var compared := Compared(candidates, t.canonical);
    if r.eventId !in t.conflicts {
      forall s | s in seen && s.eventId == r.eventId ensures Variant(s) == Variant(r) {
        var c :| c in t.canonical && c.eventId == r.eventId;
        assert Agrees(c, seen) && c in compared && r in compared;
      }
    }
  }

  /** The tables after a statement, when what is known of each table holds of the new ones. */
  lemma MergedIsRepairable(t: Tables, seen: seq<Row>, read: seq<Row>, current: map<string, Conflict>)
    requires Repairable(t, seen, read) && forall id :: id in current ==> Disputed(id, seen + read)
    ensures Repairable(t.(conflicts := MergeConflicts(t.conflicts, current)), seen, read)
  {
    hide Disputed, Agrees, UniqueIds;
  }

  lemma DeletedIsRepairable(t: Tables, seen: seq<Row>, read: seq<Row>, ids: set<string>)
    requires Repairable(t, seen, read) && ids <= t.conflicts.Keys
    ensures Repairable(t.(canonical := Restrict(t.canonical, ids, false)), seen, read)
  {
    hide Disputed, Agrees, UniqueIds;
    RestrictKeepsUnique(t.canonical, ids, false);
    var kept := Restrict(t.canonical, ids, false);
    forall r | r in seen ensures r.eventId in Ids(kept) || r.eventId in t.conflicts {
      if r.eventId !in t.conflicts {
        var c :| c in t.canonical && c.eventId == r.eventId;
        assert c in kept;
      }
    }
  }

  lemma InsertedIsRepairable(t: Tables, seen: seq<Row>, read: seq<Row>, winners: seq<Row>)
    requires Repairable(t, seen, read) && UniqueIds(winners)
    requires forall w :: w in winners ==> w in read && Agrees(w, seen)
    ensures Repairable(t.(canonical := t.canonical + Restrict(winners, Ids(t.canonical), false)), seen, read)
  {
    hide Disputed, Agrees, UniqueIds;
    var added := Restrict(winners, Ids(t.canonical), false);
    RestrictKeepsUnique(winners, Ids(t.canonical), false);
    AppendKeepsUnique(t.canonical, added);
    forall r | r in seen ensures r.eventId in Ids(t.canonical + added) || r.eventId in t.conflicts {
      if r.eventId !in t.conflicts {
        var c :| c in t.canonical && c.eventId == r.eventId;
        assert c in t.canonical + added;
      }
    }
  }

  /** A run that stops behind the first or second statement leaves the tables repairable. */
  lemma StopKeepsRepairable(t: Tables, seen: seq<Row>, lost: seq<Row>, candidates: seq<Row>, now: int, done: nat)
    requires Repairable(t, seen, lost) && done <= 2
    ensures Repairable(Stopped(t, candidates, now, done), seen, lost + candidates)
  {
    hide Disputed, CurrentConflicts, Compared, Repairable;
    var compared := Compared(candidates, t.canonical);
    var current := CurrentConflicts(compared, now);
    MoreRead(t, seen, lost, lost + candidates);
    if done > 0 {
      forall id | id in current ensures Disputed(id, seen + (lost + candidates)) {
        CurrentIffDisputed(id, compared, now);
        RowsWereRead(t, seen, lost + candidates);
        ComparedIsDisputed(t, candidates, seen + (lost + candidates), id);
      }
      MergedIsRepairable(t, seen, lost + candidates, current);
      if done == 2 {
        var merged := t.(conflicts := MergeConflicts(t.conflicts, current));
        DeletedIsRepairable(merged, seen, lost + candidates, current.Keys);
      }
    }
  }

  lemma RowsWereRead(t: Tables, seen: seq<Row>, read: seq<Row>)
    requires Repairable(t, seen, read)
    ensures forall r :: r in t.canonical ==> r in seen + read
  {
  }

  /** A dispute over everything is found by the comparison, or it is known and nothing is published. */
  lemma DisputeIsFound(t: Tables, seen: seq<Row>, lost: seq<Row>, again: seq<Row>, id: string)
    requires Repairable(t, seen, lost) && Disputed(id, seen + again)
    ensures Disputed(id, Compared(again, t.canonical)) || (id in t.conflicts && id !in Ids(t.canonical))
  {
    var all := seen + again;
    var r, s :| r in all && s in all && r.eventId == id && s.eventId == id && Variant(r) != Variant(s);
    var compared := Compared(again, t.canonical);
    if r in again && s in again {
      assert r in compared && s in compared;
    } else {
      var old', other := if r in seen then r else s, if r in seen then s else r;
      assert old' in seen && old'.eventId in Ids(t.canonical) + t.conflicts.Keys;
      if id in Ids(t.canonical) {
        var c :| c in t.canonical && c.eventId == id;
        assert Agrees(c, seen);
        assert other !in seen && other.eventId in Ids(again);
        assert c in compared && other in compared;
      }
    }
  }

  lemma ConflictsRepaired(t: Tables, seen: seq<Row>, lost: seq<Row>, again: seq<Row>, now: int, id: string)
    requires Repairable(t, seen, lost) && forall r :: r in lost ==> r in again
    ensures id in Reconcile(t, again, now).conflicts <==> Disputed(id, seen + again)
  {
    hide Disputed, CurrentConflicts, Compared;
    var compared := Compared(again, t.canonical);
    CurrentIffDisputed(id, compared, now);
    MoreRead(t, seen, lost, again);
    if Disputed(id, compared) {
      ComparedIsDisputed(t, again, seen + again, id);
    }
    if Disputed(id, seen + again) {
      DisputeIsFound(t, seen, lost, again, id);
    }
  }

  /** A complete run over a window that holds the rows of the disturbed ones makes the tables faithful to
      everything seen, as if nothing had happened. */
  lemma FullRunRepairs(t: Tables, seen: seq<Row>, lost: seq<Row>, again: seq<Row>, now: int)
    requires Repairable(t, seen, lost) && forall r :: r in lost ==> r in again
    ensures Faithful(Reconcile(t, again, now), seen + again)
  {
    hide Reconcile, Disputed, CurrentConflicts, Compared, Agrees;
    var t', all := Reconcile(t, again, now), seen + again;
    forall id ensures id in t'.conflicts <==> Disputed(id, all) {
      ConflictsRepaired(t, seen, lost, again, now, id);
    }
    CanonicalAfter(t, again, now);
    forall r | r in t'.canonical ensures r in all && !Disputed(r.eventId, all) {
      if Disputed(r.eventId, all) {
        KeptIsUndisputed(t, seen, lost, again, now, r);
      }
    }
    forall r | r in all && !Disputed(r.eventId, all) ensures r.eventId in Ids(t'.canonical) {
      if r !in again {
        SeenRowStays(t, seen, lost, again, now, r);
      }
    }
  }

  lemma KeptIsUndisputed(t: Tables, seen: seq<Row>, lost: seq<Row>, again: seq<Row>, now: int, r: Row)
    requires Repairable(t, seen, lost) && Disputed(r.eventId, seen + again) && r in t.canonical
    ensures r.eventId in CurrentConflicts(Compared(again, t.canonical), now)
  {
    hide Disputed, CurrentConflicts, Compared;
    DisputeIsFound(t, seen, lost, again, r.eventId);
    CurrentIffDisputed(r.eventId, Compared(again, t.canonical), now);
  }

  lemma SeenRowStays(t: Tables, seen: seq<Row>, lost: seq<Row>, again: seq<Row>, now: int, r: Row)
    requires Repairable(t, seen, lost) && forall x :: x in lost ==> x in again
    requires r in seen && !Disputed(r.eventId, seen + again)
    ensures r.eventId in Ids(Reconcile(t, again, now).canonical)
  {
    hide Reconcile, Disputed, CurrentConflicts, Compared, Agrees;
    var compared := Compared(again, t.canonical);
    MoreRead(t, seen, lost, again);
    var c :| c in t.canonical && c.eventId == r.eventId;
    CurrentIffDisputed(r.eventId, compared, now);
    if Disputed(r.eventId, compared) {
      ComparedIsDisputed(t, again, seen + again, r.eventId);
    }
    CanonicalAfter(t, again, now);
    assert c in Reconcile(t, again, now).canonical;
  }

  // ----- any number of stops in a row -----

  datatype Stop = Stop(candidates: seq<Row>, now: int, done: nat)

  function AfterStops(t: Tables, stops: seq<Stop>): Tables {
    if stops == [] then t
    else
      var last := stops[|stops| - 1];
      Stopped(AfterStops(t, stops[..|stops| - 1]), last.candidates, last.now, last.done)
  }

  function Lost(stops: seq<Stop>): seq<Row> {
    if stops == [] then [] else Lost(stops[..|stops| - 1]) + stops[|stops| - 1].candidates
  }

  lemma {:induction false} StopsAreRepairable(t: Tables, seen: seq<Row>, stops: seq<Stop>)
    requires Faithful(t, seen) && forall i :: 0 <= i < |stops| ==> stops[i].done <= 2
    ensures Repairable(AfterStops(t, stops), seen, Lost(stops))
  {
    hide Stopped, Repairable, Faithful;
    if stops == [] {
      FaithfulIsRepairable(t, seen);
    } else {
      var n := |stops| - 1;
      StopsAreRepairable(t, seen, stops[..n]);
      StopKeepsRepairable(AfterStops(t, stops[..n]), seen, Lost(stops[..n]),
                          stops[n].candidates, stops[n].now, stops[n].done);
    }
  }

  /** Any number of stopped runs, and then one complete run whose window holds their rows. */
  lemma StoppedRunsAreRepaired(t: Tables, seen: seq<Row>, stops: seq<Stop>, again: seq<Row>, now: int)
    requires Faithful(t, seen) && forall i :: 0 <= i < |stops| ==> stops[i].done <= 2
    requires forall r :: r in Lost(stops) ==> r in again
    ensures Faithful(Reconcile(AfterStops(t, stops), again, now), seen + again)
  {
    hide Reconcile, Repairable, Faithful, AfterStops, Lost;
    StopsAreRepairable(t, seen, stops);
    FullRunRepairs(AfterStops(t, stops), seen, Lost(stops), again, now);
  }
}
