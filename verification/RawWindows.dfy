/**
 Runs given by the raw rows they find and their cut-off, as bq-sink/src/canonicalizer.ts takes them: which
 rows a run looks at, and what any sequence of runs has then published.
 */
module RawWindows {
  import opened Bytes
  import opened Wrappers
  import opened Canonicalizer

  /** A run at time `now` over the raw tables as they are then, back to `since`. */
  datatype RawRun = RawRun(raw: seq<Row>, since: int, now: int)

  function TablesAfter(runs: seq<RawRun>): Tables {
    if runs == [] then EMPTY
    else
      var last := runs[|runs| - 1];
      Reconcile(TablesAfter(runs[..|runs| - 1]), Window(last.raw, last.since), last.now)
  }

  /** The window has the rows at or after the cut-off, each as often as the raw tables have it. */
  lemma {:induction false} WindowIsCutOff(raw: seq<Row>, since: int)
    ensures forall r :: multiset(Window(raw, since))[r] == if r.ingestedAt >= since then multiset(raw)[r] else 0
  {
    if raw != [] {
      WindowIsCutOff(raw[1..], since);
      assert raw == [raw[0]] + raw[1..];
      assert Window(raw, since)
          == (if raw[0].ingestedAt >= since then [raw[0]] else []) + Window(raw[1..], since);
    }
  }

  lemma InWindowIff(raw: seq<Row>, since: int, r: Row)
    ensures r in Window(raw, since) <==> r in raw && r.ingestedAt >= since
  {
    WindowIsCutOff(raw, since);
    assert r in multiset(Window(raw, since)) <==> r in Window(raw, since);
    assert r in multiset(raw) <==> r in raw;
  }

  /** Some run found the row in the raw tables, not older than its cut-off. */
  predicate LookedAt(runs: seq<RawRun>, r: Row) {
    exists k :: 0 <= k < |runs| && r in runs[k].raw && r.ingestedAt >= runs[k].since
  }

  function Passes(runs: seq<RawRun>): seq<Pass> {
    if runs == [] then []
    else
      var last := runs[|runs| - 1];
      Passes(runs[..|runs| - 1]) + [Pass(Window(last.raw, last.since), last.now)]
  }

  lemma {:induction false} RunsArePasses(runs: seq<RawRun>)
    ensures TablesAfter(runs) == After(Passes(runs))
    ensures forall r :: r in Seen(Passes(runs)) <==> LookedAt(runs, r)
  {
    hide Reconcile;
    if runs != [] {
      var n := |runs| - 1;
      var before, last := runs[..n], runs[n];
      RunsArePasses(before);
      assert Passes(runs)[..|Passes(runs)| - 1] == Passes(before);
      forall r ensures r in Seen(Passes(runs)) <==> LookedAt(runs, r) {
        InWindowIff(last.raw, last.since, r);
        OneMoreRun(runs, r);
      }
    }
  }

  lemma OneMoreRun(runs: seq<RawRun>, r: Row)
    requires runs != []
    ensures var n := |runs| - 1;
            LookedAt(runs, r) <==> LookedAt(runs[..n], r) || (r in runs[n].raw && r.ingestedAt >= runs[n].since)
  {
    var n := |runs| - 1;
    if LookedAt(runs[..n], r) {
      var k :| 0 <= k < n && r in runs[..n][k].raw && r.ingestedAt >= runs[..n][k].since;
      assert runs[k] == runs[..n][k];
    }
    if LookedAt(runs, r) {
      var k :| 0 <= k < |runs| && r in runs[k].raw && r.ingestedAt >= runs[k].since;
      assert k < n ==> runs[..n][k] == runs[k];
    }
  }

  /** Two rows of the id that were looked at differ in type or payload. */
  ghost predicate Disagree(runs: seq<RawRun>, id: string) {
    exists r, s :: LookedAt(runs, r) && LookedAt(runs, s) && r.eventId == s.eventId == id
                   && (r.eventType != s.eventType || r.payloadHash != s.payloadHash)
  }

  lemma DisagreeIffDisputed(runs: seq<RawRun>, id: string)
    ensures Disagree(runs, id) <==> Disputed(id, Seen(Passes(runs)))
  {
    hide LookedAt, Seen, Passes;
    RunsArePasses(runs);
    if Disagree(runs, id) {
      var r, s :| LookedAt(runs, r) && LookedAt(runs, s) && r.eventId == s.eventId == id
                  && (r.eventType != s.eventType || r.payloadHash != s.payloadHash);
      assert r in Seen(Passes(runs)) && s in Seen(Passes(runs)) && Variant(r) != Variant(s);
    }
    if Disputed(id, Seen(Passes(runs))) {
      var r, s :| r in Seen(Passes(runs)) && s in Seen(Passes(runs)) && r.eventId == id && s.eventId == id
                  && Variant(r) != Variant(s);
      assert LookedAt(runs, r) && LookedAt(runs, s);
    }
  }

  /** Whatever the runs find and however far back they look: an id is in conflict exactly if rows of it that
      were looked at disagree; and canonical_events has one row for it exactly if there is one and they
      agree, and it is of their type and payload. */
  lemma RunsPublish(runs: seq<RawRun>, id: string)
    ensures id in TablesAfter(runs).conflicts <==> Disagree(runs, id)
    ensures UniqueIds(TablesAfter(runs).canonical)
    ensures forall c :: c in TablesAfter(runs).canonical && c.eventId == id ==> LookedAt(runs, c) && !Disagree(runs, id)
    ensures forall r :: LookedAt(runs, r) && r.eventId == id && !Disagree(runs, id) ==>
              exists c :: c in TablesAfter(runs).canonical && c.eventId == id
                          && c.eventType == r.eventType && c.payloadHash == r.payloadHash
  {
    hide LookedAt, Seen, Passes, After, TablesAfter, Disagree;
    RunsArePasses(runs);
    HistoryIsFaithful(Passes(runs));
    DisagreeIffDisputed(runs, id);
    var t, seen := TablesAfter(runs), Seen(Passes(runs));
    forall r | LookedAt(runs, r) && r.eventId == id && !Disagree(runs, id)
      ensures exists c :: c in t.canonical && c.eventId == id
                          && c.eventType == r.eventType && c.payloadHash == r.payloadHash
    {
      var c :| c in t.canonical && c.eventId == id;
      assert c in seen && r in seen && Variant(c) == Variant(r);
    }
  }
}
