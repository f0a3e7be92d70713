/**
 Reads of the trending buckets at the same time: analytics/src/bucketed-trending.ts, for one entity type.
 A read stores its union under a temporary key, ranks it, and deletes the key. The key is named after the
 current bucket and the millisecond, so that reads in one millisecond share it.
 */
module SharedKeys {
  import opened BucketedTrending

  datatype Name = Name(current: int, stamp: int)

  datatype State = State(buckets: Buckets, keys: map<Name, map<string, real>>)

  datatype Action =
    | Add(id: string, weight: int, eventTimeMs: int)   // somebody records an event
    | Unite(name: Name)                                // some read's ZUNIONSTORE
    | Drop(name: Name)                                 // some read's DEL, or the key's minute has gone by

  /** The union as it is now. */
  function TrueUnion(y: State, name: Name): map<string, real> {
    Union(y.buckets, Window(name.current))
  }

  /** What ZREVRANGE finds. */
  function Held(y: State, name: Name): map<string, real> {
    if name in y.keys then y.keys[name] else map[]
  }

  function Step(y: State, a: Action): State {
    match a
    case Add(id, weight, eventTimeMs) => y.(buckets := Record(y.buckets, id, weight, eventTimeMs))
    case Unite(name) => y.(keys := y.keys[name := TrueUnion(y, name)])
    case Drop(name) => y.(keys := y.keys - {name})
  }

  function RunFrom(y: State, run: seq<Action>): State {
    if run == [] then y else Step(RunFrom(y, run[..|run| - 1]), run[|run| - 1])
  }

  /** The last command on the key is a DEL. */
  predicate Dropped(run: seq<Action>, name: Name) {
    run != []
    && (run[|run| - 1] == Drop(name) || (run[|run| - 1] != Unite(name) && Dropped(run[..|run| - 1], name)))
  }

  /** What is held was the union at the k-th moment since the read's own ZUNIONSTORE. */
  predicate TrueAt(y: State, name: Name, run: seq<Action>, k: nat) {
    k <= |run| && Held(RunFrom(y, run), name) == TrueUnion(RunFrom(y, run[..k]), name)
  }

  ghost predicate TrueAtSomeMoment(y: State, name: Name, run: seq<Action>) {
    exists k :: TrueAt(y, name, run, k)
  }

  lemma OtherActionsKeep(y: State, a: Action, name: Name)
    requires a != Drop(name) && a != Unite(name)
    ensures Held(Step(y, a), name) == Held(y, name)
  {
    hide Record, Union;
  }

  /** Starting behind the read's own ZUNIONSTORE. */
  lemma {:induction false} HeldIsTrueOrDropped(y: State, name: Name, run: seq<Action>)
    requires Held(y, name) == TrueUnion(y, name)
    ensures if Dropped(run, name) then Held(RunFrom(y, run), name) == map[] else TrueAtSomeMoment(y, name, run)
  {
    hide TrueUnion, Step;
    if run == [] {
      assert TrueAt(y, name, run, 0);
    } else {
      var n := |run| - 1;
      var before := RunFrom(y, run[..n]);
      HeldIsTrueOrDropped(y, name, run[..n]);
      if run[n] == Drop(name) || run[n] == Unite(name) {
        KeyCommand(before, run[n], name);
        assert run[..n + 1] == run;
        assert run[n] == Unite(name) ==> TrueAt(y, name, run, n + 1);
      } else {
        OtherActionsKeep(before, run[n], name);
        if !Dropped(run, name) {
          var k: nat :| TrueAt(y, name, run[..n], k);
          assert run[..n][..k] == run[..k];
          assert TrueAt(y, name, run, k);
        }
      }
    }
  }

  lemma KeyCommand(y: State, a: Action, name: Name)
    requires a == Drop(name) || a == Unite(name)
    ensures Held(Step(y, a), name) == if a.Drop? then map[] else TrueUnion(Step(y, a), name)
  {
  }

  lemma RecordKeepsIds(b: Buckets, id: string, weight: int, eventTimeMs: int, sources: seq<Source>)
    ensures BucketIds(b, sources) <= BucketIds(Record(b, id, weight, eventTimeMs), sources)
  {
    var b' := Record(b, id, weight, eventTimeMs);
    forall x | x in BucketIds(b, sources) ensures x in BucketIds(b', sources) {
      var s :| s in sources && s.bucket in b && x in b[s.bucket];
      assert s.bucket in b' && x in b'[s.bucket];
    }
  }

  /** A union does not become empty. */
  lemma {:induction false} UnionStays(y: State, name: Name, run: seq<Action>)
    requires TrueUnion(y, name) != map[]
    ensures TrueUnion(RunFrom(y, run), name) != map[]
    ensures BucketIds(y.buckets, Window(name.current)) <= BucketIds(RunFrom(y, run).buckets, Window(name.current))
  {
    hide Record, BucketIds, Window, UnionScore;
    if run != [] {
      var n := |run| - 1;
      UnionStays(y, name, run[..n]);
      var before := RunFrom(y, run[..n]);
      if run[n].Add? {
        RecordKeepsIds(before.buckets, run[n].id, run[n].weight, run[n].eventTimeMs, Window(name.current));
      }
      assert BucketIds(y.buckets, Window(name.current)) != {};
      NonEmptyUnion(RunFrom(y, run).buckets, Window(name.current));
    }
  }

  lemma NonEmptyUnion(b: Buckets, sources: seq<Source>)
    requires BucketIds(b, sources) != {}
    ensures Union(b, sources) != map[]
  {
    hide UnionScore, BucketIds;
    var id :| id in BucketIds(b, sources);
    assert id in Union(b, sources);
  }

  /** Whatever other reads and recordings come between a read's ZUNIONSTORE and its ZREVRANGE: what it ranks
      is the union of some moment in between if and only if no DEL of another read came last on the key,
      or there was nothing to read. */
  lemma AnswerIsTrueIff(y: State, name: Name, between: seq<Action>)
    ensures var stored := Step(y, Unite(name));
            TrueAtSomeMoment(stored, name, between) <==> !Dropped(between, name) || TrueUnion(y, name) == map[]
  {
    hide Dropped, RunFrom;
    var stored := Step(y, Unite(name));
    assert TrueUnion(stored, name) == TrueUnion(y, name);
    HeldIsTrueOrDropped(stored, name, between);
    if Dropped(between, name) {
      if TrueUnion(y, name) == map[] {
        NoMove(stored);
        assert between[..0] == [];
        assert TrueAt(stored, name, between, 0);
      } else {
        forall k | 0 <= k <= |between| ensures !TrueAt(stored, name, between, k) {
          UnionStays(stored, name, between[..k]);
        }
      }
    }
  }

  lemma NoMove(y: State)
    ensures RunFrom(y, []) == y
  {
  }

  /** A read that has the key to itself ranks its own union. */
  lemma {:induction false} AloneOnKey(y: State, name: Name, between: seq<Action>)
    requires Unite(name) !in between && Drop(name) !in between
    ensures Held(RunFrom(Step(y, Unite(name)), between), name) == TrueUnion(y, name)
  {
    hide Step;
    if between == [] {
      KeyCommand(y, Unite(name), name);
      UniteKeepsUnion(y, name);
    } else {
      var n := |between| - 1;
      assert between[n] in between && forall a :: a in between[..n] ==> a in between;
      AloneOnKey(y, name, between[..n]);
      OtherActionsKeep(RunFrom(Step(y, Unite(name)), between[..n]), between[n], name);
    }
  }

  lemma UniteKeepsUnion(y: State, name: Name)
    ensures TrueUnion(Step(y, Unite(name)), name) == TrueUnion(y, name)
  {
  }

  /** Two reads in one millisecond: the first ranks and deletes between the second's ZUNIONSTORE and its
      ZREVRANGE, and the second answers with nothing, whatever there was. */
  lemma SharedKeyLosesAnswer(y: State, name: Name, limit: nat, ranking: seq<Entry>)
    requires IsRanking(ranking, Held(RunFrom(y, [Unite(name), Unite(name), Drop(name)]), name))
    ensures Exposed(Range(ranking, limit - 1)) == []
  {
    hide Step, TrueUnion;
    var run := [Unite(name), Unite(name), Drop(name)];
    assert run[|run| - 1] == Drop(name);
    KeyCommand(RunFrom(y, run[..2]), Drop(name), name);
  }

  /** An event recorded before a read's ZUNIONSTORE is in what the read ranks, if its bucket is in the window. */
  lemma AddedIsUnited(y: State, id: string, weight: nat, eventTimeMs: int, name: Name)
    requires weight > 0 && name.current - 12 < eventTimeMs / 300_000 <= name.current
    ensures id in Held(RunFrom(y, [Add(id, weight, eventTimeMs), Unite(name)]), name)
  {
    hide UnionScore;
    var run := [Add(id, weight, eventTimeMs), Unite(name)];
    assert run[..|run| - 1] == [run[0]] && [run[0]][..|[run[0]]| - 1] == [];
    assert RunFrom(y, [run[0]]) == Step(y, run[0]);
    var sources, age := Window(name.current), name.current - eventTimeMs / 300_000;
    var y1, s := Step(y, run[0]), sources[age];
    assert s.bucket == eventTimeMs / 300_000 && s in sources;
    assert s.bucket in y1.buckets && id in y1.buckets[s.bucket];
    assert id in Union(y1.buckets, sources);
  }
}
