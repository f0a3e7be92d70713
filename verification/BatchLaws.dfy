/**
 What becomes of a record and of a chunk, said without the functions that compute it: bigquery.ts and
 message-handler.ts of bq-sink.
 */
module BatchLaws {
  import opened Wrappers
  import opened BatchHandler

  const EVENT_TYPES := {
    "post.created", "post.liked", "post.unliked", "post.commented", "post.comment_deleted", "post.hidden",
    "post.unhidden", "user.followed", "user.unfollowed", "live.started", "live.ended", "post.impression",
    "post.dwell", "feed.served", "media.progress"
  }

  /** The table of an event type: its two words joined by an underscore, behind "raw_". */
  ghost predicate IsTableOf(table: string, eventType: string) {
    exists what, happened :: Joins(table, eventType, what, happened)
  }

  predicate Joins(table: string, eventType: string, what: string, happened: string) {
    eventType == what + "." + happened && table == "raw_" + what + "_" + happened
  }

  /** The fifteen types have each their table, and no other type has one. */
  lemma TablesAreNamed(eventType: string)
    ensures OwnTable(eventType).Some? <==> eventType in EVENT_TYPES
    ensures OwnTable(eventType).Some? ==> IsTableOf(OwnTable(eventType).value, eventType)
  {
    hide IsTableOf, Joins;
    if eventType in EVENT_TYPES {
      PostTables();
      PostStateTables();
      ViewTables();
      PeopleTables();
    }
  }

  lemma Named(table: string, eventType: string, what: string, happened: string)
    requires Joins(table, eventType, what, happened)
    ensures IsTableOf(table, eventType)
  {
  }

  lemma PostTables()
    ensures IsTableOf("raw_post_created", "post.created")
    ensures IsTableOf("raw_post_liked", "post.liked")
    ensures IsTableOf("raw_post_unliked", "post.unliked")
    ensures IsTableOf("raw_post_commented", "post.commented")
  {
    hide IsTableOf;
    Named("raw_post_created", "post.created", "post", "created");
    Named("raw_post_liked", "post.liked", "post", "liked");
    Named("raw_post_unliked", "post.unliked", "post", "unliked");
    Named("raw_post_commented", "post.commented", "post", "commented");
  }

  lemma PostStateTables()
    ensures IsTableOf("raw_post_comment_deleted", "post.comment_deleted")
    ensures IsTableOf("raw_post_hidden", "post.hidden")
    ensures IsTableOf("raw_post_unhidden", "post.unhidden")
  {
    hide IsTableOf;
    Named("raw_post_comment_deleted", "post.comment_deleted", "post", "comment_deleted");
    Named("raw_post_hidden", "post.hidden", "post", "hidden");
    Named("raw_post_unhidden", "post.unhidden", "post", "unhidden");
  }

  lemma ViewTables()
    ensures IsTableOf("raw_post_impression", "post.impression")
    ensures IsTableOf("raw_post_dwell", "post.dwell")
    ensures IsTableOf("raw_feed_served", "feed.served")
    ensures IsTableOf("raw_media_progress", "media.progress")
  {
    hide IsTableOf;
    Named("raw_post_impression", "post.impression", "post", "impression");
    Named("raw_post_dwell", "post.dwell", "post", "dwell");
    Named("raw_feed_served", "feed.served", "feed", "served");
    Named("raw_media_progress", "media.progress", "media", "progress");
  }

  lemma PeopleTables()
    ensures IsTableOf("raw_user_followed", "user.followed")
    ensures IsTableOf("raw_user_unfollowed", "user.unfollowed")
    ensures IsTableOf("raw_live_started", "live.started")
    ensures IsTableOf("raw_live_ended", "live.ended")
  {
    hide IsTableOf;
    Named("raw_user_followed", "user.followed", "user", "followed");
    Named("raw_user_unfollowed", "user.unfollowed", "user", "unfollowed");
    Named("raw_live_started", "live.started", "live", "started");
    Named("raw_live_ended", "live.ended", "live", "ended");
  }

  /** A record becomes a row for the table of its type, or it is quarantined with the reason that fits. */
  lemma RecordsAreSorted(m: Message)
    ensures match m.content
            case NotJson => Parse(m) == DeadLetter(m.offset, MalformedJson, m.size)
            case NotEnvelope => Parse(m) == DeadLetter(m.offset, InvalidEnvelope, m.size)
            case Envelope(t) =>
              if t in EVENT_TYPES then
                && Parse(m).EventRow? && Parse(m).offset == m.offset && Parse(m).size == m.size
                && Parse(m).target.Table? && IsTableOf(Parse(m).target.name, t)
              else if t in INHERITED then Parse(m) == EventRow(m.offset, Inherited(t), m.size)
              else Parse(m) == DeadLetter(m.offset, UnmappedType, m.size)
  {
    hide OwnTable, IsTableOf;
    if m.content.Envelope? {
      TablesAreNamed(m.content.eventType);
    }
  }

  /** The service reports rows as rejected, and each for reasons that are all permanent. */
  predicate AllPermanent(failures: map<nat, seq<string>>) {
    && failures != map[]
    && forall o :: o in failures ==>
         && |failures[o]| >= 1
         && forall k :: 0 <= k < |failures[o]| ==> failures[o][k] in {"invalid", "invalidQuery"}
  }

  lemma PermanentIff(failures: map<nat, seq<string>>)
    ensures Quarantinable(failures) <==> AllPermanent(failures)
  {
    if AllPermanent(failures) {
      assert failures.Keys != {};
      forall o | o in failures ensures Permanent(failures[o]) {
        forall r | r in failures[o] ensures r == "invalid" || r == "invalidQuery" {
          var k :| 0 <= k < |failures[o]| && failures[o][k] == r;
        }
      }
    }
    if Quarantinable(failures) {
      forall o | o in failures
        ensures |failures[o]| >= 1
        ensures forall k :: 0 <= k < |failures[o]| ==> failures[o][k] in {"invalid", "invalidQuery"}
      {
        assert Permanent(failures[o]);
        forall k | 0 <= k < |failures[o]| ensures failures[o][k] in {"invalid", "invalidQuery"} {
          assert failures[o][k] in failures[o];
        }
      }
      assert exists o :: o in failures.Keys by { var o := SomeElement(failures.Keys); }
    }
  }

  /** What is there after an insert that does not succeed: the rows not reported, or those that came through. */
  function Arrived(insert: Insert, offsets: set<nat>): set<nat> {
    match insert
    case Accepted => offsets
    case Partial(failures) => offsets - failures.Keys
    case Refused(arrived) => arrived * offsets
  }

  /** A chunk of rows is done exactly if the service takes it, or rejects rows for permanent reasons only and
      the quarantine takes those; then every row has landed or been quarantined, the rejected ones
      quarantined and no other. Otherwise nothing is quarantined. A chunk of dead letters is done exactly if
      the quarantine takes it. What was kept before stays. */
  lemma ChunkIsDoneIff(s: Sink, chunk: seq<Parsed>, t: Turn)
    requires chunk != []
    ensures var w := WriteChunk(s, chunk, t);
            var offsets := set p | p in chunk :: p.offset;
            && w.sink.resolved == s.resolved
            && w.sink.failed == s.failed + (if w.ok then 0 else |chunk|)
            && (chunk[0].DeadLetter? ==>
                  && (w.ok <==> t.quarantine.Accepted?)
                  && w.sink.landed == s.landed && w.sink.succeeded == s.succeeded
                  && w.sink.quarantinedCount == s.quarantinedCount + (if w.ok then |chunk| else 0)
                  && w.sink.quarantined == s.quarantined + if w.ok then offsets else {})
            && (chunk[0].EventRow? ==>
                  && (w.ok <==> t.insert.Accepted?
                                || (t.insert.Partial? && AllPermanent(t.insert.failures) && t.quarantine.Accepted?))
                  && (w.ok && t.insert.Accepted? ==>
                        && w.sink.landed == s.landed + offsets && w.sink.quarantined == s.quarantined
                        && w.sink.succeeded == s.succeeded + |chunk|
                        && w.sink.quarantinedCount == s.quarantinedCount)
                  && (w.ok && t.insert.Partial? ==>
                        && w.sink.landed == s.landed + (offsets - t.insert.failures.Keys)
                        && w.sink.quarantined == s.quarantined + offsets * t.insert.failures.Keys
                        && w.sink.succeeded == s.succeeded + |chunk| - |t.insert.failures|
                        && w.sink.quarantinedCount == s.quarantinedCount + |t.insert.failures|)
                  && (!w.ok ==>
                        && w.sink.quarantined == s.quarantined
                        && w.sink.landed == s.landed + Arrived(t.insert, offsets)
                        && w.sink.succeeded == s.succeeded && w.sink.quarantinedCount == s.quarantinedCount))
  {
    hide Quarantinable;
    if t.insert.Partial? {
      PermanentIff(t.insert.failures);
    }
  }

  // ----- where a chunk ends -----

  predicate RowsFor(chunk: seq<Parsed>, target: Target) {
    forall i :: 0 <= i < |chunk| ==> chunk[i].EventRow? && chunk[i].target == target
  }

  /** Only records to quarantine, or only rows for one table. */
  ghost predicate OneDestination(chunk: seq<Parsed>) {
    || (forall i :: 0 <= i < |chunk| ==> chunk[i].DeadLetter?)
    || (exists target :: RowsFor(chunk, target))
  }

  /** May go out in one request. */
  ghost predicate MayShare(chunk: seq<Parsed>, batchSize: nat) {
    |chunk| == 1 || (|chunk| <= batchSize && OneDestination(chunk) && Bytes(chunk) <= 921_600)
  }

  lemma OneDestinationIff(chunk: seq<Parsed>)
    requires chunk != []
    ensures OneDestination(chunk) <==> forall i :: 0 <= i < |chunk| ==> SameDestination(chunk[0], chunk[i])
  {
    if forall i :: 0 <= i < |chunk| ==> SameDestination(chunk[0], chunk[i]) {
      if chunk[0].EventRow? {
        assert RowsFor(chunk, chunk[0].target);
      }
    }
    if OneDestination(chunk) {
      assert SameDestination(chunk[0], chunk[0]);
    }
  }

  lemma {:induction false} ExtendStops(ps: seq<Parsed>, start: nat, end: nat, bytes: nat, batchSize: nat)
    requires start < end <= |ps| && bytes == Bytes(ps[start..end])
    ensures var r := Extend(ps, start, end, bytes, batchSize);
            r < |ps| ==> || r - start >= batchSize || !SameDestination(ps[start], ps[r])
                         || Bytes(ps[start..r + 1]) > MAX_BATCH_BYTES
    decreases |ps| - end
  {
    hide SameDestination;
    if end < |ps| {
      assert ps[start..end + 1][..end - start] == ps[start..end];
      if end - start < batchSize && SameDestination(ps[start], ps[end]) && bytes + ps[end].size <= MAX_BATCH_BYTES {
        ExtendStops(ps, start, end + 1, bytes + ps[end].size, batchSize);
      }
    }
  }

  /** A chunk may go out in one request, and with the next record it might not. */
  lemma ChunkIsLongest(ps: seq<Parsed>, start: nat, batchSize: nat)
    requires start < |ps|
    ensures var end := ChunkEnd(ps, start, batchSize);
            && start < end <= |ps|
            && MayShare(ps[start..end], batchSize)
            && (end < |ps| ==> !MayShare(ps[start..end + 1], batchSize))
  {
    hide SameDestination, Bytes;
    var end := ChunkEnd(ps, start, batchSize);
    var one, chunk := ps[start..start + 1], ps[start..end];
    OneIsItsSize(ps[start]);
    assert one == [ps[start]];
    if batchSize >= 1 {
      ChunkIsGood(ps, start, batchSize);
    } else {
      assert chunk == one;
    }
    OneDestinationIff(chunk);
    ExtendStops(ps, start, start + 1, ps[start].size, batchSize);
    if end < |ps| {
      var more := ps[start..end + 1];
      OneDestinationIff(more);
      assert more[end - start] == ps[end];
    }
  }

  lemma OneIsItsSize(p: Parsed)
    ensures Bytes([p]) == p.size
  {
    assert [p][..0] == [];
  }

  // ----- whole batches -----

  /** A run that finds the assignment stale goes no further, whatever would have come after. */
  lemma {:induction false} StaleEndsTheRun(
      s: Sink, ps: seq<Parsed>, index: nat, turns: seq<Turn>, batchSize: nat, k: nat)
    requires index <= |ps| && k < |turns| && !turns[k].live
    ensures Process(s, ps, index, turns, batchSize) == Process(s, ps, index, turns[..k], batchSize)
    decreases |ps| - index
  {
    hide WriteChunk, ChunkEnd, OffsetList;
    if k > 0 && index < |ps| && turns[0].live {
      var end := ChunkEnd(ps, index, batchSize);
      var w := WriteChunk(s, ps[index..end], turns[0]);
      assert turns[..k][1..] == turns[1..][..k - 1] && turns[..k][0] == turns[0];
      if w.ok {
        StaleEndsTheRun(w.sink.(resolved := w.sink.resolved + OffsetList(ps[index..end])), ps, end, turns[1..],
                        batchSize, k - 1);
      }
    }
  }

  /** So does one whose write fails: nothing behind that chunk is written. */
  lemma {:induction false} FailureEndsTheRun(
      s: Sink, ps: seq<Parsed>, index: nat, turns: seq<Turn>, batchSize: nat, k: nat)
    requires index <= |ps| && k < |turns| && turns[k].insert.Refused? && !turns[k].quarantine.Accepted?
    ensures Process(s, ps, index, turns, batchSize) == Process(s, ps, index, turns[..k + 1], batchSize)
    decreases |ps| - index
  {
    hide ChunkEnd, OffsetList;
    if index < |ps| && turns[0].live {
      var end := ChunkEnd(ps, index, batchSize);
      var w := WriteChunk(s, ps[index..end], turns[0]);
      assert turns[..k + 1][1..] == turns[1..][..k] && turns[..k + 1][0] == turns[0];
      if k > 0 && w.ok {
        FailureEndsTheRun(w.sink.(resolved := w.sink.resolved + OffsetList(ps[index..end])), ps, end, turns[1..],
                          batchSize, k - 1);
      }
    }
  }

  /** The counters of a run: every resolved record is counted once, as landed or as quarantined, and only
      the records of a chunk whose write failed are counted as failed. */
  lemma {:induction false} CountersAddUp(s: Sink, ps: seq<Parsed>, index: nat, turns: seq<Turn>, batchSize: nat)
    requires index <= |ps|
    ensures var r := Process(s, ps, index, turns, batchSize);
            && r.sink.succeeded + r.sink.quarantinedCount == s.succeeded + s.quarantinedCount + r.done - index
            && (r.sink.failed == s.failed
                || (r.done < |ps| && r.sink.failed == s.failed + ChunkEnd(ps, r.done, batchSize) - r.done))
    decreases |ps| - index
  {
    hide WriteChunk, ChunkEnd, OffsetList;
    if index < |ps| && turns != [] && turns[0].live {
      var end := ChunkEnd(ps, index, batchSize);
      var w := WriteChunk(s, ps[index..end], turns[0]);
      ChunkIsDoneIff(s, ps[index..end], turns[0]);
      if w.ok {
        var next := w.sink.(resolved := w.sink.resolved + OffsetList(ps[index..end]));
        CountersAddUp(next, ps, end, turns[1..], batchSize);
      }
    }
  }

  /** If nothing goes stale and every request is taken, then afterwards exactly the rows of the batch have
      landed besides what was there, and exactly its other records have been quarantined. */
  lemma {:induction false} CalmRunSorts(s: Sink, ps: seq<Parsed>, index: nat, turns: seq<Turn>, batchSize: nat)
    requires index <= |ps| && |turns| >= |ps| - index
    requires forall t :: t in turns ==> t == Turn(true, Accepted, Accepted)
    ensures var r := Process(s, ps, index, turns, batchSize);
            && r.done == |ps|
            && r.sink.landed == s.landed + (set p | p in ps[index..] && p.EventRow? :: p.offset)
            && r.sink.quarantined == s.quarantined + (set p | p in ps[index..] && p.DeadLetter? :: p.offset)
    decreases |ps| - index
  {
    hide ChunkEnd, WriteChunk, OffsetList, OneDestination, Bytes;
    if index < |ps| {
      assert turns[0] in turns;
      assert forall t :: t in turns[1..] ==> t in turns;
      var end := ChunkEnd(ps, index, batchSize);
      var chunk := ps[index..end];
      var w := WriteChunk(s, chunk, turns[0]);
      ChunkIsDoneIff(s, chunk, turns[0]);
      ChunkIsLongest(ps, index, batchSize);
      OneKind(chunk, batchSize);
      var s1 := w.sink.(resolved := w.sink.resolved + OffsetList(chunk));
      CalmRunSorts(s1, ps, end, turns[1..], batchSize);
      assert ps[index..] == chunk + ps[end..];
    }
  }

  lemma OneKind(chunk: seq<Parsed>, batchSize: nat)
    requires chunk != [] && MayShare(chunk, batchSize)
    ensures forall p :: p in chunk ==> p.EventRow? == chunk[0].EventRow?
  {
    forall p | p in chunk ensures p.EventRow? == chunk[0].EventRow? {
      var k :| 0 <= k < |chunk| && chunk[k] == p;
    }
  }

  /** A batch takes up at the position and moves it behind what it has resolved, offset by offset; only a
      commit moves the committed offset, and a restart goes back to it. */
  lemma StepMovesPosition(p: Partition, e: Event, batchSize: nat)
    requires p.committed <= p.position <= |p.log|
    ensures var p' := Step(p, e, batchSize);
            match e
            case Restart => p' == p.(position := p.committed)
            case Fetch(count, turns, commit) =>
              && p.position <= p'.position <= p.position + count
              && p'.committed == (if commit then p'.position else p.committed)
              && |p'.sink.resolved| == |p.sink.resolved| + (p'.position - p.position)
              && p'.sink.resolved[..|p.sink.resolved|] == p.sink.resolved
              && (forall i :: p.position <= i < p'.position ==>
                    p'.sink.resolved[|p.sink.resolved| + (i - p.position)] == p.log[i].offset)
  {
    hide Process, ParseAll, Parse, OffsetList;
    if e.Fetch? {
      var ms := Fetched(p, e.count);
      var ps := ParseAll(ms);
      var r := Process(p.sink, ps, 0, e.turns, batchSize);
      RunResolvesPrefix(p.sink, ps, 0, e.turns, batchSize);
      OffsetListAt(ps[0..r.done]);
      forall i | p.position <= i < p.position + r.done
        ensures r.sink.resolved[|p.sink.resolved| + (i - p.position)] == p.log[i].offset
      {
        assert ps[0..r.done][i - p.position] == Parse(ms[i - p.position]);
      }
    }
  }

  lemma {:induction false} OffsetListAt(ps: seq<Parsed>)
    ensures |OffsetList(ps)| == |ps| && forall i :: 0 <= i < |ps| ==> OffsetList(ps)[i] == ps[i].offset
  {
    if ps != [] {
      OffsetListAt(ps[..|ps| - 1]);
    }
  }

  /** A fetch takes as many records as are asked for, or all there are. */
  lemma FetchedIsNext(p: Partition, count: nat)
    requires p.position <= |p.log|
    ensures |Fetched(p, count)| == count || p.position + |Fetched(p, count)| == |p.log|
    ensures |Fetched(p, count)| <= count && p.position + |Fetched(p, count)| <= |p.log|
  {
  }

  /** Whatever went wrong before, one batch of everything that is left, with no further trouble, commits the
      whole log. */
  lemma CalmFetchCatchesUp(log: seq<Message>, es: seq<Event>, turns: seq<Turn>, batchSize: nat)
    requires |turns| >= |log| && forall t :: t in turns ==> t == Turn(true, Accepted, Accepted)
    ensures var start := Partition(log, 0, 0, Sink({}, {}, [], 0, 0, 0));
            Run(start, es + [Fetch(|log|, turns, true)], batchSize).committed == |log|
  {
    hide Process, ParseAll, Parse;
    var start := Partition(log, 0, 0, Sink({}, {}, [], 0, 0, 0));
    var p := Run(start, es, batchSize);
    assert (es + [Fetch(|log|, turns, true)])[..|es|] == es;
    CalmRunResolvesAll(p.sink, ParseAll(Fetched(p, |log|)), 0, turns, batchSize);
  }
}
