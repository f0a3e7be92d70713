/**
 Landing a Kafka batch in the warehouse: bq-sink/src/message-handler.ts with the insert of bigquery.ts.
 Offsets are resolved chunk by chunk, after the chunk has been landed or quarantined.
 */
module BatchHandler {
  import opened Wrappers

  const MAX_BATCH_BYTES := 900 * 1024

  // ----- parsing -----

  /** A record as far as `parseMessage` distinguishes it; `size` is the estimate of its row. */
  datatype Content = NotJson | NotEnvelope | Envelope(eventType: string)

  datatype Message = Message(offset: nat, content: Content, size: nat)

  datatype Reason = MalformedJson | InvalidEnvelope | UnmappedType

  /** What the look-up of an event type in the plain object of tables finds: one of its own entries, or a
      property that every object inherits, which is not a table's name but is not undefined either. */
  datatype Target = Table(name: string) | Inherited(property: string)

  datatype Parsed =
    | EventRow(offset: nat, target: Target, size: nat)
    | DeadLetter(offset: nat, reason: Reason, size: nat)

  /** The properties of Object.prototype (ECMAScript, sections 20.1.3 and B.2.2). */
  const INHERITED := {
    "constructor", "hasOwnProperty", "isPrototypeOf", "propertyIsEnumerable", "toLocaleString", "toString",
    "valueOf", "__proto__", "__defineGetter__", "__defineSetter__", "__lookupGetter__", "__lookupSetter__"
  }

  /** The entry of the table map itself. */
  function OwnTable(eventType: string): Option<string> {
    if eventType == "post.created" then Some("raw_post_created")
    else if eventType == "post.liked" then Some("raw_post_liked")
    else if eventType == "post.unliked" then Some("raw_post_unliked")
    else if eventType == "post.commented" then Some("raw_post_commented")
    else if eventType == "post.comment_deleted" then Some("raw_post_comment_deleted")
    else if eventType == "post.hidden" then Some("raw_post_hidden")
    else if eventType == "post.unhidden" then Some("raw_post_unhidden")
    else if eventType == "user.followed" then Some("raw_user_followed")
    else if eventType == "user.unfollowed" then Some("raw_user_unfollowed")
    else if eventType == "live.started" then Some("raw_live_started")
    else if eventType == "live.ended" then Some("raw_live_ended")
    else if eventType == "post.impression" then Some("raw_post_impression")
    else if eventType == "post.dwell" then Some("raw_post_dwell")
    else if eventType == "feed.served" then Some("raw_feed_served")
    else if eventType == "media.progress" then Some("raw_media_progress")
    else None
  }

  /** The look-up finds inherited properties too. */
  function TableFor(eventType: string): Option<Target> {
    match OwnTable(eventType)
    case Some(table) => Some(Table(table))
    case None => if eventType in INHERITED then Some(Inherited(eventType)) else None
  }

  function Parse(m: Message): (p: Parsed)
    ensures p.offset == m.offset
  {
    match m.content
    case NotJson => DeadLetter(m.offset, MalformedJson, m.size)
    case NotEnvelope => DeadLetter(m.offset, InvalidEnvelope, m.size)
    case Envelope(t) =>
      match TableFor(t)
      case None => DeadLetter(m.offset, UnmappedType, m.size)
      case Some(target) => EventRow(m.offset, target, m.size)
  }

  /** An envelope of a type that has no table is quarantined if and only if its type is not the name of an
      inherited property; "constructor" is one. */
  lemma UnmappedIsQuarantinedIff(m: Message)
    requires m.content.Envelope? && OwnTable(m.content.eventType).None?
    ensures Parse(m) == DeadLetter(m.offset, UnmappedType, m.size) <==> m.content.eventType !in INHERITED
    ensures m.content.eventType == "constructor" ==> Parse(m).EventRow?
  {
    hide OwnTable;
  }

  function ParseAll(ms: seq<Message>): (ps: seq<Parsed>)
    ensures |ps| == |ms| && forall i :: 0 <= i < |ms| ==> ps[i] == Parse(ms[i])
  {
    if ms == [] then [] else [Parse(ms[0])] + ParseAll(ms[1..])
  }

  // ----- chunking -----

  predicate SameDestination(a: Parsed, b: Parsed) {
    (a.DeadLetter? && b.DeadLetter?) || (a.EventRow? && b.EventRow? && a.target == b.target)
  }

  /** Where the chunk that starts at `start` ends, once it holds `[start, end)` of `bytes` bytes. */
  function Extend(ps: seq<Parsed>, start: nat, end: nat, bytes: nat, batchSize: nat): (r: nat)
    requires start < end <= |ps|
    ensures end <= r <= |ps|
    decreases |ps| - end
  {
    if end < |ps| && end - start < batchSize && SameDestination(ps[start], ps[end])
       && bytes + ps[end].size <= MAX_BATCH_BYTES
    then Extend(ps, start, end + 1, bytes + ps[end].size, batchSize)
    else end
  }

  function ChunkEnd(ps: seq<Parsed>, start: nat, batchSize: nat): (r: nat)
    requires start < |ps|
    ensures start < r <= |ps|
  {
    Extend(ps, start, start + 1, ps[start].size, batchSize)
  }

  function Bytes(ps: seq<Parsed>): nat {
    if ps == [] then 0 else Bytes(ps[..|ps| - 1]) + ps[|ps| - 1].size
  }

  predicate GoodChunk(chunk: seq<Parsed>, batchSize: nat) {
    && 1 <= |chunk| <= batchSize
    && (forall i :: 0 <= i < |chunk| ==> SameDestination(chunk[0], chunk[i]))
    && (|chunk| == 1 || Bytes(chunk) <= MAX_BATCH_BYTES)
  }

  lemma OneMore(chunk: seq<Parsed>, next: Parsed, batchSize: nat)
    requires GoodChunk(chunk, batchSize) && |chunk| < batchSize && SameDestination(chunk[0], next)
    requires Bytes(chunk) + next.size <= MAX_BATCH_BYTES
    ensures GoodChunk(chunk + [next], batchSize) && Bytes(chunk + [next]) == Bytes(chunk) + next.size
  {
    assert (chunk + [next])[..|chunk|] == chunk;
  }

  lemma {:induction false} ExtendIsGood(ps: seq<Parsed>, start: nat, end: nat, bytes: nat, batchSize: nat)
    requires start < end <= |ps| && bytes == Bytes(ps[start..end]) && GoodChunk(ps[start..end], batchSize)
    ensures GoodChunk(ps[start..Extend(ps, start, end, bytes, batchSize)], batchSize)
    decreases |ps| - end
  {
    hide GoodChunk, Bytes, SameDestination;
    if end < |ps| && end - start < batchSize && SameDestination(ps[start], ps[end])
       && bytes + ps[end].size <= MAX_BATCH_BYTES {
      assert ps[start..end + 1] == ps[start..end] + [ps[end]];
      OneMore(ps[start..end], ps[end], batchSize);
      ExtendIsGood(ps, start, end + 1, bytes + ps[end].size, batchSize);
    }
  }

  /** One destination, at most batchSize rows, and at most MAX_BATCH_BYTES unless it is a single row. */
  lemma ChunkIsGood(ps: seq<Parsed>, start: nat, batchSize: nat)
    requires start < |ps| && batchSize >= 1
    ensures GoodChunk(ps[start..ChunkEnd(ps, start, batchSize)], batchSize)
  {
    var one := ps[start..start + 1];
    assert one == [ps[start]] && one[..0] == [];
    ExtendIsGood(ps, start, start + 1, ps[start].size, batchSize);
  }

  // ----- writing -----

  /** What `table.insert` reports: success, rows it rejected with their reasons, or another failure,
      after which any of the rows may be there. */
  datatype Insert = Accepted | Partial(failures: map<nat, seq<string>>) | Refused(arrived: set<nat>)

  /** The answers of the services during one turn of the loop. */
  datatype Turn = Turn(live: bool, insert: Insert, quarantine: Insert)

  datatype Sink = Sink(landed: set<nat>, quarantined: set<nat>, resolved: seq<nat>,
                       succeeded: int, quarantinedCount: nat, failed: nat)

  function Offsets(ps: seq<Parsed>): set<nat> {
    set p | p in ps :: p.offset
  }

  function OffsetList(ps: seq<Parsed>): seq<nat> {
    if ps == [] then [] else OffsetList(ps[..|ps| - 1]) + [ps[|ps| - 1].offset]
  }

  predicate Permanent(reasons: seq<string>) {
    reasons != [] && forall r :: r in reasons ==> r == "invalid" || r == "invalidQuery"
  }

  /** Rejected rows are quarantined only if every rejection is permanent; otherwise the batch fails. */
  predicate Quarantinable(failures: map<nat, seq<string>>) {
    failures.Keys != {} && forall o :: o in failures ==> Permanent(failures[o])
  }

  datatype Written = Written(sink: Sink, ok: bool)

  function WriteEvents(s: Sink, chunk: seq<Parsed>, t: Turn): Written {
    match t.insert
    case Accepted => Written(s.(landed := s.landed + Offsets(chunk), succeeded := s.succeeded + |chunk|), true)
    case Refused(arrived) =>
      Written(s.(landed := s.landed + (arrived * Offsets(chunk)), failed := s.failed + |chunk|), false)
    case Partial(failures) =>
      var rejected := failures.Keys * Offsets(chunk);
      var s1 := s.(landed := s.landed + (Offsets(chunk) - failures.Keys));
      if !Quarantinable(failures) then Written(s1.(failed := s1.failed + |chunk|), false)
      else if !t.quarantine.Accepted? then Written(s1.(failed := s1.failed + |chunk|), false)
      else
        Written(s1.(quarantined := s1.quarantined + rejected,
                    succeeded := s1.succeeded + |chunk| - |failures|,
                    quarantinedCount := s1.quarantinedCount + |failures|), true)
  }

  function WriteDeadLetters(s: Sink, chunk: seq<Parsed>, t: Turn): Written {
    if t.quarantine.Accepted?
    then Written(s.(quarantined := s.quarantined + Offsets(chunk),
                    quarantinedCount := s.quarantinedCount + |chunk|), true)
    else Written(s.(failed := s.failed + |chunk|), false)
  }

  function WriteChunk(s: Sink, chunk: seq<Parsed>, t: Turn): Written
    requires chunk != []
  {
    if chunk[0].EventRow? then WriteEvents(s, chunk, t) else WriteDeadLetters(s, chunk, t)
  }

  /** The whole loop: the sink at the end and how many messages have been resolved. */
  datatype Progress = Progress(sink: Sink, done: nat)

  function Process(s: Sink, ps: seq<Parsed>, index: nat, turns: seq<Turn>, batchSize: nat): (r: Progress)
    requires index <= |ps|
    ensures index <= r.done <= |ps|
    decreases |ps| - index
  {
    if index == |ps| || turns == [] || !turns[0].live then Progress(s, index)
    else
      var end := ChunkEnd(ps, index, batchSize);
      var w := WriteChunk(s, ps[index..end], turns[0]);
      if !w.ok then Progress(w.sink, index)
      else Process(w.sink.(resolved := w.sink.resolved + OffsetList(ps[index..end])), ps, end, turns[1..], batchSize)
  }

  class Handler {
    var landed: set<nat>
    var quarantined: set<nat>
    var resolved: seq<nat>
    var jobsSucceeded: int
    var jobsQuarantined: nat
    var jobsFailed: nat

    constructor ()
      ensures View() == Sink({}, {}, [], 0, 0, 0)
    {
      landed, quarantined, resolved := {}, {}, [];
      jobsSucceeded, jobsQuarantined, jobsFailed := 0, 0, 0;
    }

    function View(): Sink
      reads this
    {
      Sink(landed, quarantined, resolved, jobsSucceeded, jobsQuarantined, jobsFailed)
    }

    method InsertEvents(chunk: seq<Parsed>, t: Turn) returns (ok: bool)
      modifies this
      ensures Written(View(), ok) == WriteEvents(old(View()), chunk, t)
    {
      match t.insert
      case Accepted =>
        landed := landed + Offsets(chunk);
        jobsSucceeded := jobsSucceeded + |chunk|;
        ok := true;
      case Refused(arrived) =>
        landed := landed + (arrived * Offsets(chunk));
        jobsFailed := jobsFailed + |chunk|;
        ok := false;
      case Partial(failures) =>
        landed := landed + (Offsets(chunk) - failures.Keys);
        if !Quarantinable(failures) || !t.quarantine.Accepted? {
          jobsFailed := jobsFailed + |chunk|;
          return false;
        }
        quarantined := quarantined + (failures.Keys * Offsets(chunk));
        jobsSucceeded := jobsSucceeded + |chunk| - |failures|;
        jobsQuarantined := jobsQuarantined + |failures|;
        ok := true;
    }

    method InsertDeadLetters(chunk: seq<Parsed>, t: Turn) returns (ok: bool)
      modifies this
      ensures Written(View(), ok) == WriteDeadLetters(old(View()), chunk, t)
    {
      ok := t.quarantine.Accepted?;
      if ok {
        quarantined := quarantined + Offsets(chunk);
        jobsQuarantined := jobsQuarantined + |chunk|;
      } else {
        jobsFailed := jobsFailed + |chunk|;
      }
    }

    /** The inner loop: the longest run of records that may share one request. */
    method NextChunk(parsed: seq<Parsed>, start: nat, batchSize: nat) returns (chunk: seq<Parsed>)
      requires start < |parsed|
      ensures chunk == parsed[start..ChunkEnd(parsed, start, batchSize)]
    {
      var first := parsed[start];
      chunk := [first];
      var chunkBytes: nat := first.size;
      var index := start + 1;
      while index < |parsed| && |chunk| < batchSize
        invariant start < index <= |parsed| && chunk == parsed[start..index]
        invariant ChunkEnd(parsed, start, batchSize) == Extend(parsed, start, index, chunkBytes, batchSize)
      {
        var next := parsed[index];
        if !SameDestination(first, next) || chunkBytes + next.size > MAX_BATCH_BYTES {
          break;
        }
        chunk := chunk + [next];
        chunkBytes := chunkBytes + next.size;
        index := index + 1;
      }
    }

    method HandleBatch(messages: seq<Message>, turns: seq<Turn>, batchSize: nat) returns (done: nat)
      modifies this
      ensures Progress(View(), done) == Process(old(View()), ParseAll(messages), 0, turns, batchSize)
    {
      hide ChunkEnd, WriteEvents, WriteDeadLetters, ParseAll, Parse, TableFor, OffsetList;
      var parsed := ParseAll(messages);
      var index, turn := 0, 0;
      while index < |parsed|
        invariant index <= |parsed| && turn <= |turns|
        invariant Process(old(View()), parsed, 0, turns, batchSize)
               == Process(View(), parsed, index, turns[turn..], batchSize)
        decreases |parsed| - index
      {
        if turn == |turns| || !turns[turn].live { return index; }
        assert turns[turn..][1..] == turns[turn + 1..];
        var chunk := NextChunk(parsed, index, batchSize);
        var ok: bool;
        if chunk[0].EventRow? {
          ok := InsertEvents(chunk, turns[turn]);
        } else {
          ok := InsertDeadLetters(chunk, turns[turn]);
        }
        if !ok { return index; }
        resolved := resolved + OffsetList(chunk);
        index := index + |chunk|;
        turn := turn + 1;
      }
      done := index;
    }
  }

  // ----- one run -----

  /** Every message before `n` has reached the warehouse or the quarantine. */
  ghost predicate Kept(s: Sink, ps: seq<Parsed>, n: nat)
    requires n <= |ps|
  {
    forall i :: 0 <= i < n ==> ps[i].offset in s.landed || ps[i].offset in s.quarantined
  }

  predicate Grows(s: Sink, s': Sink) {
    s.landed <= s'.landed && s.quarantined <= s'.quarantined
  }

  lemma WriteKeeps(s: Sink, chunk: seq<Parsed>, t: Turn)
    requires chunk != []
    ensures var w := WriteChunk(s, chunk, t);
            && Grows(s, w.sink) && w.sink.resolved == s.resolved
            && (w.ok ==> Offsets(chunk) <= w.sink.landed + w.sink.quarantined)
  {
  }

  lemma {:induction false} OffsetListAppend(a: seq<Parsed>, b: seq<Parsed>)
    ensures OffsetList(a + b) == OffsetList(a) + OffsetList(b)
  {
    if b == [] {
      assert a + b == a;
    } else {
      assert (a + b)[..|a + b| - 1] == a + b[..|b| - 1];
      OffsetListAppend(a, b[..|b| - 1]);
    }
  }

  lemma KeptThrough(s: Sink, s': Sink, ps: seq<Parsed>, index: nat, end: nat)
    requires index <= end <= |ps| && Kept(s, ps, index) && Grows(s, s')
    requires Offsets(ps[index..end]) <= s'.landed + s'.quarantined
    ensures Kept(s', ps, end)
  {
    forall i | 0 <= i < end ensures ps[i].offset in s'.landed || ps[i].offset in s'.quarantined {
      if i >= index {
        assert ps[index..end][i - index] == ps[i] && ps[i] in ps[index..end];
        assert ps[i].offset in Offsets(ps[index..end]);
      } else {
        assert ps[i].offset in s.landed || ps[i].offset in s.quarantined;
      }
    }
  }

  /** However the services answer, everything before the resolved point has been kept. */
  lemma {:induction false} RunKeepsResolved(
      s: Sink, ps: seq<Parsed>, index: nat, turns: seq<Turn>, batchSize: nat)
    requires index <= |ps| && Kept(s, ps, index)
    ensures var r := Process(s, ps, index, turns, batchSize);
            Kept(r.sink, ps, r.done) && Grows(s, r.sink)
    decreases |ps| - index
  {
    hide WriteChunk, ChunkEnd, Offsets, OffsetList;
    if index < |ps| && turns != [] && turns[0].live {
      var end := ChunkEnd(ps, index, batchSize);
      WriteKeeps(s, ps[index..end], turns[0]);
      var w := WriteChunk(s, ps[index..end], turns[0]);
      if w.ok {
        KeptThrough(s, w.sink, ps, index, end);
        var next := w.sink.(resolved := w.sink.resolved + OffsetList(ps[index..end]));
        RunKeepsResolved(next, ps, end, turns[1..], batchSize);
      }
    }
  }

  /** The offsets resolved are those of the messages before that point, in order. */
  lemma {:induction false} RunResolvesPrefix(
      s: Sink, ps: seq<Parsed>, index: nat, turns: seq<Turn>, batchSize: nat)
    requires index <= |ps|
    ensures var r := Process(s, ps, index, turns, batchSize);
            r.sink.resolved == s.resolved + OffsetList(ps[index..r.done])
    decreases |ps| - index
  {
    hide WriteChunk, ChunkEnd, Offsets;
    assert ps[index..index] == [];
    if index < |ps| && turns != [] && turns[0].live {
      var end := ChunkEnd(ps, index, batchSize);
      var chunk := ps[index..end];
      WriteKeeps(s, chunk, turns[0]);
      var w := WriteChunk(s, chunk, turns[0]);
      if w.ok {
        RunResolvesPrefix(w.sink.(resolved := w.sink.resolved + OffsetList(chunk)), ps, end, turns[1..], batchSize);
        var done := Process(s, ps, index, turns, batchSize).done;
        OffsetListAppend(chunk, ps[end..done]);
        assert chunk + ps[end..done] == ps[index..done];
      }
    }
  }

  // ----- many runs over one partition -----

  /** `position` is the next record to fetch, `committed` where a restarted consumer begins. */
  datatype Partition = Partition(log: seq<Message>, position: nat, committed: nat, sink: Sink)

  datatype Event =
    | Fetch(count: nat, turns: seq<Turn>, commit: bool)   // one batch; `commit` is commitOffsetsIfNecessary
    | Restart                                             // crash or rebalance: back to the committed offset

  function Step(p: Partition, e: Event, batchSize: nat): (p': Partition)
    requires p.committed <= p.position <= |p.log|
    ensures p'.committed <= p'.position <= |p'.log| && p'.log == p.log
  {
    match e
    case Restart => p.(position := p.committed)
    case Fetch(count, turns, commit) =>
      var r := Process(p.sink, ParseAll(Fetched(p, count)), 0, turns, batchSize);
      var position := p.position + r.done;
      p.(position := position, committed := if commit then position else p.committed, sink := r.sink)
  }

  function Fetched(p: Partition, count: nat): (ms: seq<Message>)
    requires p.position <= |p.log|
    ensures |ms| <= |p.log| - p.position
    ensures forall i :: 0 <= i < |ms| ==> ms[i] == p.log[p.position + i]
  {
    p.log[p.position..p.position + if count <= |p.log| - p.position then count else |p.log| - p.position]
  }

  ghost predicate NothingSkipped(p: Partition) {
    && p.committed <= p.position <= |p.log|
    && forall i :: 0 <= i < p.position ==> p.log[i].offset in p.sink.landed || p.log[i].offset in p.sink.quarantined
  }

  lemma FetchSkipsNothing(p: Partition, count: nat, turns: seq<Turn>, batchSize: nat)
    requires NothingSkipped(p)
    ensures var r := Process(p.sink, ParseAll(Fetched(p, count)), 0, turns, batchSize);
            forall i :: 0 <= i < p.position + r.done ==>
              p.log[i].offset in r.sink.landed || p.log[i].offset in r.sink.quarantined
  {
    hide Process, ParseAll, Parse, TableFor, OffsetList;
    var ps := ParseAll(Fetched(p, count));
    RunKeepsResolved(p.sink, ps, 0, turns, batchSize);
    var r := Process(p.sink, ps, 0, turns, batchSize);
    forall i | 0 <= i < p.position + r.done
      ensures p.log[i].offset in r.sink.landed || p.log[i].offset in r.sink.quarantined
    {
      if i >= p.position {
        assert ps[i - p.position] == Parse(p.log[i]);
      } else {
        assert p.log[i].offset in p.sink.landed || p.log[i].offset in p.sink.quarantined;
      }
    }
  }

  function Run(p: Partition, es: seq<Event>, batchSize: nat): (r: Partition)
    requires p.committed <= p.position <= |p.log|
    ensures r.committed <= r.position <= |r.log| && r.log == p.log
  {
    if es == [] then p else Step(Run(p, es[..|es| - 1], batchSize), es[|es| - 1], batchSize)
  }

  lemma {:induction false} RunsSkipNothing(p: Partition, es: seq<Event>, batchSize: nat)
    requires NothingSkipped(p)
    ensures NothingSkipped(Run(p, es, batchSize))
  {
    hide Process;
    if es != [] {
      RunsSkipNothing(p, es[..|es| - 1], batchSize);
      var last := es[|es| - 1];
      if last.Fetch? {
        FetchSkipsNothing(Run(p, es[..|es| - 1], batchSize), last.count, last.turns, batchSize);
      }
    }
  }

  /** Over any sequence of batches, write failures, stale assignments and restarts, every record behind
      the committed offset has been landed or quarantined. */
  lemma NoOffsetIsSkipped(log: seq<Message>, es: seq<Event>, batchSize: nat)
    ensures var p := Run(Partition(log, 0, 0, Sink({}, {}, [], 0, 0, 0)), es, batchSize);
            forall i :: 0 <= i < p.committed ==>
              log[i].offset in p.sink.landed || log[i].offset in p.sink.quarantined
  {
    RunsSkipNothing(Partition(log, 0, 0, Sink({}, {}, [], 0, 0, 0)), es, batchSize);
  }

  // ----- progress and counters -----

  /** A run whose turns are all live and accepted resolves the whole batch. */
  lemma {:induction false} CalmRunResolvesAll(
      s: Sink, ps: seq<Parsed>, index: nat, turns: seq<Turn>, batchSize: nat)
    requires index <= |ps| && |turns| >= |ps| - index
    requires forall t :: t in turns ==> t == Turn(true, Accepted, Accepted)
    ensures Process(s, ps, index, turns, batchSize).done == |ps|
    decreases |ps| - index
  {
    hide ChunkEnd;
    if index < |ps| {
      assert turns[0] in turns;
      assert forall t :: t in turns[1..] ==> t in turns;
      var end := ChunkEnd(ps, index, batchSize);
      var w := WriteChunk(s, ps[index..end], turns[0]);
      var s1 := w.sink.(resolved := w.sink.resolved + OffsetList(ps[index..end]));
      CalmRunResolvesAll(s1, ps, end, turns[1..], batchSize);
    }
  }
}
