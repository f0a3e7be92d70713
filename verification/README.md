# Verified models of the hard parts of escld

This project models, in Dafny 4.11, the parts of the repository whose correctness rests on an argument
rather than on reading one function, and proves those arguments:

- **The AMF 0 and AMF 3 codecs** of the RTMP ingest server. `Amf3Spec` and `Amf0Spec` say what the
  decoders and encoders compute on byte strings, `Amf3` and `Amf0` do it in the code's own form (a cursor
  moved in place, reference tables that grow, an output that is appended to) and are proved equal to the
  specification. `Amf3Wire` is an independent grammar of AMF 3 layouts (inline, padded, by reference,
  sealed, dynamic) with a meaning for each, `Amf0Wire` one of AMF 0; the decoders are proved to accept
  exactly these grammars (`Amf3Parse`, `Amf0Parse`), and never to misread a message that is cut short
  (`Amf3Streams`, `Amf0Streams`). `Utf8Forms` has UTF-8 as the arithmetic of RFC 3629 has it. From the grammars
  follow the round trips, also for an encoder that sends references, and the exact conditions under which
  a value survives; `Amf0Laws` and `Amf3Laws` say what holds of everything the decoders return. `Numbering`
  compares the tables' completion order with the start order of the AMF 0 and AMF 3 specifications.
- **The raw-to-canonical reconciliation** of `bq-sink` (`Canonicalizer`): the four statements of the SQL
  script as one transition on two tables, and the proof that any sequence of overlapping, reordered or
  repeated windows ends with the ids, variants and conflicts of one run over everything. Where it does not
  end with the same rows is made exact: `CanonicalCopies` for the copy that is kept, `ConflictCounts` for
  the stored number of payloads, `ConflictColumns` for the other columns. `RawWindows` says it of the raw
  rows and the cut-off of each run. `CanonicalizerStops` has runs that stop between two statements, and
  `InterleavedScripts` several scripts at once, as during a deployment.
- **The event consumers**: one analytics processor (`TrendingProcessor`), counting across replicas with
  receipts (`TrendingReplicas`, `Redelivery`) and what is counted for which event (`EventCounts`), deletions
  among them (`Suppression`, `SuppressionLedger`), the buckets, their expiry, order and simultaneous reads
  (`BucketedTrending`, `BucketExpiry`, `TrendingRanks`, `SharedKeys`), feed fan-out by a worker pool
  (`FeedFanout`, `FanoutProgress`), landing a Kafka batch (`BatchHandler`, `BatchLaws`). Replicas interleave
  at every command on receipts, buckets and suppression sets, may stop anywhere, and get redeliveries.
- **The client's observation queue** (`ObservationQueue`, `ObservationLaws`), **playback** (`Playback`,
  `MediaProgress`, `MediaHistory`) and **impressions and dwell** (`QualifiedImpression`, `ImpressionHistory`),
  with React and the DOM stripped and handlers as events. The `History` modules say from the events alone
  what is reported.
- **Two schedulers**: the decay lock (`DecayLock`) and the coalescing merge loop (`Coalescer`).

Where the code changes state step by step, a class has its fields and its methods are proved equal to a
transition function; the theorems are about that function over every run. I/O, clocks and services are
parameters: what Redis, BigQuery, DynamoDB, Kafka or the server answer, which timer fires when, and how
replicas interleave are all universally quantified.

Results that differ from what the code's comments or a casual reading suggest:

- AMF 3 objects with an empty member name do not survive the encoder, although the decoder can return
  them; typed objects without a class name come back untyped (`Amf3Laws`). In AMF 0 an empty member name
  anywhere makes the encoding undecodable, and nothing else does (`Amf0RoundTrip.SurvivesIff`).
- Reference indices agree with the specifications' numbering exactly if no complex value is written out
  inside another (`Numbering.BodyOrdersAgreeIff`, `Numbering.NestedArraysDiffer`).
- The stored `payloadVariants` of a conflict can be too small. After a run it is right if and only if the
  conflict is new, or the window disputes the id again and holds every payload seen before, or the window
  does not dispute it, brings no new payload, and the column was right (`ConflictCounts.VariantCountExactIff`).
  A third payload that arrives alone is never counted (`ConflictCounts.LonePayloadIsNotCounted`).
- Of identical copies of an event the windows keep the one a single run over everything would keep if and
  only if the first window with the event held a copy that ranks first (`CanonicalCopies.KeptIsBatchWinnerIff`,
  and `CanonicalCopies.LaterCopyStays` where it does not).
- An event of a deleted user can still be counted after the deletion is done if and only if another replica
  had already looked it up and found it unsuppressed, or had claimed it and not yet made all its writes
  (`Suppression.DeletionIsFinalIff`; `Suppression.DeletionRace` and `Suppression.ClaimedBeforeDeletion` are
  the two kinds of run).
- A post's tags that agree after lower-casing are counted once each, so `["Go", "go"]` counts twice
  (`TrendingProcessor.TwoSpellingsCountTwice`); the post service normalizes tags
  (backend/src/main/java/com/escld/backend/post/TagNormalizer.java), so its events are not affected.
- The expiry of a bucket's key is visible to readers only for events stamped about seven days ahead of the
  clock (`BucketExpiry.SeenInFullIff`).
- `getTop` with a limit of 0 would return everything; the server never passes one (`BucketedTrending.ZeroLimitCutsNothing`).
- A decay pass keeps others out only until its lock's TTL, or until the settle time after `Promise.all` has
  gone by, whichever comes first; `Promise.all` does not wait for one decay once the other has failed. So a
  pass that is over well within the TTL can still be joined by the next one, exactly if it goes on for more
  than the settle time after the failure (`DecayLock.OverlapsIff`, `DecayLock.OverInTimeIff`,
  `DecayLock.FailedHalfOverlaps`, `DecayLock.OverrunOverlaps`).
- Two reconciliation scripts at once can publish an event that they record as a conflict, or miss a conflict
  (`InterleavedScripts.PublishedInConflict`, `InterleavedScripts.MissedDispute`). One later undisturbed run
  over the same rows repairs both tables (`InterleavedScripts.InterleavedScriptsAreRepaired`).
- Two `getTop` reads in one millisecond share a temporary key, and one may answer with nothing
  (`SharedKeys.AnswerIsTrueIff`, `SharedKeys.SharedKeyLosesAnswer`).
- An event type that is the name of an inherited property, such as `constructor`, is not quarantined as
  unmapped (`BatchHandler.UnmappedIsQuarantinedIff`).
- A failed warehouse merge is not retried by itself (`Coalescer.FollowedIffAskedMeanwhile`).

`dafny verify dfyconfig.toml` checks the whole project.

## Model

| member | source | states |
|---|---|---|
| Utf8.LossyIdentityIff | rtmp/src/amf/amf3.rs:111-113 | Replacement decoding returns the bytes themselves exactly on valid UTF-8 |
| Utf8.LossyIsValid | rtmp/src/amf/amf3.rs:111-113 | Its result is always valid UTF-8, empty only for empty input, at most three times as long |
| Utf8Forms.ScalarIff | rtmp/src/amf/amf3.rs:111-113 | The first chunk of a text is a character of some width if and only if the text starts with the UTF-8 form, written out by arithmetic, of a scalar value of that width |
| Utf8Forms.IllFormedIsMaximal | rtmp/src/amf/amf3.rs:111-113 | An ill-formed chunk is the longest beginning of the text that starts the form of some scalar value, or one byte if none does |
| Utf8Forms.ValidIff | rtmp/src/amf/amf3.rs:111-113 | A text is valid if and only if it is a row of forms of scalar values |
| Utf8Forms.LossyCopies | rtmp/src/amf/amf3.rs:111-113 | Replacement decoding copies the form of a scalar value and goes on behind it |
| Utf8Forms.LossyReplaces | rtmp/src/amf/amf3.rs:111-113 | Each maximal ill-formed piece becomes one replacement character |
| Bytes.U32RoundTrip | rtmp/src/amf/amf0.rs:251-252 | A four-byte length written and read back keeps the low 32 bits |
| Bytes.U16RoundTrip | rtmp/src/amf/amf0.rs:243-247 | A two-byte length written and read back keeps the low 16 bits |
| Bytes.U32KeepsOrder | rtmp/src/amf/amf0.rs:143 | Four bytes read as the smaller number if and only if they are the smaller bytes, so with the round trip there is only one way to read them: most significant first |
| Bytes.U16KeepsOrder | rtmp/src/amf/amf0.rs:132 | The same for two bytes |
| Bytes.LessIff | rtmp/src/amf/value.rs:18-21 | One key is before another if and only if behind what they have in common it ends or has the smaller byte |
| U29.ReadForm | rtmp/src/amf/amf3.rs:41-56 | Every wire form of a number, shortest or padded with zero bits, reads as that number and leaves the bytes behind it |
| U29.ReadIsForm | rtmp/src/amf/amf3.rs:41-56 | Whatever is read is below 2^29 and was written in one of its wire forms |
| U29.ReadWrite | rtmp/src/amf/amf3.rs:41-75 | Reading a written u32 gives its low 29 bits, so reading inverts writing exactly below 2^29 |
| U29.WriteIsShortest | rtmp/src/amf/amf3.rs:58-75 | No input that reads as a value is shorter than what the writer produces for it; one to four bytes |
| Ieee.FromIntExact | rtmp/src/amf/amf3.rs:300-301 | Sign, exponent and fraction of the eight bytes made from a signed 29-bit integer name that integer exactly; zero and only zero is the all-zero pattern |
| AmfValue.InsertKeepsSorted | rtmp/src/amf/value.rs:18-21 | Map insertion keeps the iteration order sorted and invents no entry |
| AmfValue.InsertIsUpdate | rtmp/src/amf/value.rs:18-21 | Insertion is map update: the key reads back, every other key reads as before |
| AmfValue.InsertLast | rtmp/src/amf/amf3.rs:421-424 | Inserting in key order appends, so decoding an encoded map rebuilds it |
| Amf3.ReadU29 | rtmp/src/amf/amf3.rs:41-56 | The loop over at most four bytes reads what the specification reads, or reports truncation |
| Amf3.DecodeString | rtmp/src/amf/amf3.rs:103-124 | Literal or table string; non-empty literals are registered; truncation and bad indices fail |
| Amf3.DecodeDate | rtmp/src/amf/amf3.rs:131-145 | Date or back-reference, registered on completion |
| Amf3.DecodeXmlLike | rtmp/src/amf/amf3.rs:147-161 | XML text or back-reference, registered on completion |
| Amf3.DecodeByteArray | rtmp/src/amf/amf3.rs:163-177 | Bytes or back-reference, registered on completion |
| Amf3.DecodeArray | rtmp/src/amf/amf3.rs:187-211 | Dense array or back-reference; a non-empty associative key is refused; registered after its items |
| Amf3.DecodeTrait | rtmp/src/amf/amf3.rs:231-255 | Trait by index or in full; externalizable refused; registered before the members are read |
| Amf3.DecodeObject | rtmp/src/amf/amf3.rs:220-280 | Sealed members, then dynamic ones up to the empty key; class name decides the constructor; registered last |
| Amf3.DecodeValue | rtmp/src/amf/amf3.rs:282-326 | Dispatch on the marker, with value, rest, tables and error as specified |
| Amf3.Decode | rtmp/src/amf/amf3.rs:331-334 | One value with fresh tables |
| Amf3.DecodeAll | rtmp/src/amf/amf3.rs:336-343 | All values of a body with shared tables, or the first error |
| Amf3.WriteU29 | rtmp/src/amf/amf3.rs:58-75 | Appends the wire form of the number |
| Amf3.EncodeString | rtmp/src/amf/amf3.rs:402-405 | Appends header and bytes |
| Amf3.Encode | rtmp/src/amf/amf3.rs:351-400 | Appends the encoding of the value |
| Amf3.EncodeBody | rtmp/src/amf/amf3.rs:418-426 | Appends trait header, class name, members in order and the empty key |
| Amf3Wire.ReadsBack | rtmp/src/amf/amf3.rs:187-326 | Every layout of the grammar, in any tables and before any bytes, is decoded to its meaning |
| Amf3Parse.ValueParse | rtmp/src/amf/amf3.rs:187-326 | Whatever the decoder accepts is a layout of the grammar followed by the rest |
| Amf3Parse.DecoderIsGrammar | rtmp/src/amf/amf3.rs:187-326 | The decoder returns a result if and only if the input starts with a layout meaning it |
| Amf3Streams.ValueStays | rtmp/src/amf/amf3.rs:41-326 | Any outcome but truncation is final: with more bytes behind the input it is the same value, tables or error, and those bytes are left alone |
| Amf3Streams.EveryBeginningIsTruncated | rtmp/src/amf/amf3.rs:77-82 | Every proper beginning of what a value is read from is refused as truncated, never misread |
| Amf3Streams.BodyFailsForGood | rtmp/src/amf/amf3.rs:336-343 | A message body that fails for another reason fails for the same one whatever follows |
| Amf3RoundTrip.RoundTrip | rtmp/src/amf/amf3.rs:187-426 | Decoding an encoded value in any tables before any bytes yields the value and those bytes, and appends exactly its complex parts in completion order |
| Amf3RoundTrip.ReuseRoundTrip | rtmp/src/amf/amf3.rs:84-124 | An encoder that replaces repeated strings, traits and complex values by table indices is decoded to the same value, and the table grows by exactly the values written out, in completion order |
| Amf3RoundTrip.DecodeAllRoundTrip | rtmp/src/amf/amf3.rs:336-426 | Decoding concatenated encodings returns the list |
| Amf3RoundTrip.DecodeAllReuse | rtmp/src/amf/amf3.rs:336-343 | The same for a body written with references, the encoder's tables following the decoder's |
| Amf3RoundTrip.UniquelyDecodable | rtmp/src/amf/amf3.rs:351-426 | No encoding is a prefix of a different one |
| Amf3RoundTrip.RepeatIsShort | rtmp/src/amf/amf3.rs:94-101 | A repeated complex value costs at most five bytes by reference |
| Amf3Laws.DecodeKeeps | rtmp/src/amf/amf3.rs:282-343 | On every byte string a success uses up a non-empty prefix, only extends the tables, and returns a well-formed value |
| Amf3Laws.ItemsCostBytes | rtmp/src/amf/amf3.rs:204-207 | An array that is read has no more items than bytes were used up, whatever count was announced |
| Amf3Laws.NamesCostBytes | rtmp/src/amf/amf3.rs:248-251 | The same for the sealed member names of a trait |
| Amf3Laws.StringSurvivesIff | rtmp/src/amf/amf3.rs:402-405 | A string survives if and only if its length is below 2^28 |
| Amf3Laws.ArraySurvivesIff | rtmp/src/amf/amf3.rs:379-386 | An array of sendable items survives if and only if its count is below 2^28 |
| Amf3Laws.ObjectSurvivesIff | rtmp/src/amf/amf3.rs:418-426 | An object with sendable values survives if and only if no member name is empty |
| Amf3Laws.TypedObjectSurvivesIff | rtmp/src/amf/amf3.rs:391-394 | A typed object survives if and only if its class name is not empty; otherwise it comes back untyped |
| Amf3Laws.EmptyKeyTruncates | rtmp/src/amf/amf3.rs:262-267 | An empty first member name is read as the end of the object |
| Amf3Laws.DecodedEmptyKeyIsLost | rtmp/src/amf/amf3.rs:258-261 | Five bytes that decode to an object with an empty member name, which re-encoded loses the member |
| Numbering.OrdersAgreeIff | rtmp/src/amf/amf3.rs:8-16 | For one value, written with or without references, registering on completion numbers as registering on start if and only if nothing directly inside is written out with a number of its own |
| Numbering.BodyOrdersAgreeIff | rtmp/src/amf/amf0.rs:8-32 | The same for a whole message body that may refer back, each value in the table the ones before it leave, for AMF 0 and AMF 3 |
| Numbering.InlineOrdersAgreeIff | rtmp/src/amf/amf0.rs:8-32 | For a body written out in full the orders agree if and only if no top-level value contains a numbered one |
| Numbering.NestedArraysDiffer | rtmp/src/amf/amf0.rs:8-32 | An array with an empty array in it is numbered differently by the two orders |
| Amf0.DecodeCtx.Register | rtmp/src/amf/amf0.rs:27-31 | Objects, typed objects and strict arrays are appended to the table, nothing else |
| Amf0.DecodeShortString | rtmp/src/amf/amf0.rs:130-136 | Two-byte length and text, or truncation |
| Amf0.DecodeLongString | rtmp/src/amf/amf0.rs:141-147 | Four-byte length and text, or truncation |
| Amf0.DecodeBody | rtmp/src/amf/amf0.rs:153-174 | Members up to an empty key with the end marker; anything else after an empty key fails |
| Amf0.DecodeValue | rtmp/src/amf/amf0.rs:56-119 | References resolve without registering; every other value is registered when complete |
| Amf0.DecodeAll | rtmp/src/amf/amf0.rs:47-54 | All values of a body with one table, or the first error |
| Amf0.Encode | rtmp/src/amf/amf0.rs:181-241 | Appends the encoding, with the switch to Long String above 65535 bytes |
| Amf0.EncodeBody | rtmp/src/amf/amf0.rs:256-263 | Appends the members in order and the three-byte terminator |
| Amf0Wire.ReadsBack | rtmp/src/amf/amf0.rs:56-174 | Every layout of an independent AMF 0 grammar, ECMA arrays with any count, non-zero booleans, time zones and long strings among them, is decoded to its meaning in any table and before any bytes |
| Amf0Parse.ValueParse | rtmp/src/amf/amf0.rs:56-174 | Whatever the decoder accepts is a layout of that grammar followed by the rest |
| Amf0Parse.DecoderIsGrammar | rtmp/src/amf/amf0.rs:56-174 | The decoder returns a result if and only if the input starts with a layout meaning it |
| Amf0Streams.ValueStays | rtmp/src/amf/amf0.rs:56-174 | Any outcome but truncation is final, with the bytes behind it left alone |
| Amf0Streams.EveryBeginningIsTruncated | rtmp/src/amf/amf0.rs:121-126 | Every proper beginning of what a value is read from is refused as truncated |
| Amf0Streams.BodyFailsForGood | rtmp/src/amf/amf0.rs:47-54 | A message body that fails for another reason fails for the same one whatever follows |
| Amf0RoundTrip.ExactOutcome | rtmp/src/amf/amf0.rs:56-263 | Decoding an encoding returns the value, the bytes behind it and its complex parts in completion order, or fails with a bad object end; nothing else can happen |
| Amf0RoundTrip.SurvivesIff | rtmp/src/amf/amf0.rs:153-263 | A value in range comes back if and only if all its members, at any depth, are named |
| Amf0RoundTrip.DecodeAllOutcome | rtmp/src/amf/amf0.rs:47-54 | Decoding concatenated encodings returns the list, or fails if any member is unnamed |
| Amf0RoundTrip.ShortStringSurvivesIff | rtmp/src/amf/amf0.rs:243-249 | A key or class name survives if and only if it has at most 65535 bytes |
| Amf0RoundTrip.ReferenceReads | rtmp/src/amf/amf0.rs:62-73 | A reference yields the table's value and leaves the table alone |
| Amf0RoundTrip.ReuseRoundTrip | rtmp/src/amf/amf0.rs:18-32 | A sender that refers back to what it has sent is decoded to the same values |
| Amf0RoundTrip.EmitGrows | rtmp/src/amf/amf0.rs:18-32 | A referring sender's table grows by exactly the values it writes out, in completion order |
| Amf0Laws.DecodeKeeps | rtmp/src/amf/amf0.rs:43-174 | On every byte string a success uses up a non-empty prefix, leaves the input's own tail, only extends the table, and returns a well-formed value with all members named |
| Amf0Laws.ItemsCostBytes | rtmp/src/amf/amf0.rs:93-101 | A strict array that is read has no more items than bytes were used up, whatever count was announced |
| Amf0Laws.DecodedSurvives | rtmp/src/amf/amf0.rs:43-263 | What has been decoded can be encoded and decoded again, if its lengths fit their prefixes |
| Amf0Laws.EcmaReads | rtmp/src/amf/amf0.rs:88-92 | An ECMA array of any named members in range, under any count, is read as the object of those members, with the bytes behind it and the table grown by the complex parts and the object |
| Canonicalizer.Dataset.RunUntil | bq-sink/src/canonicalizer.ts:64-118 | The first statements of the script, in order, make the first parts of the transition |
| Canonicalizer.Dataset.Run | bq-sink/src/canonicalizer.ts:64-118 | All statements in order make the transition on both tables |
| Canonicalizer.ClashesIffDisputed | bq-sink/src/canonicalizer.ts:67-80 | The HAVING clause finds exactly the ids with two rows of different type or payload |
| Canonicalizer.ConflictsAfter | bq-sink/src/canonicalizer.ts:82-89 | After a run the conflict table names exactly the ids disputed in all rows ever seen |
| Canonicalizer.WinnersAreChosen | bq-sink/src/canonicalizer.ts:94-104 | One winner per candidate id, and it is a candidate |
| Canonicalizer.WinnersRankFirst | bq-sink/src/canonicalizer.ts:97-104 | No candidate of the same id ranks before the winner |
| Canonicalizer.RunKeepsFaithful | bq-sink/src/canonicalizer.ts:64-118 | One run over any window keeps both tables saying exactly what all rows seen say |
| Canonicalizer.HistoryIsFaithful | bq-sink/src/canonicalizer.ts:64-118 | So does every sequence of runs |
| Canonicalizer.PublishedIffUndisputed | bq-sink/src/canonicalizer.ts:106-118 | An id is published with a variant if and only if it was seen with it and is undisputed |
| Canonicalizer.WindowingDoesNotMatter | bq-sink/src/canonicalizer.ts:29-42 | Histories that have seen the same rows, in any windows and order, agree on conflicts and on published ids and variants |
| RawWindows.WindowIsCutOff | bq-sink/src/canonicalizer.ts:43 | A run looks at each raw row at or after its cut-off as often as it is there, and at no other |
| RawWindows.RunsPublish | bq-sink/src/canonicalizer.ts:29-118 | After any runs, given by raw rows, cut-off and time: an id is in conflict if and only if rows of it that were looked at disagree, and otherwise has one row, of their type and payload, if and only if there is one |
| ConflictColumns.ColumnsAfterRun | bq-sink/src/canonicalizer.ts:64-89 | What one run leaves in every column of a conflict: earliest and latest time, types and time of detection of the compared rows, the old firstSeenAt if it was recorded before, and nothing changed if the run does not find it |
| ConflictColumns.StoppedRunIs | bq-sink/src/canonicalizer.ts:82-118 | What a run leaves that stops behind its first or its second statement |
| ConflictColumns.RecordedIffFound | bq-sink/src/canonicalizer.ts:82-89 | Over any runs an id is in conflict if and only if some run has found it so |
| ConflictColumns.FirstSeenStays | bq-sink/src/canonicalizer.ts:84-86 | A recorded conflict stays, and its firstSeenAt never changes |
| ConflictColumns.DetectedLast | bq-sink/src/canonicalizer.ts:84-86 | detectedAt is the time of the last run that found the conflict |
| ConflictColumns.RanksBeforeIff | bq-sink/src/canonicalizer.ts:97-98 | A copy ranks before another if and only if it is smaller by time, then topic, then partition, then offset, each ascending with NULL first |
| CanonicalCopies.RowAfterRun | bq-sink/src/canonicalizer.ts:94-118 | After a run an undisputed id has the row it had before, or the window's first-ranking one if it had none |
| CanonicalCopies.KeptRowRanksFirstIff | bq-sink/src/canonicalizer.ts:94-118 | After a run the row kept for an undisputed id ranks first among all rows seen if and only if the id is new, or its row ranked first before and no candidate ranks before it |
| CanonicalCopies.KeptFromFirstWindow | bq-sink/src/canonicalizer.ts:94-118 | Over any runs the kept row of an undisputed id is the winner of the first window that held the id |
| CanonicalCopies.KeptIsBatchWinnerIff | bq-sink/src/canonicalizer.ts:29-42 | Windows and one run over everything keep the same row if and only if the first window to hold the id held a row that none seen ranks before |
| CanonicalCopies.LaterCopyStays | bq-sink/src/canonicalizer.ts:106-118 | Two windows after which the later of two copies is kept |
| Canonicalizer.RerunIsIdle | bq-sink/src/canonicalizer.ts:64-118 | Running again over rows already seen leaves canonical_events as it is, row for row |
| CanonicalizerStops.StopKeepsRepairable | bq-sink/src/canonicalizer.ts:82-92 | A run that stops behind the conflict MERGE or behind the DELETE loses no published row but to a recorded conflict, and records no conflict that its rows do not show |
| CanonicalizerStops.StoppedRunsAreRepaired | bq-sink/src/canonicalizer.ts:64-118 | After any number of stopped runs one complete run whose window holds their rows leaves both tables true to all rows seen |
| InterleavedScripts.AloneReconciles | bq-sink/src/canonicalizer.ts:64-118 | A script that nobody disturbs makes the transition of a run |
| InterleavedScripts.RunsAreOrderly | bq-sink/src/canonicalizer.ts:64-118 | Scripts interleaving statement by statement, stopping anywhere: no conflict the rows do not show, none lost, no id published twice, every published row agrees with all that was seen before |
| InterleavedScripts.FinishedScriptsCover | bq-sink/src/canonicalizer.ts:82-118 | Every id that a finished script has read is published or in conflict |
| InterleavedScripts.InterleavedScriptsAreRepaired | bq-sink/src/canonicalizer.ts:64-118 | One later undisturbed run whose window holds the rows of all of them leaves both tables true to all rows seen |
| InterleavedScripts.SettledIff | bq-sink/src/canonicalizer.ts:67-118 | A run leaves an id in conflict and unpublished if and only if its comparison disputes it or it was so before |
| InterleavedScripts.PublishedInConflict | bq-sink/src/canonicalizer.ts:94-118 | Two scripts after which an event in conflict is published |
| InterleavedScripts.MissedDispute | bq-sink/src/canonicalizer.ts:67-80 | Two scripts after which a disputed event is published and no conflict recorded |
| ConflictCounts.DetectedIff | bq-sink/src/canonicalizer.ts:67-80 | A run finds a known conflict again if and only if its window disputes the id by itself; it always finds a new one |
| ConflictCounts.CountAfterRun | bq-sink/src/canonicalizer.ts:82-89 | What one run leaves in the column: all payloads for a new conflict, the window's for one disputed again, the old number otherwise |
| ConflictCounts.VariantCountExactIff | bq-sink/src/canonicalizer.ts:82-89 | For every id in conflict after a run: the exact condition, on the rows of the window and of the past, for the column to hold the number of payloads seen |
| ConflictCounts.HistoryIsBounded | bq-sink/src/canonicalizer.ts:82-89 | No column is ever too large |
| ConflictCounts.HistoryCountExactIff | bq-sink/src/canonicalizer.ts:82-89 | Over any windows the column is right if and only if the last run that counted the id had every payload of it before it |
| ConflictCounts.VariantCountFallsShort | bq-sink/src/canonicalizer.ts:82-89 | Two windows that both dispute the id, after which the count is two although three payloads were seen |
| ConflictCounts.LonePayloadIsNotCounted | bq-sink/src/canonicalizer.ts:67-89 | A third payload alone in its window is not counted |
| Playback.UniquePlaybackTracker.Add | frontend/src/hooks/use-media-progress.ts:13-30 | The loop rebuilds the list as specified; refused input changes nothing |
| Playback.HistoryIsUnion | frontend/src/hooks/use-media-progress.ts:13-30 | After any calls the ranges are sorted, strictly separated and cover exactly the union of the clamped intervals |
| Playback.SeparatedIsCanonical | frontend/src/hooks/use-media-progress.ts:13-30 | A covered set has only one separated list |
| Playback.OrderAndRepetitionDoNotMatter | frontend/src/hooks/use-media-progress.ts:9-30 | Calls with the same intervals in any order and number give the same list |
| Playback.MergeLength | frontend/src/hooks/use-media-progress.ts:17-33 | A call adds its own length less exactly what it overlaps |
| Playback.AddedLength | frontend/src/hooks/use-media-progress.ts:13-34 | The total and the played milliseconds never fall, and grow by at most the length added |
| Playback.NeverInflated | frontend/src/hooks/use-media-progress.ts:9-34 | The total never exceeds the sum of the lengths added |
| MediaProgress.Reporter.SampleNow | frontend/src/hooks/use-media-progress.ts:58-65 | One sample changes tracker and position as specified |
| MediaProgress.Reporter.ReportProgress | frontend/src/hooks/use-media-progress.ts:78-94 | One report sends and records what is specified |
| MediaProgress.Reporter.Handle | frontend/src/hooks/use-media-progress.ts:96-145 | Each handler makes its step |
| MediaProgress.CrossedIsNext | frontend/src/hooks/use-media-progress.ts:84-86 | The milestones crossed are the next ones in the list, without a gap, each attained |
| MediaProgress.RunsAreOrderly | frontend/src/hooks/use-media-progress.ts:45-134 | Over any run, even if the duration changes: milestones sent are an ascending prefix of 25, 50, 75, 95, sequence numbers consecutive, played time never falling nor above the duration |
| MediaProgress.HistoryIsPlayed | frontend/src/hooks/use-media-progress.ts:58-65 | The instants counted are exactly those some event found played through: in the foreground, playing, not seeking, no jump above fifteen seconds |
| MediaProgress.AttainedIsSent | frontend/src/hooks/use-media-progress.ts:78-90 | A report with new playback leaves no attained milestone unsent |
| MediaHistory.StateFollowsEvents | frontend/src/hooks/use-media-progress.ts:47-134 | Whether the page is in the foreground, the media is playing, and the last position, are what the events alone say |
| MediaHistory.CountedIffPlayed | frontend/src/hooks/use-media-progress.ts:58-65 | From the events alone: an instant of the media is counted if and only if some event found it played through |
| MediaHistory.PlayedIsRounded | frontend/src/hooks/use-media-progress.ts:32-34 | The played time is the nearest millisecond to the length of the ranges |
| MediaHistory.DurationIsRounded | frontend/src/hooks/use-media-progress.ts:53-56 | The duration is the nearest millisecond, four hours at most, and zero if it is not positive |
| MediaHistory.ReportsSay | frontend/src/hooks/use-media-progress.ts:78-94 | What a report sends: the milestones newly reached in order, or else one plain report after five seconds of new playback, or nothing |
| ObservationQueue.Queue.EnqueueEvent | frontend/src/lib/observation.ts:50-66 | Duplicate, full and admitting cases, then flush or schedule |
| ObservationQueue.Queue.FlushNow | frontend/src/lib/observation.ts:68-77 | Takes the oldest twenty into flight and disarms the timer |
| ObservationQueue.Queue.RetryOne | frontend/src/lib/observation.ts:99-104 | Back into the queue with one more attempt, or given up |
| ObservationQueue.Queue.SendSettled | frontend/src/lib/observation.ts:77-97 | Concludes the batch and arms the timer with back-off if anything is pending |
| ObservationQueue.Queue.TimerElapsed | frontend/src/lib/observation.ts:106-112 | The timer flushes |
| ObservationQueue.PutKeeps | frontend/src/lib/observation.ts:39-60 | Map insertion keeps keys unique and every other entry |
| ObservationQueue.RunsAreLive | frontend/src/lib/observation.ts:50-112 | In every reachable state something pending means a flush in progress or an armed timer; at most 200 pending while flushing and 220 otherwise |
| ObservationQueue.RunsConserve | frontend/src/lib/observation.ts:50-104 | Every admitted observation is in exactly one of pending, in flight, acknowledged, evicted, given up after its third send; none is sent more than three times |
| ObservationQueue.AnswerDecides | frontend/src/lib/observation.ts:78-104 | However the answer comes, each observation of the batch is acknowledged if the answer accepts or rejects it without asking for it again, otherwise queued once more after its first or second send and given up after its third; what else is pending stays |
| ObservationLaws.EnqueueOffers | frontend/src/lib/observation.ts:50-66 | In every reachable state: which observation an offered one displaces, that it is admitted whenever there is room, and that twenty waiting ones are sent at once or a timer is armed |
| ObservationLaws.FlushesSendOldest | frontend/src/lib/observation.ts:68-75 | In every reachable state a flush or the timer sends the oldest, twenty at most, and keeps the order of all |
| ObservationLaws.RetryIsDelayed | frontend/src/lib/observation.ts:90-96 | After an answer that leaves something waiting the timer is armed with the base delay doubled for each send of the most often sent one |
| ObservationLaws.CalmDrains | frontend/src/lib/observation.ts:50-112 | Whatever has happened: timers that are armed and answers that accept empty the queue, and everything in it is acknowledged |
| ObservationQueue.ImpressionsEvictedLast | frontend/src/lib/observation.ts:52-59 | An impression is evicted only by an impression and only when no dwell or progress event is pending |
| TrendingProcessor.Processor.TryClaim | analytics/src/receipts.ts:9-40 | Claims exactly if no live receipt exists, and then leaves one for eight days |
| TrendingProcessor.Processor.Record | analytics/src/bucketed-trending.ts:32-45 | Adds a positive weight to the cell of the event's bucket |
| TrendingProcessor.Processor.ApplyDeletion | analytics/src/processor.ts:171-199 | The commands on the suppression sets: the user, and the first 5000 posts listed |
| TrendingProcessor.Processor.HandleMessage | analytics/src/processor.ts:51-116 | One message: quarantine, deletion, suppression, claim, writes, and its offset resolved |
| TrendingProcessor.Processor.HandleBatch | analytics/src/processor.ts:51-119 | Messages in order until the assignment goes stale, with their offsets resolved; only a batch handled to its end commits |
| TrendingReplicas.RunsBalance | analytics/src/processor.ts:96-113 | Over all interleavings, failed writes and stops: counted plus outstanding plus lost equals what the claimed events owe, cell by cell |
| TrendingReplicas.RunsClaimOnce | analytics/src/receipts.ts:12-40 | While claims of one id stay within a receipt's life each id is claimed at most once |
| TrendingReplicas.RetentionIsTimely | analytics/src/receipts.ts:3-10 | Seven-day redelivery, handled within a day, stays within the eight-day receipt |
| TrendingReplicas.NeverOvercounts | analytics/src/processor.ts:15-19 | For any replicas, interleaving, redelivery, deletions, failed writes and stops no cell holds more than each distinct event's own contribution |
| TrendingReplicas.FinalCountsAreExact | analytics/src/processor.ts:15-19 | With no stop and no failed write after a claim the final counts are those of the set of distinct events that reached the claim (EventCounts.CountsAreTotals says which amounts) |
| TrendingReplicas.CountsDependOnEventsOnly | analytics/src/processor.ts:15-19 | Without deletions, failures and stops, those of the set of distinct counting events that were fetched |
| EventCounts.ContributionAdds | analytics/src/processor.ts:96-113 | What a claimed event adds to each cell, from its fields: to the five minutes of its time 1, 3 or 5 for its post, and 1 for each of the first ten tags of a new post that is the name up to case |
| EventCounts.HandlingAdds | analytics/src/processor.ts:51-119 | What handling one message adds to each cell |
| EventCounts.CountsAreTotals | analytics/src/processor.ts:15-19 | The final counts over any replicas are the sums of those amounts over the distinct events that reached the claim, and no count is ever larger |
| TrendingReplicas.LookUpEnds | analytics/src/processor.ts:201-214 | A look-up that finds the post suppressed ends one delivery; otherwise it passes it on; no other is touched |
| TrendingReplicas.FailuresLose | analytics/src/processor.ts:186-198 | What failed writes and SADDs and dying replicas lose: the next command, or all that is left of the job |
| Redelivery.RunFollows | analytics/src/receipts.ts:9-40 | In every run the receipt and the number of claims of an id are functions of the times of its attempts alone |
| Redelivery.CountedAsOftenAsGranted | analytics/src/receipts.ts:12-40 | In every run without losses whose writes are made, an event counts as often as its attempts found no live receipt |
| Redelivery.CountedAgainIff | analytics/src/receipts.ts:12-19 | In such a run with two attempts on an event, among any other actions, it counts twice if and only if the second comes a receipt's life after the first |
| Redelivery.DeliveredTwice | analytics/src/receipts.ts:12-19 | From every state in which the event may be claimed: two deliveries in a row count it so |
| TrendingReplicas.HandleIsInterleaving | analytics/src/processor.ts:51-119 | Any message handled alone, deletions included, is one of the interleavings |
| TrendingReplicas.BatchIsInterleaving | analytics/src/processor.ts:51-119 | So is a replica's batch |
| TrendingProcessor.TagCountedOnceIff | analytics/src/processor.ts:102-109 | An event adds at most its weight to each hashtag if and only if no two of its first ten tags agree after lower-casing |
| TrendingProcessor.TwoSpellingsCountTwice | analytics/src/processor.ts:102-109 | The tags Go and go add twice the weight to go |
| TrendingProcessor.NormalizedTagsCountOnce | backend/src/main/java/com/escld/backend/post/TagNormalizer.java:22-36 | Tags as the post service normalizes them add at most the weight to each hashtag |
| Suppression.DeletionGetsDone | analytics/src/processor.ts:171-199 | However other commands interleave, a deletion that is not stopped suppresses the user, and every post it names if none of their SADDs fails |
| Suppression.SaddsIff | analytics/src/processor.ts:171-199 | A deletion adds its user, the one it gives or else who caused it, and the first five thousand of its posts, and nothing else |
| SuppressionLedger.SuppressedIsNamed | analytics/src/processor.ts:171-214 | In every run an event is suppressed only if a deletion that some replica has fetched names its user or its post |
| SuppressionLedger.NamedIsSuppressed | analytics/src/processor.ts:171-214 | Among any other commands, a deletion that gets to its end without loss suppresses every event it names |
| Suppression.SuppressionEndsClaimsIff | analytics/src/processor.ts:201-214 | Once an event is suppressed, some continuation claims it if and only if a delivery of it had passed, or is past the first look-up with its post unsuppressed |
| Suppression.SuppressionIsFinalIff | analytics/src/processor.ts:96-113 | Once an event is suppressed, some continuation still writes a part of it if and only if a delivery may pass as above, or the event was claimed with writes outstanding |
| Suppression.DeletionIsFinalIff | analytics/src/processor.ts:171-214 | The same for every event that a finished deletion names |
| Suppression.DeletionRace | analytics/src/processor.ts:81-98 | For every deletion and every counting event it names, a run in which the event is counted after the deletion is done |
| Suppression.ClaimedBeforeDeletion | analytics/src/processor.ts:96-113 | For every deletion and every counting event it names, a run in which the event is claimed, the deletion gets done, nothing is counted yet, and then all of it is |
| Suppression.DeletionIsFinal | analytics/src/processor.ts:171-214 | Where messages are handled one after the other, no later message of that user or on those posts changes receipts or counts |
| BucketedTrending.Store.RecordEvent | analytics/src/bucketed-trending.ts:32-45 | Adds to the event-time bucket and renews the key's seven days; a key that has run out starts again; non-positive weights change nothing |
| BucketedTrending.Store.Sources | analytics/src/bucketed-trending.ts:56-68 | Three buckets at weight one and the nine before them at one half |
| BucketedTrending.Store.GetTop | analytics/src/bucketed-trending.ts:51-83 | Returns the exposed part of the truncated ranking of the keys still alive |
| BucketedTrending.WindowScore | analytics/src/bucketed-trending.ts:58-71 | The weighted union is the score: newest fifteen minutes in full, the forty-five before by half |
| BucketedTrending.CutThenFilter | analytics/src/bucketed-trending.ts:73-81 | Truncating to the limit and dropping scores below twenty commute |
| BucketedTrending.TopIsBruteForce | analytics/src/bucketed-trending.ts:51-83 | The answer has the true scores, best first, all at least twenty, and leaves an eligible id out only when limit better ones are in |
| SharedKeys.AnswerIsTrueIff | analytics/src/bucketed-trending.ts:59-85 | Among any other reads and recordings, what a read ranks is the true union of some moment since its own ZUNIONSTORE if and only if no other read's DEL came last on its key, or there was nothing to read |
| SharedKeys.AloneOnKey | analytics/src/bucketed-trending.ts:59-85 | A read that has its key to itself ranks its own union |
| SharedKeys.SharedKeyLosesAnswer | analytics/src/bucketed-trending.ts:59-85 | Two reads in one millisecond after which one answers with nothing |
| SharedKeys.AddedIsUnited | analytics/src/bucketed-trending.ts:59-73 | An event recorded before a read stores its union is in what the read ranks if its bucket is in the window |
| BucketedTrending.ZeroLimitCutsNothing | analytics/src/bucketed-trending.ts:73 | A limit of zero makes a stop index of minus one, which cuts nothing |
| BucketedTrending.RecordMovesScore | analytics/src/bucketed-trending.ts:32-71 | Recording adds weight times the coefficient of the event's age to its own id and nothing else |
| BucketedTrending.AgeLimits | analytics/src/bucketed-trending.ts:25-68 | A past event counts below 55 minutes of age and never from 60 on; in full below 10, never in full from 15 on |
| BucketExpiry.ExpiryIsUnseen | analytics/src/bucketed-trending.ts:17-71 | Over any recordings whose buckets leave the window before their keys run out, every later read ranks exactly what was ever recorded |
| BucketExpiry.StampedInTime | analytics/src/bucketed-trending.ts:14-45 | Every event stamped no more than seven days less an hour ahead of the clock is such a one |
| BucketExpiry.SeenInFullIff | analytics/src/bucketed-trending.ts:38-71 | A recording by itself is seen in full by every later read if and only if its bucket leaves the window first |
| TrendingRanks.ScoreIsSum | analytics/src/bucketed-trending.ts:56-71 | A score is the sum over all recordings of the id: weight in full for the reader's five minutes and the two before, by half for the nine before those |
| TrendingRanks.TopIsSum | analytics/src/bucketed-trending.ts:51-83 | Over any recordings in order whose buckets leave the window in time: a read returns ids with sums of at least twenty, in falling order, and misses one only if limit others are not behind it |
| TrendingRanks.RecordRenews | analytics/src/bucketed-trending.ts:38-44 | A recording keeps its own key for seven days from now and no other, and adds to what had not run out |
| TrendingRanks.RankingExists | analytics/src/bucketed-trending.ts:71-73 | Every union can be listed by falling score and falling id |
| TrendingRanks.RankingIsUnique | analytics/src/bucketed-trending.ts:71-73 | And in one order only |
| TrendingRanks.StringLessIff | analytics/src/bucketed-trending.ts:73 | Ids of one score are ordered by the first character in which they differ |
| FeedFanout.ListFollowers | feed-worker/src/dynamo.ts:34-59 | All pages in order, followers without their prefix, items without a sort key skipped |
| FeedFanout.OneMoreItem | feed-worker/src/dynamo.ts:38-56 | What each further item or page adds to the list: its follower behind all others, or nothing for an item without a sort key |
| FeedFanout.ListedIff | feed-worker/src/dynamo.ts:38-56 | An id is listed if and only if some item of some page is the follow of it |
| FeedFanout.DedupKeeps | feed-worker/src/event-handler.ts:83 | Recipients without repeats, nobody lost |
| FeedFanout.Batch | feed-worker/src/dynamo.ts:75-78 | The requests in order in batches of 25, only the last one shorter and none empty |
| FeedFanout.Fanout.TakeNext | feed-worker/src/dynamo.ts:80-86 | A worker takes the next index or returns |
| FeedFanout.Fanout.WriteBatch | feed-worker/src/dynamo.ts:94-111 | Sends the remainder; retries what came back, at most five sends, then throws |
| FeedFanout.Fanout.DeleteMessage | feed-worker/src/event-handler.ts:119-120 | Deletes only after completion |
| FeedFanout.RunsAreSound | feed-worker/src/dynamo.ts:62-112 | Over any interleaving each claimed batch is confirmed in full, or its own worker is sending exactly the keys not yet confirmed, or its own worker threw; the fan-out completes only when all workers have returned |
| FeedFanout.EachBatchClaimedOnce | feed-worker/src/dynamo.ts:80-91 | The claims are 0, 1, 2 and so on, each once |
| FeedFanout.DeletedMeansFannedOut | feed-worker/src/event-handler.ts:55-137 | Whenever the message is deleted, every follower that some item of some page names, and the author, have the feed item |
| FeedFanout.OnlyRecipientsAreWritten | feed-worker/src/dynamo.ts:62-78 | Nobody but the listed followers and the author gets the feed item |
| FanoutProgress.RunsRetry | feed-worker/src/dynamo.ts:79-111 | In every run ten workers at most; each sends what is left again, and throws only when a request fails or the fifth answer leaves something |
| FanoutProgress.TooLateIsKept | feed-worker/src/event-handler.ts:119-121 | A message whose fan-out is not over at its deadline is never deleted by it, whatever its workers still do |
| FanoutProgress.ThrownIsKept | feed-worker/src/dynamo.ts:90-107 | A fan-out with a worker that threw fails, and its message is not deleted |
| FanoutProgress.CalmFanoutDeletes | feed-worker/src/dynamo.ts:79-111 | Whatever the batches, if every request is written in full the message gets deleted |
| FeedFanout.BatchesHaveDistinctKeys | feed-worker/src/event-handler.ts:80-84 | No batch writes one key twice |
| BatchHandler.ChunkIsGood | bq-sink/src/message-handler.ts:204-220 | A chunk has one destination, at most batchSize rows and at most MAX_BATCH_BYTES unless it is one row |
| BatchHandler.UnmappedIsQuarantinedIff | bq-sink/src/bigquery.ts:18-41 | An envelope whose type has no table is quarantined if and only if the type is not the name of a property every object inherits |
| BatchLaws.TablesAreNamed | bq-sink/src/bigquery.ts:18-41 | The fifteen event types have each the table named after them, and no other type has one |
| BatchLaws.RecordsAreSorted | bq-sink/src/message-handler.ts:106-124 | A record becomes a row for the table of its type, or is quarantined with the reason that fits |
| BatchLaws.ChunkIsLongest | bq-sink/src/message-handler.ts:204-220 | A chunk may go out in one request and with the next record it might not |
| BatchLaws.PermanentIff | bq-sink/src/bigquery.ts:70-71 | Rejections are quarantined if and only if there are some and each has reasons, all of them permanent |
| BatchLaws.ChunkIsDoneIff | bq-sink/src/message-handler.ts:222-276 | When a chunk is done, what has landed, what is quarantined and what is counted then, and what a failure leaves |
| BatchHandler.Handler.NextChunk | bq-sink/src/message-handler.ts:204-220 | The loop cuts the specified chunk |
| BatchHandler.Handler.InsertEvents | bq-sink/src/bigquery.ts:65-99 | Landing, permanent rejections quarantined, anything else thrown |
| BatchHandler.Handler.InsertDeadLetters | bq-sink/src/message-handler.ts:258-259 | Quarantine, or failure |
| BatchHandler.Handler.HandleBatch | bq-sink/src/message-handler.ts:198-282 | Chunk by chunk until stale or failed, resolving offsets only behind a written chunk |
| BatchHandler.RunKeepsResolved | bq-sink/src/message-handler.ts:222-278 | However the services answer, everything before the resolved point has been landed or quarantined |
| BatchHandler.RunResolvesPrefix | bq-sink/src/message-handler.ts:278-280 | The offsets resolved are those of the batch's own prefix, in order |
| BatchHandler.RunsSkipNothing | bq-sink/src/message-handler.ts:198-282 | Batches, failures, staleness and restarts keep every record behind the position landed or quarantined |
| BatchHandler.NoOffsetIsSkipped | bq-sink/src/message-handler.ts:183-282 | From an empty start, no committed offset passes a record that was neither landed nor quarantined |
| BatchHandler.CalmRunResolvesAll | bq-sink/src/message-handler.ts:204-281 | If nothing goes stale or fails the whole batch is resolved |
| BatchLaws.CalmRunSorts | bq-sink/src/message-handler.ts:198-282 | If nothing goes wrong exactly the rows of the batch have landed and exactly its other records are quarantined |
| BatchLaws.StaleEndsTheRun | bq-sink/src/message-handler.ts:205 | A stale assignment ends the run, whatever would have come after |
| BatchLaws.FailureEndsTheRun | bq-sink/src/message-handler.ts:266-276 | So does a failed write |
| BatchLaws.CountersAddUp | bq-sink/src/message-handler.ts:225-268 | Every resolved record is counted once as landed or quarantined, and only a failed chunk as failed |
| BatchLaws.StepMovesPosition | bq-sink/src/message-handler.ts:278-280 | A batch moves the position behind what it resolved, offset by offset; only a commit moves the committed offset, and a restart goes back to it |
| BatchLaws.CalmFetchCatchesUp | bq-sink/src/message-handler.ts:183-282 | Whatever went wrong before, one batch of all that is left without trouble commits the whole log |
| ObservationQueue.BackoffBounds | frontend/src/lib/observation.ts:92-95 | The retry delay is between one and four times the base delay |
| QualifiedImpression.CardEffect.Report | frontend/src/hooks/use-qualified-impression.ts:39-54 | Accumulates and sends a dwell report if it has grown |
| QualifiedImpression.CardEffect.Stop | frontend/src/hooks/use-qualified-impression.ts:56-61 | Reports and halts the clock |
| QualifiedImpression.CardEffect.ImpressionTimeout | frontend/src/hooks/use-qualified-impression.ts:71-80 | Sends the impression unless the token was observed |
| QualifiedImpression.CardEffect.HandleChange | frontend/src/hooks/use-qualified-impression.ts:83-105 | Starts or stops both timers with visibility |
| QualifiedImpression.CardEffect.Cleanup | frontend/src/hooks/use-qualified-impression.ts:109-114 | Unmounting stops everything |
| QualifiedImpression.RunsAreSound | frontend/src/hooks/use-qualified-impression.ts:11-118 | Every card's clock shows its true visible time up to the cap in every reachable state |
| QualifiedImpression.ReportsAreHonest | frontend/src/hooks/use-qualified-impression.ts:11-113 | One impression per token, only after a second of unbroken visibility; dwell only after the card's own impression and with exactly the true visible time, rounded and capped |
| QualifiedImpression.DwellsCountUp | frontend/src/hooks/use-qualified-impression.ts:39-48 | Each card's dwell reports are numbered 1, 2, 3 and so on and strictly increase |
| QualifiedImpression.ViewIsObserved | frontend/src/hooks/use-qualified-impression.ts:69-105 | A mounted card in view until its timer fires has its token observed |
| QualifiedImpression.LeavingReportsAll | frontend/src/hooks/use-qualified-impression.ts:39-61 | A qualified card that unmounts has reported all of its visible time |
| QualifiedImpression.IntervalReportsAll | frontend/src/hooks/use-qualified-impression.ts:39-67 | A qualified card in view has reported all of its visible time whenever its interval elapses |
| ImpressionHistory.ViewFollowsEvents | frontend/src/hooks/use-qualified-impression.ts:83-114 | After any events each card has been in view for as long, and without a break for as long, as the mounts, intersections and visibility changes alone say |
| ImpressionHistory.ReportsFollowEvents | frontend/src/hooks/use-qualified-impression.ts:39-80 | From the events alone: what each event makes a card send, the time in view to the millisecond and an hour at most for dwell, one impression per token by a card a full second in view |
| ImpressionHistory.DueImpressionIsSent | frontend/src/hooks/use-qualified-impression.ts:69-80 | The impression of a card that has been in view for a second without a break is sent by its timer if its token has none |
| ImpressionHistory.DwellIsReported | frontend/src/hooks/use-qualified-impression.ts:39-61 | A card that has sent its impression has its whole time in view in its last dwell report when it leaves, and at each interval before the hour is full |
| ImpressionHistory.FullHourHalts | frontend/src/hooks/use-qualified-impression.ts:49-53 | The interval that reports a card's full hour is its last: the clock stops |
| DecayLock.Redis.AcquireDecayLock | analytics/src/trending-lock.ts:31-35 | Sets the key with its TTL exactly if no live one is there |
| DecayLock.Redis.ReleaseDecayLock | analytics/src/trending-lock.ts:43-45 | Compares, then deletes |
| DecayLock.ReleaseSparesOthers | analytics/src/trending-lock.ts:37-45 | In every run a release, however late, changes the key only for the last acquirer, whose own release frees it |
| DecayLock.RunsAreExclusive | analytics/src/index.ts:94-114 | In every timed run the key belongs to the last acquirer, and any two passes start apart: the second no earlier than the TTL of the first or the settle time after its Promise.all |
| DecayLock.PromiseAll | analytics/src/index.ts:101-112 | A pass is over at the last end of its decays; Promise.all settles with the first failure, or when the pass is over |
| DecayLock.StepDoes | analytics/src/index.ts:94-114 | What each action changes: a callback starts a pass if and only if the key is not there or has run out, an end is noted in its own half, and time goes on |
| DecayLock.PassesDoNotOverlap | analytics/src/index.ts:94-114 | In every run a pass both of whose decays have ended when its key is free, run out or released, is over before any later pass starts |
| DecayLock.OverlapsIff | analytics/src/index.ts:94-114 | For any way a pass may go, some run lets a later one start before it is over if and only if it is over later than its key is free |
| DecayLock.OverInTimeIff | analytics/src/trending-lock.ts:26-30 | A pass over within the TTL is never joined by a later one if and only if it is over within the settle time of Promise.all |
| DecayLock.WellEndedIff | analytics/src/trending-lock.ts:26-30 | A pass whose decays both end well is never joined by a later one if and only if it is over within the TTL |
| DecayLock.FailedHalfOverlaps | analytics/src/index.ts:101-112 | A run at the default TTL in which one decay fails and the next pass starts while the other goes on |
| DecayLock.OverlapNeedsOverrun | analytics/src/trending-lock.ts:26-35 | If two passes overlap the first had used up the whole TTL, or one of its decays had failed and the settle time had gone by |
| DecayLock.OverrunOverlaps | analytics/src/trending-lock.ts:26-35 | A run in which an overrunning pass is joined by a second |
| DecayLock.OnePassPerTick | analytics/src/index.ts:29-29 | Callbacks that fire within the settle time of an acquisition start no other pass |
| DecayLock.SelfHeals | analytics/src/trending-lock.ts:20-24 | A dead holder blocks nobody for longer than the TTL |
| Coalescer.Worker.Canonicalize | bq-sink/src/index.ts:80-91 | A request widens the pending lookback and starts the loop if it is not running |
| Coalescer.Worker.MergeSettled | bq-sink/src/index.ts:86-103 | Behind the await, success or failure, the loop goes round or ends |
| Coalescer.RunsAreSound | bq-sink/src/index.ts:80-104 | For any interleaving merges never overlap, pending work has a running loop, and each merge looks back exactly as far as the requests since the previous start need |
| Coalescer.EveryRequestIsCovered | bq-sink/src/index.ts:80-104 | Every request is covered by the first merge starting at or after it, or is still pending with the loop running |
| Coalescer.AtMostOneMergePerRequest | bq-sink/src/index.ts:81-87 | There are never more merges than requests |
| Coalescer.TwoSettlesDrain | bq-sink/src/index.ts:85-103 | Without further requests the loop is idle after two settles |
| Coalescer.FollowedIffAskedMeanwhile | bq-sink/src/index.ts:85-100 | A settled merge, failed or not, is followed by another if and only if a request came in while it ran |
| Coalescer.FailureIsForgotten | bq-sink/src/index.ts:95-100 | One failed merge ends the loop idle with no successful merge for its request |

## Left out

- Amf3RoundTrip.RoundTrip: the condition is sufficient for whole nested values and exact only node by node (strings, arrays, objects, typed objects), because bytes left over from a truncated member may by accident be read as that very member again.
- Amf3.WriteU29: the debug assertion on values above 2^29 is not modelled; the release build's low-bit behaviour is.
- Amf3.DecodeValue: room reserved up front for announced counts (`Vec::with_capacity`), recursion depth and error texts are not modelled; errors are kinds. ItemsCostBytes and NamesCostBytes show that a reservation capped by the bytes left would lose nothing.
- Amf0.DecodeValue: the same; the count of a strict array may announce 2^32-1 items.
- Amf0.Encode: the ByteArray case, which panics in the source, is excluded by a precondition.
- Numbers in both codecs are eight opaque bytes; only the conversion of AMF 3 integers to them is computed.
- Canonicalizer.Dataset.Run: one script at a time (InterleavedScripts has several); payloads enter by their hash; timestamps are integers; columns that are only copied are one field; each statement is atomic; the analytic tables after line 120 are not part of this model.
- Canonicalizer.WindowingDoesNotMatter: which of several identical copies is kept does depend on the windows, as `CanonicalCopies` makes exact.
- Playback.NeverInflated: times are real numbers, so rounding of floating point is not modelled.
- ObservationQueue.RunsConserve: ids are assumed to be enqueued once each, as random ids are; the session id and payload contents are opaque.
- TrendingProcessor.Processor.Record: the cells are everything ever recorded; the expiry of the keys is in BucketedTrending and BucketExpiry. Lower-casing covers ASCII.
- TrendingProcessor.Processor.HandleMessage: feature materialization and its clean-up in a deletion write to other keys and are left out.
- TrendingProcessor.Processor.ApplyDeletion: every SADD succeeds; TrendingReplicas also has those of posts that fail and are passed over.
- TrendingProcessor.Processor.HandleBatch: the heartbeat is left out, and a commit that is asked for is taken to be granted, which is an assumption: with autoCommit off and no interval or threshold configured, commitOffsetsIfNecessary may have nothing to do.
- Suppression.DeletionIsFinal: is the special case of one replica; with several, DeletionIsFinalIff holds.
- BucketedTrending.TopIsBruteForce: one read with its temporary key to itself (SharedKeys has several); Redis's ordering of the union is a premise; writers, readers and Redis read one clock; the velocity score is left out.
- FeedFanout.DeletedMeansFannedOut: search indexing, embeddings, receive counts and the dead-letter move are left out; the table is the set of owners that have this post's item.
- BatchHandler.Handler.InsertEvents: a row that the service does not report as rejected is taken to have landed; what the client does with a table that is an inherited property is, like every answer, a parameter; the S3 archive, metrics and the JSON size estimate (a parameter) are left out.
- DecayLock.RunsAreExclusive: all replicas read one clock; the decay arithmetic itself is left out.
- QualifiedImpression.RunsAreSound: the observer's thresholds are left out; any visible fraction may be reported at any time, and timers never fire early.
- QualifiedImpression.CardEffect.Report: one clock reading per handler; the source reads the clock twice when it accumulates, and loses the time between the readings.
- Coalescer.RunsAreSound: the merge itself, its statistics and the timers that call it are left out; requests come at any time.
- Velocity scores, the legacy Pub/Sub counters, HLS packaging, uploads, transcoding, authentication, rate limiting, the backend, infrastructure and all user interface code are not part of this model.
