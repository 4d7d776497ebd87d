# kpubdata_builder: verified models

Dafny models of the parts of kpubdata_builder whose correctness is a matter of protocol or
algorithm, with proofs of what they promise. `dafny verify dfyconfig.toml` checks everything.

| part | files | what is proved, in short |
|---|---|---|
| chunked parsing | `JsonText`, `JsonDecoder`, `JsonRoundTrip`, `JsonAccepted`, `JsonDecoderLaws`, `Chunks`, `ArrayReader`, `TextLines`, `PythonText`, `TabularBatches` | documents as JSON is written are read as they are meant, and nothing else is accepted; reading in pieces, however the text is cut, ends like reading it whole |
| data checksums | `RecordFiles`, `FoldArithmetic`, `MultisetChecksum`, `Sorting`, `SortedChecksum` | the division-free product is the plain one; spilling, sorting and merging is sorting; neither depends on the order of records |
| build orchestration | `SourcePipeline`, `SourceEnds`, `BuildRuns`, `BuildEnds`, `BuildHistory`, `BuildProgress`, `BuildConflict`, `BuildMerge`, `TableCommits` | the first step that raises or boundary that is cancelled decides a source's outcome and all its events; over all interleavings of builds, workers, cancel requests and commits, the manifest tells what the workers, the composition and the commits met, older data never replaces newer, and no build is ever stuck |
| row pages and aggregates | `Relational`, `RowPages`, `Aggregates` | pages make up the whole table in one strict order; every measure shown is the one its group's cells have; grouping conserves rows and sums; mixed units are refused exactly when there are some |
| stateful guards | `AuthThrottle`, `QueryAdmission` | the throttle agrees with a plain log of failures; slots and memory are conserved in every interleaving |
| checkpointed fetch | `CheckpointedFetch` | whatever crashes, retries and resumes happen, a completed run returns what an uninterrupted one does |
| column type reader | `DtypeReader`, `DtypeMisses` | reading a printed type gives back its components, and exactly when |

How the models are built:

- Code that changes state step by step is a class or a method with loops, proved against a
  specification function; what is promised is then proved about that function. Concurrency is a
  transition system: a state, atomic actions, and statements over every schedule of actions.
- Text is a sequence of characters, chunks are a sequence of strings, files are their text. Clock
  readings, failures of calls, cancellation and crashes are parameters, so that every theorem is for
  all of them.
- SHAKE-256, SHA-256 and `json.dumps` are function parameters. The base `2**3072` is a symbol `b` of
  which only `Small(1103717, b)` is used; `TheBaseFits` shows that the real base meets it.
- Where the code and its comments differ, the models follow the code. `profile.py:105-106` promises
  the fields of a struct; a colon in a field name breaks that, and `StructFieldsExactlyWhen` says
  exactly when it holds. `profile.py:91-92` promises the element of a list; a comma outside brackets,
  which brackets inside a quoted name can bring about, breaks that: `InnerOfListExactlyWhen`,
  `InnerOfArrayExactlyWhen` and `BracketsInANameCutTheElement`. `TextIsMissed` shows what a colon can
  do to `_can_hold_text`, and `NoTextIsMissed` when it does no harm. `fetch.py:42` promises to resume
  from the last successful fetch; a checkpoint does not say which dataset, listing and parameter sets
  it was written for: `ResumedWithOtherParameters` shows wrong lists, and `ResumeIsRightExactlyWhen`
  says for which configurations resuming is right. `build_runs_api.py:136` promises status 200 when all sources succeed; a table
  that was not committed makes it 409 and the job failed, while the manifest says ok:
  `AConflictFailsTheJobOfAnOkBuild` and `JobDisagreesExactlyWhen`.
- `build_schema_summary` is called after the export's completion event (`orchestrator.py:941`). Nothing
  in it is known to raise; were it to raise, the export would be recorded as completed and as failed,
  and `SourceRun.Run` says that this is the only way.

## Model

| member | source | states |
|---|---|---|
| JsonRoundTrip.ValueShown | src/kpubdata_builder/ingestion/tabular_ingest.py:370-373 | every document written by the rules of RFC 8259, with Python's three further numbers and space anywhere it may stand, is read as it is meant and no further, whatever follows that does not go on with a number; the rules and the meaning do not refer to the decoder |
| JsonRoundTrip.CharactersShown | src/kpubdata_builder/ingestion/tabular_ingest.py:370-373 | the same for the inside of a string: plain characters, short escapes, escaped units, and two of them that are one code point |
| JsonText.KeysOfMembers | src/kpubdata_builder/ingestion/tabular_ingest.py:370-373 | an object has exactly the keys of its members |
| JsonText.TheLastCounts | src/kpubdata_builder/ingestion/tabular_ingest.py:370-373 | of members with the same key the last one counts |
| JsonAccepted.LoadsExactlyWhen | src/kpubdata_builder/ingestion/tabular_ingest.py:240-246 | a text is loaded exactly when it is that of a document with space around it, and as what that document means |
| JsonDecoderLaws.ValueAgrees | src/kpubdata_builder/ingestion/tabular_ingest.py:396-407 | for every text and every continuation: a value not followed by a number's tail is decoded alike with more text, and a failure either may be incomplete or is reported at the same place |
| JsonDecoderLaws.CharactersAgree | src/kpubdata_builder/ingestion/tabular_ingest.py:399-407 | the same for the inside of a string, with escapes and surrogate pairs that a cut may split; a finished string is final |
| JsonDecoderLaws.CutValueMayBeIncomplete | src/kpubdata_builder/ingestion/tabular_ingest.py:410-420 | a failure on a proper prefix of any text that decodes is called incomplete |
| JsonDecoderLaws.DefiniteErrorStays | src/kpubdata_builder/ingestion/tabular_ingest.py:275-280 | a failure called definite has no valid continuation and is reported at the same place in each |
| JsonDecoderLaws.FinishedValueStays | src/kpubdata_builder/ingestion/tabular_ingest.py:386-391 | a value not followed by the tail of a number is the value of every longer text |
| JsonDecoderLaws.ValueInsideIsFound | src/kpubdata_builder/ingestion/tabular_ingest.py:370-373 | a value that ends inside the text at hand is found there |
| ArrayReading.ReadWholeIsLoads | src/kpubdata_builder/ingestion/tabular_ingest.py:344-368 | reading element by element accepts exactly the documents the decoder takes for a list, yields the items of that list, and tells well-formed documents of another shape from malformed ones |
| ArrayReading.AcceptedExactlyWhen | src/kpubdata_builder/ingestion/tabular_ingest.py:344-368 | reading element by element accepts exactly the texts of arrays, and its elements are what the items mean |
| ArrayReading.ElementsBeforeAnError | src/kpubdata_builder/ingestion/tabular_ingest.py:344-391 | the items before the place where nothing can be read any more are handed out, and only they; then the document is refused |
| ArrayReading.LastElementBeforeAnError | src/kpubdata_builder/ingestion/tabular_ingest.py:344-391 | so is an item that neither a comma nor the bracket follows |
| ArrayReading.ArrayReader.constructor | src/kpubdata_builder/ingestion/tabular_ingest.py:285-294 | a new reader has the text of all chunks unread |
| ArrayReading.ArrayReader.NextChunk | src/kpubdata_builder/ingestion/tabular_ingest.py:296-302 | takes the next chunk, or notes that there is none, for good |
| ArrayReading.ArrayReader.More | src/kpubdata_builder/ingestion/tabular_ingest.py:304-310 | one chunk more is buffered, and no unread text is lost or repeated |
| ArrayReading.ArrayReader.Grow | src/kpubdata_builder/ingestion/tabular_ingest.py:312-329 | the unread text stays the same; what is buffered at least doubles or passes the limit or all is read; it never exceeds the limit plus the longest chunk |
| ArrayReading.ArrayReader.NextCharacter | src/kpubdata_builder/ingestion/tabular_ingest.py:331-339 | skips the white space of the whole text, across chunks, and reports the character there or the end |
| ArrayReading.ArrayReader.TryElement | src/kpubdata_builder/ingestion/tabular_ingest.py:372-391 | one attempt: a value only if it is the value of the whole unread text; a refusal only if that has none or its value outgrew the limit; another attempt only with more text |
| ArrayReading.ArrayReader.NextElement | src/kpubdata_builder/ingestion/tabular_ingest.py:370-391 | an element is the one the whole text has there; a definite error is refused without taking another chunk; the number of growths is logarithmic in the limit |
| ArrayReading.ArrayReader.Elements | src/kpubdata_builder/ingestion/tabular_ingest.py:344-368 | from chunks: the elements and the verdict of the whole text, unless it stopped at the limit, and then its elements are right and the document is no array within the limit |
| ArrayReading.ReadChunks | src/kpubdata_builder/ingestion/tabular_ingest.py:272-294 | for every cutting: an array whose items are each written within the limit, or as a whole are, yields what its items mean; what is accepted is the text of an array with these items; every document no longer than the limit is read as the whole text is |
| TextLines.StripKept | src/kpubdata_builder/ingestion/tabular_ingest.py:265-269 | stripping the break characters from the kept lines gives the lines: their own break is all there is to strip |
| TextLines.LastLineGoesOn | src/kpubdata_builder/ingestion/tabular_ingest.py:262-264 | of the lines of a text all but the last are lines of every continuation, also when a carriage return ends the text |
| TextLines.OnlyOneSplit | src/kpubdata_builder/ingestion/tabular_ingest.py:258-269 | lines free of breaks, each with one break at its end, "\r\n" counting as one, only the last perhaps without, that together make up the text: there is one such listing, and it is `splitlines` |
| TextLines.SplitExactlyWhen | src/kpubdata_builder/ingestion/tabular_ingest.py:258-269 | so the lines are those of `splitlines` exactly when they are those of such a listing |
| TextLines.Lines | src/kpubdata_builder/ingestion/tabular_ingest.py:258-269 | for every chunking the lines are those of the one listing of lines and ends that makes up the whole text |
| PythonText.StripExactlyWhen | src/kpubdata_builder/ingestion/tabular_ingest.py:237 | stripping takes the white space at either end, all of it and nothing else |
| TabularBatches.LineIsRead | src/kpubdata_builder/ingestion/tabular_ingest.py:236-246 | a blank line counts for nothing, an object's text for its meaning, and any other line is refused under its number |
| TabularBatches.LinesAreReadInOrder | src/kpubdata_builder/ingestion/tabular_ingest.py:236-252 | lines are read one after the other up to the first that is refused |
| TabularBatches.Collect | src/kpubdata_builder/ingestion/tabular_ingest.py:248-252 | a record joins the batch, and a batch is handed over as soon as it is full |
| TabularBatches.JsonlBatches | src/kpubdata_builder/ingestion/tabular_ingest.py:234-255 | the batches concatenate to the objects of the non-blank lines in order, every batch but the last full and none empty; the first bad line is named and fewer than one batch is lost before it; no lines is refused |
| TabularBatches.JsonBatches | src/kpubdata_builder/ingestion/tabular_ingest.py:423-437 | the same for the elements of a whole array, whatever the chunks; an element that is no object, and a malformed document, are refused after the full batches before them |
| RecordFiles.RenderRead | src/kpubdata_builder/manifest/checksums.py:72-74 | record lines written to a file are the lines read from it |
| RecordFiles.NonEmptyAre | src/kpubdata_builder/manifest/checksums.py:127-135 | empty lines do not count; the others keep their order |
| FoldArithmetic.FoldIsCongruent | src/kpubdata_builder/manifest/checksums.py:66-68 | replacing the high part times the base by the high part times the fold keeps the number modulo their difference, and makes it smaller |
| FoldArithmetic.FoldShrinks | src/kpubdata_builder/manifest/checksums.py:92-98 | from a product of two numbers below the base, at most three folds end below the base |
| FoldArithmetic.Reduce | src/kpubdata_builder/manifest/checksums.py:92-99 | the fold loop ends below the base, congruent to the true product, after at most three passes |
| MultisetChecksums.TheBaseFits | src/kpubdata_builder/manifest/checksums.py:63-68 | `2**3072` and `1103717` meet what the proofs ask of a base and its fold |
| MultisetChecksums.ReferenceV2 | scripts/bench_checksums.py:88-100 | reducing after every multiplication hashes the count and the product of the lines' factors modulo the modulus |
| MultisetChecksums.ProductOfDigests | src/kpubdata_builder/manifest/checksums.py:86-100 | the reduced product is the product of the digests themselves modulo the modulus, those that are multiples of it left out |
| MultisetChecksums.MultisetChecksum.AddLine | src/kpubdata_builder/manifest/checksums.py:86-100 | one line more is folded in, with the product below the base and congruent to the true one |
| MultisetChecksums.MultisetChecksum.Hexdigest | src/kpubdata_builder/manifest/checksums.py:109-116 | one subtraction at the end gives what the reference gives for the same lines |
| MultisetChecksums.ProductOfConcatenation | src/kpubdata_builder/manifest/checksums.py:77-100 | folding two lists one after the other multiplies their products |
| MultisetChecksums.ProductOfPermutation | src/kpubdata_builder/manifest/checksums.py:77-79 | the product is the same for every order of the lines |
| MultisetChecksums.ChecksumOfRecords | src/kpubdata_builder/manifest/checksums.py:119-124 | the checksum of records in memory, as the reference would compute it |
| MultisetChecksums.ChecksumOfFile | src/kpubdata_builder/manifest/checksums.py:127-135 | the checksum of a file's non-empty lines, in one pass |
| MultisetChecksums.FileChecksumIsRecordsChecksum | src/kpubdata_builder/manifest/checksums.py:127-135 | a file of the records, written in any order, has the checksum of the records |
| Sorting.SortSorts | src/kpubdata_builder/manifest/provenance.py:205-212 | the sorted lines are in order |
| Sorting.SortedIsUnique | src/kpubdata_builder/manifest/provenance.py:205-212 | two ordered listings of the same elements are equal, so an order leaves nothing to choose |
| SortedChecksums.DataChecksumOfPermutation | src/kpubdata_builder/manifest/provenance.py:192-212 | the data checksum is the same for every order of the records |
| SortedChecksums.FirstDifferenceDecides | src/kpubdata_builder/manifest/provenance.py:205-212 | strings are ordered by the first character in which they differ, a prefix first |
| SortedChecksums.PayloadIsAnArray | src/kpubdata_builder/manifest/provenance.py:205-212 | what is hashed is the text of the JSON array whose items the lines are the texts of |
| SortedChecksums.Merge | src/kpubdata_builder/manifest/provenance.py:244-248 | merging sorted streams gives all their lines in order |
| SortedChecksums.WriteRun | src/kpubdata_builder/manifest/provenance.py:261-268 | the file of a run reads back as the sorted lines |
| SortedChecksums.SpillRuns | src/kpubdata_builder/manifest/provenance.py:232-243 | for every run size, the runs and the lines left over are all the lines, each run sorted |
| SortedChecksums.FileChecksum | src/kpubdata_builder/manifest/provenance.py:220-258 | for every run size the hash is that of the sorted array of the file's lines |
| SortedChecksums.FileChecksumIsDataChecksum | src/kpubdata_builder/manifest/provenance.py:220-230 | a file of the records, in any order, has the data checksum of the records |
| SourcePipeline.Recorder.Record | src/kpubdata_builder/events/recorder.py:92-133 | recording never raises: the event is in the store or among the dropped ones |
| SourcePipeline.SourceRun.Emit | src/kpubdata_builder/pipeline/orchestrator.py:1463-1467 | between two events of a source the others may record any of theirs; its own stay in order |
| SourcePipeline.NothingIsLost | src/kpubdata_builder/events/recorder.py:81-90 | for every pattern of failing appends, stored and dropped events together are all events |
| SourcePipeline.NothingIsDropped | src/kpubdata_builder/events/recorder.py:81-90 | when no append fails, the store has every event in order and none is dropped |
| SourcePipeline.SourceRun.Fetch | src/kpubdata_builder/pipeline/orchestrator.py:556-562 | cancellation is seen after every fetched combination but the last |
| SourcePipeline.SourceRun.RecordFailure | src/kpubdata_builder/pipeline/orchestrator.py:978-1016 | one stage failure, for the first stage not completed, and a fetch failure exactly when the fetch had not completed |
| SourcePipeline.SourceRun.Run | src/kpubdata_builder/pipeline/orchestrator.py:480-1024 | for every course of raised errors and cancellations, along one agenda of all boundaries, steps and combinations in source order: the first entry that raises or is cancelled decides the status and the completed stages, and the events are exactly those of the entries before it, then those of the failure; it succeeds when there is none. Completed stages are a prefix of bronze, silver, gold; of a source that does not succeed they are the completion events exactly unless it failed after its export was complete; a failed source has one stage failure, for the first stage not completed, or export; a cancelled one has none and starts no further stage; all this of the events recorded under its key, whatever other sources record in between |
| SourcePipeline.SourceRun.RunToExport | src/kpubdata_builder/pipeline/orchestrator.py:884-942 | a schema summary that raises leaves the export complete with its completion event; a cancellation leaves it not started |
| SourceEnds.OutcomeByAgenda | src/kpubdata_builder/pipeline/orchestrator.py:480-1024 | the kind of the first entry of the agenda that stops is the status, and the stages written before it are the completed ones |
| SourceEnds.SucceedsExactlyWhen | src/kpubdata_builder/pipeline/orchestrator.py:480-1024 | a source succeeds exactly when no step raises and no boundary is cancelled, so each of them matters |
| BuildRuns.EveryRunKeepsItsInvariant | src/kpubdata_builder/pipeline/orchestrator.py:1423-1744 | over every interleaving of builds, also of builds that stop early and of jobs that are never queued, every build keeps its invariant on workers, latches, decision, errors, commits, manifest and job; a job says succeeded only of an ok build without warehouse failures |
| BuildEnds.ManifestTellsTheTruth | src/kpubdata_builder/pipeline/orchestrator.py:1527-1733 | a cancelled build composed nothing, committed no table and recorded no terminal event; any other recorded the one it ended with; an ok build has no errors and no failed source; all source errors are in the manifest |
| BuildEnds.FailedSourceIsListed | src/kpubdata_builder/pipeline/orchestrator.py:1587-1591 | every failed source's error is among the errors, under its name |
| BuildHistory.EveryWorkerFits | src/kpubdata_builder/pipeline/orchestrator.py:480-1024 | in every interleaving each worker is where its history puts it: so many stages entered and done, then at a boundary, inside a stage, failed with the error it raised, or turned back |
| BuildHistory.ManifestTellsWhatWasMet | src/kpubdata_builder/pipeline/orchestrator.py:1587-1733 | in every interleaving the manifest's errors are exactly those met by workers and composition, and its failures those of the commits tried; ok means that every worker went through all four stages with nothing raised, and the composition too |
| BuildHistory.RaisedIsTold | src/kpubdata_builder/pipeline/orchestrator.py:978-1024 | an error a worker raised in any stage is in every manifest written later, under its source's name, and that manifest is not ok |
| BuildHistory.CompositionAndCommitsAreTold | src/kpubdata_builder/pipeline/orchestrator.py:1592-1668 | so is an error the composition raised; a commit that raised or lost its table is among the failures |
| BuildHistory.FailuresAreTheFailed | src/kpubdata_builder/pipeline/orchestrator.py:1633-1668 | a source is among the failures exactly when its commit raised or lost its table |
| BuildHistory.FailureIsTheAttempts | src/kpubdata_builder/pipeline/orchestrator.py:1633-1668 | with distinct sources the failure is a conflict exactly when the table was lost |
| BuildEnds.PointOfNoReturn | src/kpubdata_builder/pipeline/cancellation.py:20-29 | after a successful commit no schedule makes the build or its job end cancelled; after a request was accepted no schedule leads to a manifest that says otherwise |
| BuildEnds.DecisionIsFinal | src/kpubdata_builder/pipeline/orchestrator.py:1527-1542 | what was decided at the final boundary never changes |
| BuildEnds.RequestStays | src/kpubdata_builder/service/jobs.py:93-94 | a cancel request is never taken back |
| BuildProgress.RequestInTimeCancels | src/kpubdata_builder/service/jobs.py:111-121 | a request that comes while the job has not ended and before the commit makes every later manifest say cancelled; any other changes nothing |
| BuildProgress.NoBuildIsStuck | src/kpubdata_builder/pipeline/orchestrator.py:1423-1744 | in every interleaving, a build that was not cancelled or given up in the queue, nor stopped, can still write its manifest and end its job, by steps of its own |
| BuildProgress.JobCanEnd | src/kpubdata_builder/service/jobs.py:655-700 | the job of a build that was stopped, or has its manifest, can end at once |
| BuildEnds.JobDisagreesExactlyWhen | src/kpubdata_builder/service/jobs.py:655-700 | once a job has ended and its build wrote a manifest, the two disagree exactly when the manifest says ok and tables were not committed, or the build raised or was refused after writing it; then the job says failed |
| BuildEnds.JobWithoutManifest | src/kpubdata_builder/service/jobs.py:402-412 | a job that ends without a manifest either never began its build, being cancelled in the queue or not taken by the worker pool, or its build raised or was refused; it says cancelled if that was requested, failed otherwise, and never succeeded |
| BuildConflicts.AConflictFailsTheJobOfAnOkBuild | src/kpubdata_builder/service/build_runs_api.py:243-249 | a schedule of two builds of one table after which the first one's manifest says ok, with a conflict, and its job says failed |
| BuildMerge.RunCancellation.RequestCancel | src/kpubdata_builder/service/jobs.py:111-121 | a request is accepted unless the run committed, again and again |
| BuildMerge.RunCancellation.TryCommit | src/kpubdata_builder/service/jobs.py:128-134 | a commit succeeds unless cancellation was requested |
| BuildMerge.RunCancellation.Close | src/kpubdata_builder/service/jobs.py:136-145 | closing ends the window for requests and reports whether there was one |
| BuildMerge.CollectErrors | src/kpubdata_builder/pipeline/orchestrator.py:1587-1591 | the errors are those of the failed sources, in the order of the sources |
| BuildMerge.Merge | src/kpubdata_builder/pipeline/orchestrator.py:1540-1609 | the merge as run is the decide, compose and settle steps of the transition system, with the same latch, composition, errors and status |
| TableCommits.EveryStateIsOk | src/kpubdata_builder/pipeline/orchestrator.py:1423-1433 | in every state, every revision read is the number of snapshots committed by then, and every snapshot belongs to an ok build that records it |
| TableCommits.NewerDataReplacesOlder | src/kpubdata_builder/pipeline/orchestrator.py:1423-1425 | over every interleaving, each snapshot's build read the table's revision after the snapshots before it were committed |
| TableCommits.OvertakenBuildConflicts | src/kpubdata_builder/pipeline/orchestrator.py:1633-1668 | a commit moves the table exactly when no other came since the revision was read; otherwise all tables stay and the conflict is recorded |
| Relational.PassesMeansAll | src/kpubdata_builder/query/rows.py:286-312 | a row passes the SQL condition exactly when it satisfies every filter; a null satisfies no comparison |
| Relational.FiltersFollowTheOrder | src/kpubdata_builder/query/rows.py:286-312 | a filter selects by the order rows are sorted in: `lt` the rows before one with the literal there, and so on; none selects a null |
| Relational.InIsOneOf | src/kpubdata_builder/query/rows.py:286-312 | `in` selects what equality with one of the literals does |
| Relational.CompareTransitive | src/kpubdata_builder/query/rows.py:357-363 | the sort keys with nulls last are a transitive order |
| Relational.FirstDifferenceDecides | src/kpubdata_builder/query/rows.py:357-363 | the first key on which two rows differ decides: a value before a null in either direction, and the smaller value first unless descending |
| RowPages.RowOrderIsTotal | src/kpubdata_builder/query/rows.py:356-363 | with the file position as last key the order of rows is total and strict |
| RowPages.AnswerIsStrictlyOrdered | src/kpubdata_builder/query/rows.py:345-363 | the whole answer has every passing row once and no other, in order |
| RowPages.NullsLastAndTiesByPosition | src/kpubdata_builder/query/rows.py:356-363 | rows are in the order of the first key they differ on, nulls of the first key come last in either direction, and rows that tie keep their file order |
| RowPages.OnlyOneAnswer | src/kpubdata_builder/query/rows.py:318-320 | whatever order an engine produces rows in, a listing sorted by this order is the one answer |
| RowPages.ReadPage | src/kpubdata_builder/query/rows.py:315-377 | a page is a cut of the one answer; the count is the answer's length; more rows are reported exactly when there are some; an unknown column is refused |
| RowPages.PageShows | src/kpubdata_builder/query/rows.py:345-373 | the rows of a page are the answer's rows from the offset on, as many as there are up to the page size, each with the cells of the columns named |
| RowPages.PagesJoin | src/kpubdata_builder/query/rows.py:367-373 | consecutive pages of any sizes are one long page |
| RowPages.PagesAreTheWholeTable | src/kpubdata_builder/query/rows.py:367-377 | pages up to the one without more are the whole filtered table, no row lost or repeated, and their length is the exact count |
| RowPages.ReadAllPages | src/kpubdata_builder/service/warehouse_api.py:346-352 | a reader that follows the next offset until there is no more gets the whole filtered table, in order |
| Aggregates.GroupsConserve | src/kpubdata_builder/query/aggregate.py:370-398 | any weight of rows summed over the groups is its sum over all rows |
| Aggregates.MeasuresAreTotals | src/kpubdata_builder/query/aggregate.py:312-325 | row counts, counts, null counts and sums are such weights |
| Aggregates.PassingAre | src/kpubdata_builder/query/aggregate.py:338-345 | the rows aggregated are those that pass, as often as they are there |
| Aggregates.MembersAre | src/kpubdata_builder/query/aggregate.py:370-398 | a group has the rows with its key, as often as they are there |
| Aggregates.SameKeyWhenTheyAgree | src/kpubdata_builder/query/aggregate.py:370-398 | rows are in one group exactly when they agree on the key columns |
| Aggregates.EvaluateIsMeasure | src/kpubdata_builder/query/aggregate.py:312-325 | told from the cells: the minimum is some row's value and none is smaller, dually the maximum; the average times the count is the sum; distinct values are counted once; these are null exactly when every cell is, but for the counts |
| Aggregates.OnlyOneMeasure | src/kpubdata_builder/query/aggregate.py:312-325 | that leaves one value for each measure |
| Aggregates.AggregateConserves | src/kpubdata_builder/query/aggregate.py:338-345 | the groups' row counts add up to the filtered input count, and so do counts, null counts and sums |
| Aggregates.CountsAddUp | src/kpubdata_builder/query/aggregate.py:10-12 | in every group shown, `count` plus `count_null` of a column is `count_rows` |
| Aggregates.MeasureIsShown | src/kpubdata_builder/query/aggregate.py:117-126 | a group's output shows every measure of its rows under its alias, hidden by no key and no unit |
| Aggregates.OutputShowsGroup | src/kpubdata_builder/query/aggregate.py:448-465 | the output row of a group has its rows' common key, their common unit, and its measures, in this order |
| Aggregates.OutputConserves | src/kpubdata_builder/query/aggregate.py:338-345 | over all groups in their order, the row counts, counts, null counts and sums shown add up to those of the filtered rows |
| Aggregates.UnitsAreCounted | src/kpubdata_builder/query/aggregate.py:380-387 | more than one unit is counted exactly when two rows of the group differ in it, a missing unit counting as one |
| Aggregates.SplitGroupIsPart | src/kpubdata_builder/query/aggregate.py:106-115 | a group split by unit is the part of the unsplit group with that unit |
| Aggregates.SplitGroupsPartition | src/kpubdata_builder/query/aggregate.py:106-115 | the split groups share out the unsplit group's rows, and none mixes units |
| Aggregates.SplitGroupsAreTheUnits | src/kpubdata_builder/query/aggregate.py:106-115 | the groups of a split plan are exactly the unsplit groups, once for each unit that occurs in them |
| Aggregates.NoGroupIsEmpty | src/kpubdata_builder/query/aggregate.py:390-394 | with key columns, every group has a row |
| Aggregates.GroupOrderIsTotal | src/kpubdata_builder/query/aggregate.py:448-460 | the requested order with the group keys after it is total and strict over the groups |
| Aggregates.OnlyOneOrder | src/kpubdata_builder/query/aggregate.py:448-465 | a sorted listing of the groups is the same whatever order they were found in, each group once |
| Aggregates.GroupsInOrder | src/kpubdata_builder/query/aggregate.py:448-460 | the groups are in the requested order, those that tie by their keys, smallest first |
| Aggregates.RunAggregate | src/kpubdata_builder/query/aggregate.py:338-465 | a column the request names and the table lacks is refused, and only that way; refused as mixed exactly when some group mixes a unit that is neither grouped by nor split, with the number of such groups; refused for too many groups before any is cut; otherwise the first `limit` groups in their one order, with the full counts; each row shown has its group's key and unit, and each measure as the group's cells have it |
| AuthThrottle.PruneKeepsTheWindow | src/kpubdata_builder/service/auth_throttle.py:143-146 | pruning an ordered deque keeps exactly the stamps in the window |
| AuthThrottle.UnblockedExactlyWhen | src/kpubdata_builder/service/auth_throttle.py:110-120 | a client is let through exactly when its limit-th newest failure has left the window |
| AuthThrottle.WaitIsLeast | src/kpubdata_builder/service/auth_throttle.py:118-120 | the wait told is the least number of seconds, one at least, after which the oldest failure in the window has left it |
| AuthThrottle.WaitingUnblocks | src/kpubdata_builder/service/auth_throttle.py:118-120 | a client with at most the limit of failures is let through after the wait it was told |
| AuthThrottle.WaitingMayNotBeEnough | src/kpubdata_builder/service/auth_throttle.py:118-120 | with more failures than the limit the told wait may be too short: two failures, a limit of one |
| AuthThrottle.AuthFailureThrottle.CheckRetryAfter | src/kpubdata_builder/service/auth_throttle.py:98-120 | blocked only when the plain log has the limit of failures in the window, and exactly then unless a live stamp of the client was evicted |
| AuthThrottle.AuthFailureThrottle.EvictIfNeeded | src/kpubdata_builder/service/auth_throttle.py:148-160 | leaves room for one client; all stay if there was room; who goes had expired, or had the oldest newest failure and was in the way of the bound |
| AuthThrottle.AuthFailureThrottle.RecordFailure | src/kpubdata_builder/service/auth_throttle.py:122-134 | the log grows by one failure; the client's pruned stamps grow with it; no other client's change but by eviction; the bound on clients is kept |
| AuthThrottle.AuthFailureThrottle.RecordSuccess | src/kpubdata_builder/service/auth_throttle.py:136-141 | the client's log starts anew, no other changes |
| AuthThrottle.AuthFailureThrottle.Dispatch | src/kpubdata_builder/service/app.py:1434-1458 | a throttled request is answered without being authenticated and leaves the log; only a 401 counts as a failure; success clears it |
| AuthThrottle.AnswerFitsTheLog | src/kpubdata_builder/service/auth_throttle.py:98-120 | the answer from the held stamps against the plain log, for every clock and every state that agrees with it |
| QueryAdmission.MemoryBudget.Reserve | src/kpubdata_builder/query/service.py:69-74 | reserves exactly when it fits, and never beyond the total |
| QueryAdmission.MemoryBudget.Release | src/kpubdata_builder/query/service.py:76-78 | returns what was reserved, not below zero |
| QueryAdmission.QueryService.Execute | src/kpubdata_builder/query/service.py:166-185 | whether a query succeeds, fails or is refused, slots and memory are afterwards what they were; each refusal has its exact reason |
| QueryAdmission.EveryInterleavingKeepsTheLimits | src/kpubdata_builder/query/service.py:166-185 | in every interleaving, free and held slots make up the capacity, and what is reserved is the sum of the live reservations and within the budget |
| QueryAdmission.ReleasesAreExact | src/kpubdata_builder/query/service.py:76-78 | the clamp of a release never takes effect, and the semaphore is never released beyond its capacity |
| QueryAdmission.AllIsReturned | src/kpubdata_builder/query/service.py:167-172 | once all threads have left, every slot and all memory is back |
| QueryAdmission.EverybodyLeaves | src/kpubdata_builder/query/service.py:167-172 | no thread keeps another from leaving: once nobody enters and each has made its steps, in any order, all are outside and everything is back |
| QueryAdmission.RunningQueriesFit | src/kpubdata_builder/query/service.py:51-56 | at any moment, no more queries run than there are slots, and what those that run may take fits in the budget |
| QueryAdmission.RefusedForMemoryExactlyWhen | src/kpubdata_builder/query/service.py:176-180 | refused for memory exactly when one more reservation would exceed the budget |
| QueryAdmission.RefusedForItsCapExactlyWhen | src/kpubdata_builder/query/service.py:128-131 | with a cap, what one more reserves is that cap |
| QueryAdmission.AdmittedExactlyWhen | src/kpubdata_builder/query/service.py:166-172 | a thread gets a slot exactly when fewer than the limit are inside |
| QueryAdmission.OneAtATimeWithoutACap | src/kpubdata_builder/query/service.py:128-131 | without a per-query cap, queries run one at a time |
| CheckpointedFetch.FetchWithRetry | scripts/pipeline/fetch.py:86-140 | the result is that of the first attempt that does not raise, without anything delivered by attempts before it; an error not worth a retry, or the last one, ends it |
| CheckpointedFetch.FetchedExactlyWhen | scripts/pipeline/fetch.py:94-131 | fetched if and only if some allowed attempt answers after retryable errors only, and then with that attempt's records |
| CheckpointedFetch.ContainsExactlyWhen | scripts/pipeline/fetch.py:107-125 | a message is worth a retry when one of the tokens stands somewhere in it |
| CheckpointedFetch.Workspace.FetchRecords | scripts/pipeline/fetch.py:31-83 | from a sound checkpoint, a run leaves a sound checkpoint wherever it dies, and if it completes returns the answers to all parameter sets in order |
| CheckpointedFetch.EveryCheckpointIsSound | scripts/pipeline/fetch.py:149-158 | over any number of crashes, failures, restarts and resumes, the checkpoint holds the records of exactly the first `next_index` parameter sets |
| CheckpointedFetch.EveryCompletedRunAgrees | scripts/pipeline/fetch.py:56-83 | whatever happened before, a completed run returns the list of an uninterrupted one that makes the same requests |
| CheckpointedFetch.CompletesExactlyWhen | scripts/pipeline/fetch.py:69-83 | a run completes exactly when it gets through every parameter set not yet in its checkpoint |
| CheckpointedFetch.EndsAtTheFirstNotPassed | scripts/pipeline/fetch.py:69-83 | otherwise the first parameter set it does not get through tells how it ends: dead, or failed with the message of that fetch |
| CheckpointedFetch.CheckpointStandsWhereTheRunStopped | scripts/pipeline/fetch.py:78-80 | the checkpoint left stands at the first parameter set the run did not get through |
| CheckpointedFetch.NothingIsFetchedAgain | scripts/pipeline/fetch.py:59-69 | which parameter sets stand before the checkpoint, and what the service would answer for them, makes no difference to a resumed run |
| CheckpointedFetch.WithoutResuming | scripts/pipeline/fetch.py:56-80 | a run that does not resume, or keeps no checkpoints, ends as one that finds none; one that keeps none leaves what it finds |
| CheckpointedFetch.ResumedList | scripts/pipeline/fetch.py:59-75 | a resumed run that completes returns the answers to the requests before the checkpoint, then to its own from there on |
| CheckpointedFetch.ResumeIsRightExactlyWhen | scripts/pipeline/fetch.py:48-67 | resuming is right for every service and every run if and only if the resuming configuration begins with the parameter sets the checkpoint was written for and, if there are any, has the same dataset and lists it the same way |
| CheckpointedFetch.UnfitResumeIsWrong | scripts/pipeline/fetch.py:48-67 | for all other configurations, a service whose answer tells the request makes an undisturbed resumed run return a wrong list |
| CheckpointedFetch.ResumedWithOtherConfig | scripts/pipeline/fetch.py:48-75 | after a run of one parameter set, an undisturbed run of any other configuration of one parameter set that resumes returns what the first one fetched |
| CheckpointedFetch.ResumedWithOtherParameters | scripts/pipeline/fetch.py:48-75 | so with other parameters, with the same parameters of another dataset, and with the same request listed in another way |
| DtypeReader.InnerOf | src/kpubdata_builder/query/profile.py:91-102 | the loop over depth finds the text before the first comma outside brackets, stripped; no bracket is the exception |
| DtypeReader.StructFieldsOf | src/kpubdata_builder/query/profile.py:105-128 | the loop over depth, quotes and start finds the pieces between commas outside brackets and quotes, each after its first colon |
| DtypeReader.Inner | src/kpubdata_builder/query/profile.py:91-102 | the element is shorter than the type, so reading it on ends; none exactly without a bracket |
| DtypeReader.FieldsShorten | src/kpubdata_builder/query/profile.py:145-154 | every field read is shorter than the struct, so reading it on ends |
| DtypeReader.BaseOfShow | src/kpubdata_builder/query/profile.py:87-88 | the base of a printed type is its name |
| DtypeReader.InnerOfListExactlyWhen | src/kpubdata_builder/query/profile.py:91-102 | the element of a printed list is read back exactly when its print has no comma outside brackets |
| DtypeReader.InnerOfArrayExactlyWhen | src/kpubdata_builder/query/profile.py:91-102 | the element of a printed array is read back exactly when its print has no such comma and its brackets are in balance |
| DtypeReader.BracketsInANameCutTheElement | src/kpubdata_builder/query/profile.py:94-101 | closing brackets in a quoted field name make the element of a list be cut short |
| DtypeReader.StructFieldsExactlyWhen | src/kpubdata_builder/query/profile.py:105-128 | the field types of a printed struct are read back, all and in order, exactly when no field of its own has a colon in its name; names may hold brackets, not their own quote |
| DtypeReader.ShowIsLevel | src/kpubdata_builder/query/profile.py:94-125 | a print brings a scan back to the depth it had, at any nesting: the scan that heeds quotes if no name holds its own quote, the other one if names have their brackets in pairs |
| DtypeReader.OuterCommaAt | src/kpubdata_builder/query/profile.py:100-101 | a comma outside brackets is one where as many brackets were opened as closed before it |
| DtypeReader.ReadingTellsTheMeaning | src/kpubdata_builder/query/profile.py:145-154 | for every type whose fields, and whose elements with components of their own, are read back at each level, at any nesting, reading the print tells whether a value of the type could hold text |
| DtypeMisses.NoTextIsMissed | src/kpubdata_builder/query/profile.py:145-146 | also where a name has a colon, as long as no bracket opens after it, a type that could hold text is never taken for one that could not |
| DtypeMisses.TextIsMissed | src/kpubdata_builder/query/profile.py:128 | a struct with one text field named `x:Date(` is taken for one that could not hold text |
| DtypeReader.CleanIsReadable | src/kpubdata_builder/query/profile.py:91-128 | that is so for every type whose names hold no colon, not their own quote, and brackets in pairs only |
| DtypeReader.TextElementIsRead | src/kpubdata_builder/query/profile.py:140-142 | a list of scalar text is told from its print, whatever names and arguments are in it: even a cut element keeps its type's name |
| DtypeReader.PlainNameIsClean | src/kpubdata_builder/query/profile.py:105-106 | a name without quotes and brackets meets what either scan asks of names |

## Left out

- JSON decoding: Python's limit on the digits of an integer, its recursion limit, and error messages and positions; only verdicts and elements are compared. Python 3.13 and later report a trailing comma one place earlier, with the same verdict.
- JSON objects: a map, without the insertion order of keys.
- JsonBatches: reads all elements first and batches them after; that the generators are lazy is not modelled.
- Grow: the bound on the buffer is for the incomplete path; the path for a number that may continue (`tabular_ingest.py:386`) takes a chunk without a limit.
- Hexdigest: more than `2**64` records, where the source's eight-byte count overflows.
- SHAKE-256, SHA-256 and `json.dumps`: parameters; nothing is claimed about collisions, and of a record line only that it is not empty and holds no line break.
- `list.sort` and `heapq.merge`: the first by its result, the second as repeatedly taking the least head, not as a heap.
- Spill files, temporary directories, encodings, CSV and Parquet: input and output.
- SourcePipeline: what the stages compute; each is a step that may raise.
- BuildRuns: a worker's stages are boundaries it passes, ends at, or is cancelled at; their events are in SourcePipeline. The pool's limit of four workers is not modelled: every interleaving of all of them is allowed.
- BuildRuns: a build can stop between two of its steps, by an exception it does not handle or a refusal; which ones raise is not modelled.
- BuildRuns: a worker pool that raises after it has taken a job; it either queues the job or raises.
- BuildRuns: jobs that are retired or discarded from the registry, and retention of old snapshots.
- RowPages and Aggregates: DuckDB by what its SQL promises; values and averages are real numbers, without types, casts, not-a-number, overflow of sums, or the refusal of results too large to send.
- Relational: only the columns' values as numbers; text and dates order and compare alike.
- AuthThrottle: reading the limits from the environment; that requests share one lock is modelled by each operation being one step.
- QueryAdmission: what a query computes, its process, timeout and memory cap.
- CheckpointedFetch: delays between attempts and logging; a checkpoint is saved in one step and reads back as written; a damaged checkpoint file is not modelled.
- DtypeReader: escapes in a printed field name that contains both kinds of quote; names hold neither their own quote.
- URL fetch, exporters, publishers, HTTP routing, credentials, cards, SQL validation, PII scanning, version and comment checkers: wrappers, or properties easier than those above.
