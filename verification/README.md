# Verified models of aws-tui's self-contained engines

aws-tui is a terminal interface to AWS.  Behind its widgets it holds several engines
with invariants of their own, and this Dafny project models them and proves what they
promise.  `dafny verify dfyconfig.toml` checks everything.

| files | what they model |
|---|---|
| `Bytes`, `Utf8` | byte representations (big-endian, hexadecimal, decimal, exclusive or, zero padding) and strict UTF-8, each with its inverse |
| `StableDigest`, `StableValues`, `ListTokens` | the demo Athena client's tagged byte streams before hashing, and its pagination tokens |
| `AthenaQueries`, `AthenaAnswers`, `AthenaClient` | the query lifecycle with idempotent request tokens, and the chained result pages |
| `InMemoryFs`, `InMemoryFsStore` | the in-memory filesystem: a map of paths that stands for a tree |
| `CsvText`, `JsonText`, `ResultEncoders` | the streaming result encoder, with independent readers of RFC 4180 (section 2) and RFC 8259 (section 7) |
| `PreviewLimits`, `PreviewBudgets`, `PreviewText`, `SparseFiles`, `ParquetPlan`, `ParquetAdmission`, `ParquetPlanned`, `ParquetFrames`, `ParquetSession`, `ParquetPreview`, `ParquetDecode`, `ParquetFits`, `ParquetLabels`, `ParquetRows`, `ParquetSample`, `ParquetResult`, `ParquetReport`, `OwnedProcess` | the Parquet preview: a parent that reads the file and a child that plans, receives and decodes |
| `EmrRuns`, `EmrAnswers`, `EmrClient` | the demo EMR runs and their walkers |
| `Navigation`, `NavigationEnds`, `ServiceNavigations` | the navigation owner token and the mounts it fences |
| `WorkspaceSources`, `WorkspaceRestore`, `Adoption` | saved workspaces: resolving sources, preparing candidates under cancellation, adopting one |

## How to read it

Code that changes fields is a class whose methods run the source's steps in place; each
method is proved equal to a function on a value that holds the same fields (`State()`),
and the theorems are about that function and about whole runs of it.  Code made of
expressions is functions and lemmas.

What an operation answers is told twice: by the function, step by step as the source has
it, and by a theorem that says from the inputs alone when it succeeds, with what, and when
it is refused (`AthenaAnswers`, `EmrAnswers`, `ParquetPlanned`, `ParquetFits`,
`ParquetSample`, `NavigationEnds`, and the lemmas whose names end in Meaning or Exactly).

A stretch of code between two `await`s is one step.  Runs are sequences of states in
which every schedule of such steps is allowed.  What is outside (hashes, the clock of the
event loop, the native Parquet reader, the root view model, the caller's cancellations)
is a parameter or an arbitrary choice.

SHA-256 and HMAC are parameters.  Where a statement needs them not to collide, it says so
of the two inputs at hand only; no global injectivity is assumed.

## What was found

Several promises hold only under a condition.  Each is proved as an equivalence, or with
a concrete run that breaks it.

* A streaming write that may overwrite can bury entries: a directory made at its path
  between its check and its commit is replaced by a file.  A run keeps the tree exactly if
  no commit does that (`InMemoryFs.StepSound`, `RunSoundExactly`, `OverwriteCanBury`);
  writes that refuse to overwrite never do (`InterleavingIsSafe`).
* A directory keeps its revision while entries come and go below it.  So a conditional
  delete or publish takes exactly the subtree that was seen, in every later state, if and
  only if what was seen is a file (`InMemoryFs.DeleteTakesTheSubtreeSeen`,
  `PublishTakesTheSubtreeSeen`); a directory takes entries along that nobody saw
  (`UnseenEntryIsTaken`, `UnseenEntryRun`).  A manifest does fix the subtree
  (`PublishedAsListed`).
* A stop that lands while the third poll of a query is publishing its result is undone by
  that poll (`AthenaQueries.TerminalStays`, `StopDuringPublication`).
* A plan that lists more than 24 fields is refused by the parent although the child made
  it in good faith; only fields without any column (empty structs) make that possible
  (`ParquetAdmission.PlannerSoundness`, `EmptyStructsRefused`).
* A struct's fields are keyed by their escaped and shortened names, so two fields may
  share a key and a long name may be shortened, both without a mark.  A value not marked as
  cut holds the whole native value if and only if, in every struct of it, the escaped names
  fit a cell and differ (`ParquetLabels.UncutIsWhole`, `LabelsCollide`,
  `LongNameShortened`).
* A mount is fenced at every moment if and only if it is not retrying a remembered
  connection or falling back from that (`Navigation.RetryIsNotFenced`,
  `RetryOutlivesOwner`), and setting the generation back revives a superseded token
  (`SettingGenerationRevives`).
* A staged view is published when the adoption said True, hosted or not, and stays hidden
  in its host when committing the selection raises
  (`Adoption.StagedRecovery.CommitStagedRecovery`).
* A report makes `_result_rows` raise a KeyError, which `preview_parquet` does not catch,
  if and only if the first cell in it that cannot be read lacks nothing but its kind
  (`ParquetReport.EscapesExactly`, `KindlessReport`).

## Model

| member | source | states |
|---|---|---|
| StableDigest.ParseOfEncode | src/aws_tui/demo/in_memory_athena.py:1071-1112 | a parser run on the stream of any writable value followed by anything gives that value back (an enum as the tuple it is written as) and the rest |
| StableDigest.StreamIdentifiesValue | src/aws_tui/demo/in_memory_athena.py:1071-1112 | two values have equal streams exactly if they are the same up to how enums are written |
| StableDigest.CollectionStreamIdentifiesList | src/aws_tui/demo/in_memory_athena.py:1057-1068 | equal list streams, with the count written last, come from equal lists |
| StableDigest.FingerprintStreamInjective | src/aws_tui/demo/in_memory_athena.py:1039-1054 | the fingerprint stream determines its texts without a count, and keeps a missing text apart from an empty one |
| StableDigest.UpdateStableDigest | src/aws_tui/demo/in_memory_athena.py:1071-1112 | the digest is fed exactly the value's stream, or the value is refused exactly if something in it has no stable form |
| StableValues.StableExactly | src/aws_tui/demo/in_memory_athena.py:1071-1112 | a value is refused exactly if an object of another kind, or a text with a surrogate or a noncharacter, is somewhere inside of it |
| StableDigest.CollectionFingerprint | src/aws_tui/demo/in_memory_athena.py:1057-1068 | the fingerprint hashes the list stream, and is refused exactly if some row is |
| StableDigest.Fingerprint | src/aws_tui/demo/in_memory_athena.py:1039-1054 | the fingerprint hashes the stream of its texts |
| ListTokens.TokenExact | src/aws_tui/demo/in_memory_athena.py:142-190 | a token is accepted, and gives its offset, exactly under a binding whose signature it carries |
| ListTokens.TokenLayout | src/aws_tui/demo/in_memory_athena.py:142-190 | a token holds the offset under a mask made of the binding, and a signature of that together with the binding |
| ListTokens.BindingIdentifies | src/aws_tui/demo/in_memory_athena.py:192-200 | equal bindings mean equal scope, page size and list content, where the hashes do not collide on them |
| ListTokens.TokenHonoured | src/aws_tui/demo/in_memory_athena.py:142-200 | a token is honoured in exactly the context it was issued for, at its own offset, where the hashes do not collide on what the two contexts give them |
| ListTokens.PageExactly | src/aws_tui/demo/in_memory_athena.py:104-140 | a page holds the next rows, as many as the page size and the list allow, and a token exactly if any are left; a call is refused exactly for a token that is not this list's or leads past it |
| ListTokens.WalkIsSnapshot | src/aws_tui/demo/in_memory_athena.py:104-140 | a token walk that finishes returns exactly the rows, in order, of the list its first call met, even if the list changes between calls |
| ListTokens.SteadyWalkFinishes | src/aws_tui/demo/in_memory_athena.py:104-140 | a walk over a list that stays the same finishes with all of its rows |
| AthenaQueries.RequestPrintIdentifies | src/aws_tui/demo/in_memory_athena.py:651-658 | two requests have the same fingerprint exactly if they are the same request |
| AthenaQueries.ExecutionIdInjective | src/aws_tui/demo/in_memory_athena.py:674-675 | two execution numbers never give the same id |
| AthenaQueries.NextSound | src/aws_tui/demo/in_memory_athena.py:561-724 | every call, and each half of a poll that waits for a publication, keeps the dictionaries in order: the active set is the keys of the state indexes, the history lists each execution once, tokens own different executions |
| AthenaQueries.TerminalStays | src/aws_tui/demo/in_memory_athena.py:561-594 | a query that has ended stays as it is, except exactly when a publication overtaken by a stop writes after it |
| AthenaQueries.StopDuringPublication | src/aws_tui/demo/in_memory_athena.py:586-593 | that exception happens: a stopped query becomes succeeded |
| AthenaQueries.EndedForGood | src/aws_tui/demo/in_memory_athena.py:561-724 | in a run of calls that do not overlap, a query that has ended never changes again |
| AthenaQueries.ThirdPollSucceeds | src/aws_tui/demo/in_memory_athena.py:571-594 | a query that nobody stops is queued, running and succeeded after its first, second and third answered poll, whatever happens to other queries, however often its publication fails and whatever overlaps it |
| AthenaQueries.PollAdvances | src/aws_tui/demo/in_memory_athena.py:571-594 | an answered poll reports the next state; a failed publication changes nothing |
| AthenaAnswers.PollMeaning | src/aws_tui/demo/in_memory_athena.py:561-594 | a poll is refused exactly for an unknown query or a success that cannot be published; of an ended query it answers the stored detail itself, and any other it takes one state on |
| AthenaAnswers.StopMeaning | src/aws_tui/demo/in_memory_athena.py:708-724 | a stop succeeds exactly on a query under way, cancels it and touches nothing else |
| AthenaAnswers.StartMeaning | src/aws_tui/demo/in_memory_athena.py:613-706 | a start is refused exactly for a failed check, a token of another request or want of a result location; a known token is answered by its query; any other start makes one new queued query, with results under the caller's location only if the workgroup does not enforce its own |
| AthenaAnswers.EndedAnswers | src/aws_tui/demo/in_memory_athena.py:571-575 | in a run of calls that do not overlap, every later answer about an ended query is the detail it ended with |
| AthenaAnswers.StoppedStaysCancelled | src/aws_tui/demo/in_memory_athena.py:561-724 | once a stop has succeeded, every later poll of that query is answered, and reports it cancelled |
| AthenaQueries.RepeatedStart | src/aws_tui/demo/in_memory_athena.py:651-665 | a token used again any time later gives the same execution for the same request and starts nothing, and is refused for another |
| AthenaQueries.ListedOnce | src/aws_tui/demo/in_memory_athena.py:697-698 | in every state of a run an execution is in exactly one history, under its workgroup, exactly once |
| AthenaClient.InMemoryAthena.GetQueryExecution | src/aws_tui/demo/in_memory_athena.py:561-594 | the poll carried out on the dictionaries |
| AthenaClient.InMemoryAthena.StartQuery | src/aws_tui/demo/in_memory_athena.py:613-706 | the start carried out on the dictionaries, with the pages of the new execution installed and nothing else touched; a request that has no fingerprint is refused |
| AthenaClient.InMemoryAthena.StopQuery | src/aws_tui/demo/in_memory_athena.py:708-724 | the stop carried out on the dictionaries |
| AthenaClient.InMemoryAthena.InstallResultPages | src/aws_tui/demo/in_memory_athena.py:916-936 | pages with inconsistent columns are refused before any is stored; else every page is stored under its own token and names the next, and other executions keep theirs |
| AthenaClient.SeededRows | src/aws_tui/demo/in_memory_athena.py:358-362 | the pages registered for a statement hold its rows, each once and in order |
| AthenaClient.SeededSizes | src/aws_tui/demo/in_memory_athena.py:358-361 | every page but the last is full, and none is empty but a lone one |
| AthenaClient.FollowReadsAll | src/aws_tui/demo/in_memory_athena.py:726-751 | following page tokens from the first page gives every row once, in order, and stops |
| InMemoryFs.MkdirMeaning | src/aws_tui/demo/in_memory_fs.py:121-137 | mkdir fails exactly if a file lies on the way or at the path, then changes nothing, not even a missing ancestor; otherwise it adds just the path and its missing ancestors, and other entries keep their revisions |
| InMemoryFs.ClaimMeaning | src/aws_tui/demo/in_memory_fs.py:139-150 | a claim succeeds exactly for a missing path under a directory, makes just that directory, and returns a revision never used before |
| InMemoryFs.DeleteMeaning | src/aws_tui/demo/in_memory_fs.py:152-179 | a delete succeeds exactly for a present, non-root path with the expected etag; the subtree goes and all else stays |
| InMemoryFs.DeleteEmptyMeaning | src/aws_tui/demo/in_memory_fs.py:181-201 | exactly an empty, non-root directory with the expected etag is removed, and only it |
| InMemoryFs.MoveIsFresh | src/aws_tui/demo/in_memory_fs.py:262-301 | an allowed move has no entry at or below its destination |
| InMemoryFs.MovedMeaning | src/aws_tui/demo/in_memory_fs.py:282-301 | after a move every path under src is re-rooted at dst with its content and revision, and all else is unchanged |
| InMemoryFs.MoveMeaning | src/aws_tui/demo/in_memory_fs.py:262-301 | a move is made exactly from a present path to a free one outside of it, in a directory; otherwise nothing changes, and the error tells what is missing |
| InMemoryFs.PublishFileMeaning | src/aws_tui/demo/in_memory_fs.py:224-237 | a conditional publish succeeds exactly if that move can be made and the path has the revision expected |
| InMemoryFs.PublishDirectoryMeaning | src/aws_tui/demo/in_memory_fs.py:239-260 | the publish of a directory succeeds exactly if that move can be made and its manifest is the one expected |
| InMemoryFs.MovedKeepsValid | src/aws_tui/demo/in_memory_fs.py:262-301 | a move keeps the tree and the meaning of every revision |
| InMemoryFs.PutKeepsTree | src/aws_tui/demo/in_memory_fs.py:388-389 | storing a node under a directory keeps the tree exactly if it is a directory or has nothing below it |
| InMemoryFs.WriteMeaning | src/aws_tui/demo/in_memory_fs.py:343-391 | a write that nothing interrupts commits and leaves a file with just its data under a new revision |
| InMemoryFs.OpenMeaning | src/aws_tui/demo/in_memory_fs.py:354-375 | a write is let in exactly at a path that is no directory, in a directory, that is free or may be overwritten, with room for the size it declares beside all other files; each refusal has its own error |
| InMemoryFs.LateCommit | src/aws_tui/demo/in_memory_fs.py:384-391 | whatever happened meanwhile, a write that was let in commits exactly if its directory is still the entry it was and its path is free or may be overwritten |
| InMemoryFs.SequentialWriteWithinBudget | src/aws_tui/demo/in_memory_fs.py:366-399 | a write that nothing interrupts keeps the store within its total limit |
| InMemoryFs.ApplyKeepsValid | src/aws_tui/demo/in_memory_fs.py:121-301 | every whole operation keeps the tree, gives every entry a revision of its own and never reuses one |
| InMemoryFs.StepSound | src/aws_tui/demo/in_memory_fs.py:343-391 | every step, the two halves of a write included, keeps all that, except exactly a commit that puts a file where a directory with entries has appeared |
| InMemoryFs.RunSoundExactly | src/aws_tui/demo/in_memory_fs.py:343-391 | a whole run keeps the tree exactly if no commit in it buries entries |
| InMemoryFs.OverwriteCanBury | src/aws_tui/demo/in_memory_fs.py:384-389 | such a commit exists for an overwriting write |
| InMemoryFs.InterleavingIsSafe | src/aws_tui/demo/in_memory_fs.py:343-391 | interrupted writes that refuse to overwrite can be interleaved with whole operations of any kind, overwriting writes that nothing interrupts included |
| InMemoryFs.RevisionIdentifies | src/aws_tui/demo/in_memory_fs.py:61-67 | a revision seen at two times, at any two paths, stands for the same content |
| InMemoryFs.ManifestIdentifies | src/aws_tui/demo/in_memory_fs.py:246-258 | an unchanged manifest means the same paths with the same bytes |
| InMemoryFs.PublishedAsCaptured | src/aws_tui/demo/in_memory_fs.py:224-237 | a conditional publish puts in place the node whose revision was captured; if that is a file, nothing else moves (for a directory the entries below it are those of the moment, not those seen) |
| InMemoryFs.PublishedAsListed | src/aws_tui/demo/in_memory_fs.py:239-260 | a directory published under a manifest is the subtree the manifest was taken of |
| InMemoryFs.DeletedAsSeen | src/aws_tui/demo/in_memory_fs.py:152-179 | a conditional delete removes the node that was seen with what is below it by then; if that node is a file, it is all that goes |
| InMemoryFs.DeleteTakesTheSubtreeSeen | src/aws_tui/demo/in_memory_fs.py:152-179 | in every later state a matching revision means the subtree deleted is the one seen, if and only if a file was seen |
| InMemoryFs.PublishTakesTheSubtreeSeen | src/aws_tui/demo/in_memory_fs.py:224-237 | the same for the subtree a conditional publish puts in place |
| InMemoryFs.UnseenEntryIsTaken | src/aws_tui/demo/in_memory_fs.py:139-179 | any directory seen can get an entry and be deleted or published with it under the revision seen |
| InMemoryFs.UnseenEntryRun | src/aws_tui/demo/in_memory_fs.py:139-150 | such a directory is one claim away from the empty store |
| InMemoryFs.PreviewIsCurrent | src/aws_tui/demo/in_memory_fs.py:409-423 | a preview whose revision still matches reads the bytes the store holds |
| InMemoryFsStore.InMemoryFS.Mkdir | src/aws_tui/demo/in_memory_fs.py:121-137 | mkdir on the dictionaries, ancestor by ancestor |
| InMemoryFsStore.InMemoryFS.ClaimDirectory | src/aws_tui/demo/in_memory_fs.py:139-150 | a claim makes a fresh directory under an existing one and returns its revision, or refuses |
| InMemoryFsStore.InMemoryFS.Delete | src/aws_tui/demo/in_memory_fs.py:152-179 | delete on the dictionaries, with its loop over the subtree |
| InMemoryFsStore.InMemoryFS.DeleteEmptyDirectory | src/aws_tui/demo/in_memory_fs.py:181-201 | the deletion of an empty directory on the dictionaries |
| InMemoryFsStore.InMemoryFS.MoveAffected | src/aws_tui/demo/in_memory_fs.py:283-301 | the pop-and-insert loop yields the moved tree in any order, never overwrites an entry, and conserves entry count, total bytes and the set of revisions |
| InMemoryFsStore.InMemoryFS.PublishNoReplace | src/aws_tui/demo/in_memory_fs.py:262-301 | the move or its refusal, conserving the same |
| InMemoryFsStore.InMemoryFS.AtomicPublishNoReplace | src/aws_tui/demo/in_memory_fs.py:224-237 | compare-and-swap by revision, returning the revision expected |
| InMemoryFsStore.InMemoryFS.AtomicPublishDirectoryNoReplace | src/aws_tui/demo/in_memory_fs.py:239-260 | compare-and-swap by manifest |
| InMemoryFsStore.InMemoryFS.OpenWrite | src/aws_tui/demo/in_memory_fs.py:343-377 | the check of a streaming write, and what it remembers |
| InMemoryFsStore.ReceiveChunks | src/aws_tui/demo/in_memory_fs.py:378-383 | the receiving loop succeeds exactly if every prefix of the stream is within budget, and then holds all of it |
| InMemoryFsStore.InMemoryFS.CommitWrite | src/aws_tui/demo/in_memory_fs.py:384-391 | the commit of a streaming write |
| CsvText.ReadOfTable | src/aws_tui/domain/athena_export.py:204-220 | a strict RFC 4180 reader, which refuses a quote or a lone carriage return outside quotes, recovers header names and rows exactly from the written table; NULL, "\N", empty strings, backslashes, quotes and line breaks stay distinct |
| CsvText.QuotedWhereNeeded | src/aws_tui/domain/athena_export.py:204-220 | a cell is quoted exactly where its text alone would end early, be refused, or leave the line of a lone field empty |
| CsvText.BodyAppend | src/aws_tui/domain/athena_export.py:214-217 | escaping a CSV value piece by piece is escaping it whole |
| JsonText.ReadOfRender | src/aws_tui/domain/athena_export.py:222-253 | a JSON reader recovers every rendered document |
| JsonText.EscapedWhereNeeded | src/aws_tui/domain/athena_export.py:222-226 | a character is escaped exactly where it may not stand alone, and by a short escape where there is one |
| JsonText.EscapeAppend | src/aws_tui/domain/athena_export.py:222-226 | escaping a JSON string piece by piece is escaping it whole |
| ResultEncoders.ResultEncoder.CsvRecord | src/aws_tui/domain/athena_export.py:204-220 | the fragments of a record join to its text |
| ResultEncoders.ResultEncoder.JsonString | src/aws_tui/domain/athena_export.py:222-226 | the fragments of a string join to its literal |
| ResultEncoders.ResultEncoder.JsonStart | src/aws_tui/domain/athena_export.py:228-240 | the fragments of the opening join to its text |
| ResultEncoders.ResultEncoder.JsonRow | src/aws_tui/domain/athena_export.py:242-253 | the fragments of a row join to its text |
| ResultEncoders.ResultEncoder.Stream | src/aws_tui/domain/athena_export.py:156-198 | the chunks of an operation join to the UTF-8 of its fragments, each is full but a non-empty last one, bytes_written counts what was yielded and stays within the limit, and every way of ending sets the state |
| ResultEncoders.ResultEncoder.Start | src/aws_tui/domain/athena_export.py:118-126 | start works once, in the new state, and streams the opening text |
| ResultEncoders.ResultEncoder.WriteRow | src/aws_tui/domain/athena_export.py:128-142 | a row of the right width within the row limit is streamed; anything else fails the encoder |
| ResultEncoders.ResultEncoder.Finish | src/aws_tui/domain/athena_export.py:144-150 | finish streams the closing text and ends the encoder |
| ResultEncoders.OverflowsExactly | src/aws_tui/domain/athena_export.py:178-179 | for encodable text the limit error is due exactly if the whole would exceed max_bytes |
| ResultEncoders.EncodeResultRows | src/aws_tui/domain/athena_export.py:256-268 | an export succeeds exactly for tables of the right shape within both budgets, whatever the chunk size, and its bytes are the UTF-8 of the table |
| ResultEncoders.JsonTableText | src/aws_tui/domain/athena_export.py:228-253 | the JSON text of a table is the rendering of one document |
| ResultEncoders.TableJsonIdentifies | src/aws_tui/domain/athena_export.py:228-253 | distinct results are distinct documents |
| ResultEncoders.CsvExportReadsBack | src/aws_tui/domain/athena_export.py:204-220 | the bytes of a CSV export give back its names and rows |
| ResultEncoders.JsonExportReadsBack | src/aws_tui/domain/athena_export.py:222-253 | the bytes of a JSON export give back its document |
| PreviewText.SafeText | src/aws_tui/domain/preview.py:80-103 | stopping at the first piece that does not fit shows what escaping the whole text and cutting it would show, within the limit and without controls |
| PreviewText.PieceMeaning | src/aws_tui/domain/preview.py:75-95 | a character is spelled out exactly if it is a control, a mark of bidirectional text or a surrogate, and its spelling says which one |
| SparseFiles.SparseFile.Seek | src/aws_tui/domain/_parquet_preview_worker.py:141-152 | a seek moves to a target within the file, for each origin, or fails and moves nothing |
| SparseFiles.SparseFile.Read | src/aws_tui/domain/_parquet_preview_worker.py:154-170 | over truthful segments a read succeeds exactly if it is within budget and every byte of the clipped range is covered; then it returns the file's bytes and moves, otherwise it moves nothing |
| SparseFiles.SparseFile.ReadInto | src/aws_tui/domain/_parquet_preview_worker.py:172-175 | the target gets what a read gives and is otherwise left alone |
| ParquetFrames.ReadOfFrame | src/aws_tui/domain/_parquet_preview_worker.py:55-88 | a frame is read back whatever follows it |
| ParquetFrames.FrameOfRead | src/aws_tui/domain/_parquet_preview_worker.py:71-88 | only a frame reads as one |
| ParquetFrames.CutFrameIsIncomplete | src/aws_tui/domain/_parquet_preview_worker.py:78-88 | a frame cut short is never mistaken for a message |
| ParquetFrames.OversizeIsRefused | src/aws_tui/domain/_parquet_preview_worker.py:55-88 | too long a payload is refused by the sender, and by its announced length alone by the reader |
| ParquetFrames.ReadAllOfStream | src/aws_tui/domain/_parquet_preview_worker.py:55-88 | any sequence of frames keeps its boundaries |
| ParquetPlan.LeavesExactly | src/aws_tui/domain/_parquet_preview_worker.py:191-206 | counting leaves succeeds exactly within the nesting limit, and counts physical columns |
| ParquetPlan.SelectMeaning | src/aws_tui/domain/_parquet_preview_worker.py:224-236 | the selected columns are exactly those of the fields taken, each field whole or not at all, in increasing order |
| ParquetPlan.GatherMeaning | src/aws_tui/domain/_parquet_preview_worker.py:239-275 | the groups taken hold enough rows for the sample or all there are, and the chunks are those of the selected columns in them, within the file |
| ParquetPlan.GatherGroups | src/aws_tui/domain/_parquet_preview_worker.py:239-275 | the loop over row groups with its early stop and its errors |
| ParquetPlan.PlanFile | src/aws_tui/domain/_parquet_preview_worker.py:209-294 | the whole planner, with every refusal |
| ParquetPlanned.RefusedColumn | src/aws_tui/domain/_parquet_preview_worker.py:249-273 | a column is planned exactly if its codec is there, its pages, its end and its offset lie in the file and its sizes are in range; for a missing codec, a place outside the file or else a size it is refused as such |
| ParquetPlanned.SelectExactly | src/aws_tui/domain/_parquet_preview_worker.py:224-236 | a field is taken exactly if all of its columns have room after those taken before it |
| ParquetPlanned.PlannedExactly | src/aws_tui/domain/_parquet_preview_worker.py:209-294 | there is a plan exactly if the file is within the node limit, has no external part and the columns its schema says, and every group that is looked at can be used |
| ParquetPlanned.PlanError | src/aws_tui/domain/_parquet_preview_worker.py:209-275 | a file is otherwise refused at its opening, or for the first group and the first column in it that cannot be used |
| ParquetPlanned.PlanMeaning | src/aws_tui/domain/_parquet_preview_worker.py:224-294 | a plan shows exactly the fields taken and asks for exactly the groups with rows up to the one that completes the sample, or for none if and only if their chunks are too large uncompressed |
| ParquetPlanned.ChunkMeaning | src/aws_tui/domain/_parquet_preview_worker.py:258-274 | the i-th chunk of the k-th group is the whole of the i-th selected column there: it begins at the dictionary page if there is one and at the data page otherwise, and has the compressed length |
| ParquetAdmission.Expected | src/aws_tui/domain/_parquet_preview_worker.py:454-460 | the child's splitting loop |
| ParquetAdmission.SplitAllMeaning | src/aws_tui/domain/_parquet_preview_worker.py:559-563 | the pieces lie within their chunks and the range limit, cover every byte and add none |
| ParquetPlanned.SplitExactly | src/aws_tui/domain/_parquet_preview_worker.py:559-563 | a chunk is asked for from its first byte on in as few requests as the range limit allows |
| ParquetPlanned.RequestsInOrder | src/aws_tui/domain/_parquet_preview_worker.py:549-563 | the requests follow each other in the order of the chunks |
| ParquetAdmission.ReadChunks | src/aws_tui/domain/_parquet_preview_worker.py:549-563 | the parent's loop over chunks: the same splitting, or the refusal of the first bad chunk |
| ParquetAdmission.AdmitPlan | src/aws_tui/domain/_parquet_preview_worker.py:501-572 | a message is admitted, with its ranges, exactly if nothing about it is refused, and the refusal is the one reported |
| ParquetAdmission.AdmittedIsSafe | src/aws_tui/domain/_parquet_preview_worker.py:549-568 | whatever the child sent, admitted ranges start at 4 or later, end before the footer and fit the byte and request budgets |
| ParquetAdmission.AdmittedIsOrdered | src/aws_tui/domain/_parquet_preview_worker.py:501-572 | and its lists of columns and groups are strictly increasing and within the node limit, match in number, and its note is the only one allowed |
| PreviewBudgets.AdmittedIsAffordable | src/aws_tui/domain/_parquet_preview_worker.py:564-568 | reading what an admitted plan asks for, range by range, is never refused by the shared budget, and leaves room for the validation |
| PreviewBudgets.RoomForValidation | src/aws_tui/domain/preview_limits.py:57-69 | whatever has been charged or refused before, one validation can still be made |
| PreviewBudgets.ChargedExactly | src/aws_tui/domain/preview_limits.py:57-69 | a charge is entered exactly if its length is one its kind may have, the bytes stay within their limit and, unless it is the validation, one request is left after it |
| PreviewBudgets.PreviewBudget.ChargeRequest | src/aws_tui/domain/preview_limits.py:57-69 | a charge is entered whole, or refused and not entered at all |
| ParquetAdmission.PlansAreProper | src/aws_tui/domain/_parquet_preview_worker.py:209-294 | every plan has increasing indices and groups, columns times groups many chunks within the file, and bounded texts |
| ParquetAdmission.PlannerSoundness | src/aws_tui/domain/_parquet_preview_worker.py:501-572 | a correct child's plan is admitted exactly if it lists at most 24 columns, its groups are within the node limit and the budgets allow it |
| ParquetAdmission.CorrectChildIsAdmitted | src/aws_tui/domain/_parquet_preview_worker.py:209-294 | for schemas whose fields all have columns only the budgets are left to decide |
| ParquetAdmission.EmptyStructsRefused | src/aws_tui/domain/_parquet_preview_worker.py:229-236 | twenty-five empty structs are planned and then refused |
| ParquetSession.StepInv | src/aws_tui/domain/_parquet_preview_worker.py:450-476 | every step of either process, faults included, keeps the pipes holding just what lies between sends and receives |
| ParquetSession.ScriptAccepted | src/aws_tui/domain/_parquet_preview_worker.py:461-473 | every frame the parent sends passes the checks the child makes on it, the byte total included |
| ParquetSession.ChildNeverRefuses | src/aws_tui/domain/_parquet_preview_worker.py:461-473 | in every run the child refuses no frame; only losing the parent makes it give up |
| ParquetSession.ChildHoldsWhatItAsked | src/aws_tui/domain/_parquet_preview_worker.py:461-471 | whatever frames a parent sends, a child that takes them all holds data for exactly the ranges of its own plan, in order, within the byte limit |
| ParquetSession.SomeoneCanMove | src/aws_tui/domain/_parquet_preview_worker.py:687-720 | neither side waits forever |
| ParquetSession.RunInv | src/aws_tui/domain/_parquet_preview_worker.py:687-720 | every run keeps the invariant and is short |
| ParquetSession.SessionEnds | src/aws_tui/domain/_parquet_preview_worker.py:687-722 | a session at rest is over on both sides, and without outside faults both ended well with every frame delivered |
| ParquetPreview.OpeningAgrees | src/aws_tui/domain/_parquet_preview_worker.py:653-667 | a footer the parent accepts passes the child's opening checks |
| ParquetPreview.FooterFound | src/aws_tui/domain/_parquet_preview_worker.py:651-667 | of a body, a footer, its little-endian length and the magic the parent finds the footer where the body ends, exactly if the body has four bytes, the footer is within its limit and the file is not encrypted |
| ParquetPreview.FooterIsWhole | src/aws_tui/domain/_parquet_preview_worker.py:651-667 | and any file it finds a footer in is of that form |
| ParquetPreview.SessionAgreement | src/aws_tui/domain/_parquet_preview_worker.py:454-460 | the ranges the parent takes from the message are those the child takes from its plan |
| ParquetPreview.LinkFits | src/aws_tui/domain/_parquet_preview_worker.py:687-717 | so the parent's frames are what the child expects, for every admitted plan |
| ParquetPreview.SegmentsTruthful | src/aws_tui/domain/_parquet_preview_worker.py:452-474 | the child plants the leading magic unread, so its segments are the file's own bytes exactly if the file starts with it |
| ParquetPreview.StartsWithMagic | src/aws_tui/domain/preview.py:345-351 | it does: only such files are given to the preview, and encrypted ones are refused |
| ParquetPreview.PlannedIsCovered | src/aws_tui/domain/_parquet_preview_worker.py:452-474 | at the end the magic, the footer and every planned chunk are covered |
| ParquetPreview.SparseFileIsTrue | src/aws_tui/domain/_parquet_preview_worker.py:452-474 | so all that the child holds at the end of an admitted session is the file's own |
| ParquetDecode.ConvertIsHonest | src/aws_tui/domain/_parquet_preview_worker.py:297-355 | a value not marked as cut is what conversion without a budget gives, and the node counter never passes its limit |
| ParquetDecode.Meter.ArrowValue | src/aws_tui/domain/_parquet_preview_worker.py:297-355 | the conversion on the shared counters; it terminates by depth |
| ParquetFits.ConvertFits | src/aws_tui/domain/_parquet_preview_worker.py:297-355 | a value is converted whole if and only if its scalars, its levels, the characters before and in it and its buffers fit what the counters leave, all counted on the native value; and the counters then go on by just those |
| ParquetFits.FittingIsWhole | src/aws_tui/domain/_parquet_preview_worker.py:297-355 | so what fits is not cut, and is what conversion without a budget gives |
| ParquetFits.ItemsStop | src/aws_tui/domain/_parquet_preview_worker.py:319-334 | a list is left off only where a counter is spent |
| ParquetFits.FieldsStop | src/aws_tui/domain/_parquet_preview_worker.py:307-318 | and so is a struct; up to there every field has its label |
| ParquetFits.CutBinary | src/aws_tui/domain/_parquet_preview_worker.py:335-352 | bytes that are too many are shown by as many as can be, from the first on |
| ParquetLabels.UncutIsWhole | src/aws_tui/domain/_parquet_preview_worker.py:307-318 | a value not marked as cut holds every field of the native value under its whole name, if and only if in every struct the escaped names fit a cell and differ |
| ParquetLabels.UncutDetermines | src/aws_tui/domain/_parquet_preview_worker.py:297-355 | where they do, two native values converted to the same uncut value are alike |
| ParquetLabels.LabelsCollide | src/aws_tui/domain/_parquet_preview_worker.py:316 | a struct whose second field silently replaces its first |
| ParquetLabels.LongNameShortened | src/aws_tui/domain/_parquet_preview_worker.py:316 | a struct whose field name is shortened without a mark |
| ParquetRows.CellMeaning | src/aws_tui/domain/_parquet_preview_worker.py:370-373 | a cell is short and says so if it does not show its whole value |
| ParquetSample.CutCell | src/aws_tui/domain/_parquet_preview_worker.py:370-373 | a cell that does not show its whole value shows the beginning of it, as much as fits before the mark |
| ParquetRows.CellIsHarmless | src/aws_tui/domain/_parquet_preview_worker.py:370-373 | no control or direction character reaches a cell |
| ParquetRows.AppendBoundedCells | src/aws_tui/domain/_parquet_preview_worker.py:358-379 | the first rows of a batch are rendered, none for a negative remainder, and refused exactly if they pass the character limit |
| ParquetRows.SampleStep | src/aws_tui/domain/_parquet_preview_worker.py:408-414 | one batch more continues the sample with as many of its rows as are still wanted |
| ParquetRows.DecodeGroups | src/aws_tui/domain/_parquet_preview_worker.py:400-419 | whatever the batches and however they overshoot, the loops give the sample of all rows together, or the budget error exactly if that is too large |
| ParquetReport.Decode | src/aws_tui/domain/_parquet_preview_worker.py:382-424 | the decoding of an admitted plan: nothing without columns, a refusal if the native selection differs, else the sample within the budget that the headers and notes of the plan leave |
| ParquetReport.DecodeBudgets | src/aws_tui/domain/_parquet_preview_worker.py:382-424 | rows, characters with those of the headers and notes of the plan, cell lengths and nodes over the whole preview are within their limits |
| ParquetSample.SampleWhole | src/aws_tui/domain/_parquet_preview_worker.py:358-424 | where every cell fits and all scalars of the sample together do, the first rows and columns of the file are shown whole, however they are batched |
| ParquetResult.ReadReport | src/aws_tui/domain/_parquet_preview_worker.py:578-605 | the loops over the rows and cells of a report, with each failure in order |
| ParquetReport.ResultRows | src/aws_tui/domain/_parquet_preview_worker.py:575-605 | the parent's reading of a report, on top of the headers and notes it admitted |
| ParquetReport.ReportShownExactly | src/aws_tui/domain/_parquet_preview_worker.py:575-605 | a report is shown if and only if it is one, has no more rows than a sample, every cell of it can be read and its characters with those of headers and notes are within the total |
| ParquetReport.ReportMeaning | src/aws_tui/domain/_parquet_preview_worker.py:586-605 | and what is shown is the report, row by row and cell by cell |
| ParquetReport.TotalsAgree | src/aws_tui/domain/_parquet_preview_worker.py:398-399 | headers and notes arrive as the child sent them, so parent and child count the same characters for them |
| ParquetReport.HeadersCounted | src/aws_tui/domain/_parquet_preview_worker.py:398-399 | which are those of all names and types strung together |
| ParquetReport.EscapesExactly | src/aws_tui/domain/_parquet_preview_worker.py:575-605 | a report ends in an uncaught KeyError exactly if its first unreadable cell lacks nothing but its kind; any other is shown or falls back to the raw preview |
| ParquetReport.KindlessReport | src/aws_tui/domain/_parquet_preview_worker.py:590-600 | a report of one cell that does so |
| ParquetResult.ReportedIsBounded | src/aws_tui/domain/_parquet_preview_worker.py:575-605 | whatever a child reports, what is shown is within the limits |
| ParquetResult.ResultAccepted | src/aws_tui/domain/_parquet_preview_worker.py:575-605 | rows survive the report and are refused exactly if the character total is too large |
| ParquetReport.ChildIsBelieved | src/aws_tui/domain/_parquet_preview_worker.py:382-424 | what a correct child decodes within its budgets the parent shows, and its character total is the child's |
| OwnedProcess.Preview.AwaitOwned | src/aws_tui/domain/_parquet_preview_worker.py:629-642 | an owned task is waited for to its end, however often the caller is cancelled, and what was met meanwhile is reported |
| OwnedProcess.Preview.PreviewParquet | src/aws_tui/domain/_parquet_preview_worker.py:645-734 | a child process that was started is reaped on every exit, a cancelled start included, unless the reaping itself raises; a caller that was cancelled is told so unless the reaping raises, and any other gets just what the start, the conversation or the reaping gave |
| EmrRuns.NextInv | src/aws_tui/demo/in_memory_emr.py:486-495 | every start, walker step, cancellation and dropped walker keeps summary and detail alike, walkers where their runs are, the clock ahead of every update and tokens with runs of their own |
| EmrRuns.TraceIsLegal | src/aws_tui/demo/in_memory_emr.py:632-651 | under every schedule a started run goes through a prefix of SUBMITTED, SCHEDULED, RUNNING, SUCCESS, possibly cut off by a final CANCELLED |
| EmrRuns.RecordsAgree | src/aws_tui/demo/in_memory_emr.py:653-691 | summary and detail agree on state and time at all times, a duration is set exactly at the end, and a success took five seconds |
| EmrRuns.TokenOwnsOneRun | src/aws_tui/demo/in_memory_emr.py:560-565 | a token used again names the run it started, whatever the application, and no second run or walker comes of it |
| EmrRuns.RunIdInjective | src/aws_tui/demo/in_memory_emr.py:563-564 | two run numbers never give the same id |
| EmrAnswers.StartMeaning | src/aws_tui/demo/in_memory_emr.py:558-615 | a start is answered by the run its token already has, and else by a new submitted run with its own id, records and walker |
| EmrAnswers.CancelMeaning | src/aws_tui/demo/in_memory_emr.py:486-495 | a cancellation is refused exactly for a run that is not there, leaves ended runs alone and ends every other one second after its last update |
| EmrAnswers.WalkMeaning | src/aws_tui/demo/in_memory_emr.py:642-691 | a turn of a walker takes its run one state on, after one, one and three seconds, and drops itself at the end or when it finds the run cancelled |
| EmrAnswers.EndedForGood | src/aws_tui/demo/in_memory_emr.py:486-495 | under every schedule the records of a run that has ended never change |
| EmrAnswers.CancelledForGood | src/aws_tui/demo/in_memory_emr.py:486-495 | a run cancelled while under way reads CANCELLED in both records ever after |
| EmrAnswers.UndisturbedRunSucceeds | src/aws_tui/demo/in_memory_emr.py:632-651 | a run that nobody cancels and whose walker is not dropped is SUBMITTED, SCHEDULED, RUNNING and, from the third turn of its walker on, SUCCESS |
| EmrClient.InMemoryEmr.ObserveTimestamp | src/aws_tui/demo/in_memory_emr.py:101-103 | the clock never moves back and is at least the timestamp |
| EmrClient.InMemoryEmr.SetRunState | src/aws_tui/demo/in_memory_emr.py:653-691 | a state change on both records and the clock |
| EmrClient.InMemoryEmr.CancelJobRun | src/aws_tui/demo/in_memory_emr.py:486-495 | a cancellation, which leaves ended runs alone |
| EmrClient.InMemoryEmr.StartJobRun | src/aws_tui/demo/in_memory_emr.py:558-615 | a start, or the run already started for the token |
| EmrClient.InMemoryEmr.AdvanceState | src/aws_tui/demo/in_memory_emr.py:642-651 | one turn of a walker |
| Navigation.OwnerIsCurrent | src/aws_tui/service_navigation.py:123-143 | in every state an owner has the current generation |
| Navigation.SupersededForGood | src/aws_tui/service_navigation.py:123-143 | a superseded token never owns again |
| Navigation.MountIsFenced | src/aws_tui/service_navigation.py:198-272 | a mount enters each of its stages, puts its view on the host and returns True by the ordinary branch, only if ownership never changed and intake never closed since it began |
| NavigationEnds.UndisturbedMountSucceeds | src/aws_tui/service_navigation.py:198-272 | a mount that keeps its ownership and meets no failure reports success after at most five stretches |
| NavigationEnds.FailureIsReported | src/aws_tui/service_navigation.py:198-272 | once a stretch of a mount meets a failure, the mount never reports success |
| NavigationEnds.RetryFallsBack | src/aws_tui/service_navigation.py:222-238 | a retry that fails goes on to the local fallback, which decides |
| Navigation.CapturedThroughout | src/aws_tui/app.py:9358-9371 | the owner a view captures for its replacement is the one its mount began with |
| Navigation.RetryIsNotFenced | src/aws_tui/service_navigation.py:198-272 | at every moment of a mount, a success reported by its next stretch means it still owns, whatever happened to ownership, if and only if it is not in the retry branch |
| Navigation.RetryOutlivesOwner | src/aws_tui/service_navigation.py:222-238 | from any state, any other owner can take over during a retry that then reports success |
| Navigation.RetryIsReached | src/aws_tui/service_navigation.py:222-238 | in any open state a new mount can be retrying at its first step |
| Navigation.SettingGenerationRevives | src/aws_tui/service_navigation.py:95-97 | setting the generation back lets a superseded token own again |
| Navigation.DrainedMeansFinished | src/aws_tui/service_navigation.py:335-358 | when drain returns nothing is tracked and every task tracked before has finished |
| NavigationEnds.DrainEnds | src/aws_tui/service_navigation.py:335-358 | draining ends: once all tasks have finished and no new ones come, it wakes at most four times more |
| NavigationEnds.DrainCancels | src/aws_tui/service_navigation.py:335-345 | every navigation it waits for has finished or was cancelled |
| NavigationEnds.OnlyNavigationsCancelled | src/aws_tui/service_navigation.py:335-345 | and it cancels nothing but tracked navigations that have not finished |
| ServiceNavigations.ServiceNavigation.AdvanceTo | src/aws_tui/service_navigation.py:123-131 | a new owner in a new generation; exactly the other unfinished navigation tasks are cancelled, if asked |
| ServiceNavigations.ServiceNavigation.Supersede | src/aws_tui/service_navigation.py:133-134 | navigation from outside takes over in a new generation and cancels every other unfinished navigation task |
| ServiceNavigations.ServiceNavigation.ClaimTable | src/aws_tui/service_navigation.py:139-143 | the table takes over exactly within the current generation |
| ServiceNavigations.ServiceNavigation.CloseIntake | src/aws_tui/service_navigation.py:332-333 | intake closes, and nothing else changes |
| WorkspaceSources.ResolveSources | src/aws_tui/workspace_restore.py:315-335 | resolution succeeds exactly if every reference resolves to its own name and saved region, and gives the connections of just these; otherwise the first that does not decides the error |
| WorkspaceSources.FindSource | src/aws_tui/workspace_restore.py:338-346 | a target without a source has none; any other finds its source exactly if one connection alone matches |
| WorkspaceSources.ResolvedIsFound | src/aws_tui/workspace_restore.py:315-346 | whatever was resolved is found again by each of its references, uniquely |
| WorkspaceRestore.RetirementRetires | src/aws_tui/workspace_restore.py:349-369 | a retirement shuts down and disposes of each of its members and touches nobody else |
| WorkspaceRestore.Attempt.RetireCandidates | src/aws_tui/workspace_restore.py:349-387 | both calls are made on every member, in order, whatever raises and however often the caller is cancelled; it raises exactly if a call did or a cancellation came, and then that cancellation |
| WorkspaceRestore.Attempt.NextTurn | src/aws_tui/workspace_restore.py:472-506 | at the head of the loop the next candidate is built and owned, or the active one is handed over, or the handler takes over; what is built is owned whole or accounted for |
| WorkspaceRestore.Attempt.Dropped | src/aws_tui/workspace_restore.py:488-489 | a candidate whose retirement is over is given up, unless the retirement raised or a cancellation came |
| WorkspaceRestore.Attempt.ChildTurn | src/aws_tui/workspace_restore.py:472-510 | each step of the child task keeps its candidates owned or retired and brings its end nearer, wherever a cancellation reaches it |
| WorkspaceRestore.HandedOver | src/aws_tui/workspace_restore.py:539-541 | all is settled exactly if the candidate handed over is the only one still owned |
| WorkspaceRestore.RetireAll | src/aws_tui/workspace_restore.py:507-510 | after a failure everything built is retired |
| WorkspaceRestore.LostIsRetired | src/aws_tui/workspace_restore.py:429-432 | retiring a candidate the caller never received settles what was settled but for it |
| WorkspaceRestore.Attempt.DrainChild | src/aws_tui/workspace_restore.py:424-428 | waiting for the child ends only with the child, however often the caller is cancelled meanwhile; by then a child that failed has retired everything, and one that succeeded all but the candidate it returns |
| WorkspaceRestore.Attempt.PrepareWorkspace | src/aws_tui/workspace_restore.py:414-433 | on every exit, however often the caller was cancelled, the child is done, at most one cancellation was sent and it was delivered, and every candidate is either the one handed over, untouched, or retired; the one handed over is the active one and all were built; and for an accepted workspace one is handed over whenever nothing raises and no cancellation comes |
| WorkspaceRestore.ActiveIsUnique | src/aws_tui/domain/navigation_workspace.py:186-194 | the checks made when a workspace is constructed leave exactly one candidate to keep |
| Adoption.StagedRecovery.ProtectedAdopt | src/aws_tui/app.py:5723-5736 | at most one cancellation is passed on, and none after the claim; a caller that was cancelled before the claim does pass one on, and hears of its cancellation unless the adoption raised |
| Adoption.StagedRecovery.FinishPublication | src/aws_tui/app.py:5678-5708 | the selection is committed once and the view shown whatever the caller gets, unless the commit raises; the caller hears of that, or else of a cancellation exactly if there was one |
| Adoption.StagedRecovery.ClaimOutgoingInput | src/aws_tui/app.py:5600-5636 | a claim succeeds exactly if both checks of ownership and the Athena editor allow it, remembers what it will put back, and closes an outgoing Athena page exactly then |
| Adoption.StagedRecovery.CommitStagedRecovery | src/aws_tui/app.py:5678-5762 | on every exit the claim is released and the input area is as it was unless claimed twice; the view is shown and committed once if the candidate was hosted when the adoption ended or was said to be adopted, and otherwise nothing is committed and it is removed as far as removing it succeeds; the answer is True exactly if the adoption did not raise, the candidate was adopted or hosted, the commit did not raise and no cancellation came |

## Left out

- ParquetDecode.Convert: the text of nested values (JSON dumping in `normalize_cell`) is a parameter; what is proved is that it is shown whole, escaped and cut honestly.
- ParquetSession.Accepts: the base64 text of a segment is not modelled, only the length of the bytes it stands for.
- ParquetFrames.Frame: the JSON text inside a frame is opaque, so that a result or plan whose escaped text passes 2 MiB makes the child report an error is not modelled; the parent then shows the raw preview.
- ParquetSession.After: pipes hold whole frames; partial frames, the deadline and the end of the child process are one fault that may strike at any moment.
- OwnedProcess.Preview.PreviewParquet: how the process is made to end (terminate, then kill) is one task that returns or raises.
- SparseFiles.SparseFile: the sorting of segments is not modelled, because a read gives the same bytes in any order.
- InMemoryFsStore.InMemoryFS: modification times, listing order, the listing limit, latency and progress callbacks are not modelled.  Entries are assumed to have revisions, as every operation gives them; seeds that plant entries directly are outside.
- InMemoryFs.SequentialWriteWithinBudget: the total limit is stated for writes that nothing interrupts; overlapping writes each count the store once, at their check.
- JsonText.ScanChar: the reader does not combine `\u` surrogate pairs, which the encoder never writes.
- AthenaQueries.Start: the checks before the token (access, arguments, SQL policy, fixture) are one boolean; seeding executions during a run is outside.
- EmrRuns.Next: seeding runs during a schedule is outside; a schedule may start from any seeded state.
- Navigation.Resume: what a view does beyond `_replace_content_widget`, hints and error surfaces are not modelled.
- WorkspaceRestore.Attempt.ChildTurn: the checks before any candidate is built are one boolean beside the service names; what a candidate awaits while it resolves is one await that may swallow a cancellation; the commit closure of the prepared workspace is not modelled.
- ParquetLabels.UncutIsWhole: two fields of one and the same name are read by position; the native reader decides what looking such a name up gives.
- Adoption.StagedRecovery.AdoptAndPublish: the adoption itself is any step that claims, hosts, returns or raises; who owns adoption at each check is open.
- BoundedCallLog, Glue paging, launch parsing, themes, widgets, documentation and release scripts are not modelled: no engine above depends on them.
- Boto, sockets, subprocesses and disk are foreign calls.
