# Plain-text and markdown importer, modelled in Dafny

This project models the batch importer for `.txt` and `.md` files
(`lib/utils/import/text-files/index.ts`) and proves properties of it.
`importNotes(filesArray)` takes a batch of files. It answers a missing array
with one `error` status. Otherwise it fixes the completion sentinel, which is
the name of the array's last element by position, and starts a read for every
file whose lower-cased name ends in `.txt` or `.md` and whose size is at most
1,000,000 bytes. Each read's `onload` continuation then does four things:

- It derives the title from the file name: everything before the last dot.
- It prepends the title and a blank line unless the content already starts with the title.
- It drops the file if the result is empty.
- Otherwise it hands the note to the note sink, counts it, and emits
  `complete` (plus one analytics call) if the file's name is the sentinel, or
  `progress` if it is not.

The model has three modules:

- `TextFiles` (`text_files.dfy`) holds the pure parts as functions:
  - the eligibility filter (`HasAllowableName`, `IsEligible`, `Dispatched`);
  - the title derivation (`Title`, on a model of `lastIndexOf`);
  - the normaliser (`Normalize`);
  - the note draft (`Draft`).
- `TextFileImport` (`text_file_import.dfy`) holds the stateful part. It has
  two layers:
  - An `ImporterState` value. Its two transitions are specified by
    `StartBatch` (the body of `importNotes`) and `ResolveRead` (one `onload`
    continuation). `Run` applies the read resolutions in any order they arrive.
  - The class `TextFileImporter`. Its fields are the batch's closure
    variables plus three append-only logs: statuses, notes and analytics
    calls. The methods `ImportNotes`, `ImportTextFile` and `Resolve` keep the
    original loop and its early returns. They are proved to perform exactly
    the transitions `StartBatch` and `ResolveRead`.

  Every `onload` runs as one uninterrupted step. So the concurrency of the
  reads is modelled as every order in which the outstanding reads can
  resolve. The properties about `Run` hold for all of those orders.
- `ImportScenarios` (`import_scenarios.dfy`) holds concrete batches. They show
  the consequences of keying completion on the sentinel's name:
  - `complete` can fire before other reads have resolved;
  - it fires twice when two files share the sentinel's name;
  - it never fires when the sentinel file yields no note.

  These behaviours are modelled as the code has them; the model does not
  correct them.

## Model

| member | source | states |
|---|---|---|
| TextFiles.LowerAt | lib/utils/import/text-files/index.ts:31 | `toLowerCase` on the name maps each character on its own and keeps the length (ASCII letters only) |
| TextFiles.LastIndexOf | lib/utils/import/text-files/index.ts:47 | `lastIndexOf('.')` is -1 or an index holding the character, and no later index holds it |
| TextFiles.Dispatched | lib/utils/import/text-files/index.ts:29-40 | the files a batch dispatches for reading, in batch order; never more than the batch holds |
| TextFiles.DispatchedMembers | lib/utils/import/text-files/index.ts:30-40 | a file is dispatched if and only if it is in the batch, its lower-cased name ends in `.txt` or `.md`, and its size is at most 1,000,000 |
| TextFiles.DispatchedSnoc | lib/utils/import/text-files/index.ts:83-89 | the step lemma for the loop invariant of `ImportNotes`: extending the batch prefix by one file appends that file to the dispatched reads exactly when it is eligible |
| TextFiles.DispatchedAllEligible | lib/utils/import/text-files/index.ts:30-40 | a batch of eligible files is dispatched whole and in order |
| TextFiles.DispatchedIdempotent | lib/utils/import/text-files/index.ts:30-40 | filtering the dispatched files again changes nothing |
| TextFiles.Title | lib/utils/import/text-files/index.ts:47 | the title is empty for a name without a dot; otherwise it is the prefix of the name before a dot, and no dot follows that dot |
| TextFiles.TitleBeforeSuffix | lib/utils/import/text-files/index.ts:30-47 | when the lower-cased name ends in a dot-led, dot-free extension, the title is the name without that extension |
| TextFiles.AllowableNameSplits | lib/utils/import/text-files/index.ts:30-47 | an allowable name is its title, a dot, and an extension that lower-cases to `txt` or `md` |
| TextFiles.TitleOfJoinedName | lib/utils/import/text-files/index.ts:30-47 | round trip: `title + "." + ext` with a `txt`/`md` extension in any case passes the filter and has title `title` |
| TextFiles.Normalize | lib/utils/import/text-files/index.ts:48-51 | the result always starts with the title; it is the raw content exactly when that starts with the title, and `title + "\n\n" + content` otherwise |
| TextFiles.NormalizeIdempotent | lib/utils/import/text-files/index.ts:48-51 | normalising an already normalised content changes nothing |
| TextFiles.NormalizeEmptyIff | lib/utils/import/text-files/index.ts:48-56 | the normalised content is empty if and only if both the title and the raw content are empty |
| TextFiles.Draft | lib/utils/import/text-files/index.ts:44-66 | no draft exactly when the title and the content are both empty; otherwise the draft holds the normalised content, and its creation and modification dates are equal, both the instant `lastModified / 1000` |
| TextFiles.EmptyDraftOnlyForBareExtension | lib/utils/import/text-files/index.ts:30-56 | an eligible file is skipped only if its whole name is `.txt`/`.md` in some case and the read delivered the empty string |
| TextFileImport.CompletionAnalytics | lib/utils/import/text-files/index.ts:69-74 | the analytics calls that go with a list of statuses; none exactly when there is no `complete` among them |
| TextFileImport.CompletionAnalyticsAppend | lib/utils/import/text-files/index.ts:69-74 | the analytics calls of two runs of statuses are those of the first followed by those of the second |
| TextFileImport.StartBatch | lib/utils/import/text-files/index.ts:19-89 | a missing array only appends the `error` status `No files to import.`; a present one leaves every log alone, resets the count to 0, fixes the sentinel as the last element's name (`""` for an empty array), and dispatches exactly the eligible files; well-formedness is kept |
| TextFileImport.ResolveRead | lib/utils/import/text-files/index.ts:43-78 | one `onload` step: the read is no longer outstanding, the sentinel and the dispatched files are unchanged, and well-formedness is kept |
| TextFileImport.ResolveReadSkipsEmpty | lib/utils/import/text-files/index.ts:53-56 | a read that yields no draft changes no count, log or event |
| TextFileImport.ResolveReadSignals | lib/utils/import/text-files/index.ts:58-77 | a read that yields a draft passes that draft with the caller's options to the note sink, adds 1 to the count, and emits one status with the new count; it is `complete` if and only if the file's name is the sentinel, and then exactly one analytics call with that count follows |
| TextFileImport.Run | lib/utils/import/text-files/index.ts:43-78 | reads resolving in any order keep well-formedness and the sentinel, and only ever remove outstanding reads |
| TextFileImport.ResolveReadExtends | lib/utils/import/text-files/index.ts:68-77 | one resolution extends the logs as the counting invariant says |
| TextFileImport.RunCountsEachImport | lib/utils/import/text-files/index.ts:68-77 | in any order of resolution, the logs only grow. The new statuses are `progress`/`complete` with counts rising by exactly 1 from the starting count. There are as many new statuses as new notes and as the count's increase. The new analytics calls are exactly one per new `complete`, carrying its count |
| TextFileImport.CompletionsAtMostSentinelReads | lib/utils/import/text-files/index.ts:69-74 | the analytics calls a run adds, plus the sentinel-named reads still outstanding after it, are at most the sentinel-named reads outstanding before it |
| TextFileImport.NeverCompletesWithoutSentinelRead | lib/utils/import/text-files/index.ts:69-77 | if no outstanding read carries the sentinel's name, no `complete` and no analytics call ever follow |
| TextFileImport.CompletesOncePerSentinelImport | lib/utils/import/text-files/index.ts:53-77 | in any order of resolution, the `complete` statuses a run adds, and the analytics calls it adds, number exactly the reads that import a note from a file carrying the sentinel's name: none when the sentinel's read yields no note, one per file when several files share that name |
| TextFileImport.EmptySentinelReadsNeverComplete | lib/utils/import/text-files/index.ts:53-77 | if every read of a sentinel-named file yields no note, the run adds no `complete` and no analytics call, even while such a read is outstanding at the start |
| TextFileImport.MissingInputEmitsOnlyError | lib/utils/import/text-files/index.ts:24-27 | a fresh importer given no array emits only the `error` status, creates no note and makes no analytics call, and no read can follow |
| TextFileImport.EmptyInputEmitsNothing | lib/utils/import/text-files/index.ts:19-89 | an empty array leaves a fresh importer as it was, and no read can follow |
| TextFileImport.BatchCountsFromOne | lib/utils/import/text-files/index.ts:21-89 | after any batch, in any order of resolution, its statuses are numbered 1, 2, ..., n, where n is the final count and the number of notes it created, and n never exceeds the number of eligible files |
| TextFileImport.IneligibleSentinelNeverCompletes | lib/utils/import/text-files/index.ts:30-86 | when the last file fails the extension test, the batch never emits `complete` or an analytics call |
| TextFileImport.TextFileImporter.constructor | lib/utils/import/text-files/index.ts:8-17 | a new importer keeps the caller's options and has empty logs and no batch |
| TextFileImport.TextFileImporter.ImportNotes | lib/utils/import/text-files/index.ts:19-89 | the guard and the sentinel loop leave the importer in exactly the state `StartBatch` describes |
| TextFileImport.TextFileImporter.ImportTextFile | lib/utils/import/text-files/index.ts:29-80 | an eligible file is appended to the dispatched reads and becomes outstanding; any other file changes nothing; the count, the sentinel and every log stay unchanged |
| TextFileImport.TextFileImporter.Resolve | lib/utils/import/text-files/index.ts:43-78 | the `onload` body leaves the importer in exactly the state `ResolveRead` describes |
| ImportScenarios.ReplayInOrder | lib/utils/import/text-files/index.ts:68-77 | two titled files where only the last carries the sentinel's name, read in order: `progress` 1, then `complete` 2, with one analytics call carrying 2 |
| ImportScenarios.ReplaySentinelFirst | lib/utils/import/text-files/index.ts:69-77 | the same files with the sentinel's read resolving first: `complete` 1, then `progress` 2 |
| ImportScenarios.ReplayBothSentinels | lib/utils/import/text-files/index.ts:69-86 | two titled files both carrying the sentinel's name: `complete` 1 and `complete` 2, and two analytics calls |
| ImportScenarios.ReplayEmptySentinel | lib/utils/import/text-files/index.ts:53-77 | the sentinel file is untitled and its read is empty: `progress` 1 only, and no analytics call |
| ImportScenarios.InOrderBatchCompletesOnce | lib/utils/import/text-files/index.ts:68-77 | `a.txt`, `b.txt` read in order emit `progress` 1 and `complete` 2, with one `importer_import_completed` call for source `plaintext` and note count 2 |
| ImportScenarios.SentinelFirstCompletesEarly | lib/utils/import/text-files/index.ts:69-77 | when `b.txt` is read first, `complete` 1 fires while `a.txt` is still outstanding, then `progress` 2 |
| ImportScenarios.DuplicateSentinelNameCompletesTwice | lib/utils/import/text-files/index.ts:69-86 | two files named `a.txt` make `complete` and its analytics call fire twice |
| ImportScenarios.EmptySentinelNeverCompletes | lib/utils/import/text-files/index.ts:47-77 | with `notes.txt` and `.txt`, an empty read of `.txt` means `complete` never fires |
| ImportScenarios.IneligibleOnlyFileEmitsNothing | lib/utils/import/text-files/index.ts:30-35 | a batch holding only `report.pdf` dispatches nothing and emits nothing |
| ImportScenarios.PreTitledContentUnchanged | lib/utils/import/text-files/index.ts:47-51 | content that already starts with its title `MyTitle` is imported unchanged, with equal dates |

## Left out

- Reading files: `FileReader` and `readAsText` (lines 42, 80) are browser I/O. A read is a `Read(index, content)` step that delivers the text of one dispatched file. Reads may resolve in any order.
- Failed reads: a read that fails, or never completes, simply never produces a step. The model does not model read errors.
- The status emitter: the `EventEmitter` machinery and delivery to subscribers are not modelled. Emitted statuses are an append-only log.
- The note sink: `CoreImporter` (`lib/utils/import/index`) is not part of this model. `importNote` is modelled as appending the draft and the options to a note log. Its internals and its failures are not modelled.
- The analytics sink: `recordEvent` is modelled as appending to an analytics log.
- The regex engine and lodash `startsWith`: these are replaced by suffix and prefix predicates on strings.
- TextFiles.Lower: `toLowerCase` is modelled for ASCII letters only. Unicode case mapping is not modelled. The `.txt`/`.md` suffix test only depends on ASCII letters.
- TextFiles.ModifiedTime: `lastModified / 1000` is JavaScript floating-point division without rounding. It is kept as a symbolic instant. The model proves only that both dates are that same instant. It claims no floor and no integer result, because the code performs neither.
- Null entries inside `filesArray` (the `file?.name` on line 31) are not modelled. A file always has a name.
- Several batches in flight on one importer: each `importNotes` call has its own closure variables. The model keeps one batch: a new batch replaces the outstanding reads and the counter of the previous one.
- The set of outstanding reads (`pending`) is bookkeeping of the model. It says which `onload` steps can still happen. The source has no such variable.
