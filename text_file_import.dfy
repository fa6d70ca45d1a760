/*
 * The batch importer of lib/utils/import/text-files/index.ts: `importNotes`
 * dispatches a read for every eligible file and fixes the completion
 * sentinel; every `onload` continuation runs as one uninterrupted step that
 * normalises the content, hands the note to the note sink, counts it and
 * emits a `progress` or `complete` status.
 *
 * The status emitter, the note sink and the analytics sink are append-only
 * logs. `ImporterState` is the value of an importer, `StartBatch` and
 * `ResolveRead` are its two transitions, and `Run` applies the read
 * resolutions of a batch in whatever order they arrive. The class
 * `TextFileImporter` holds the same state in mutable fields and its methods
 * are proved to perform exactly these transitions.
 */
module TextFileImport {
  import opened TextFiles

  const NoFilesMessage: string := "No files to import."
  const CompletedEventName: string := "importer_import_completed"
  const AnalyticsSource: string := "plaintext"

  /** The three kinds of `status` event. */
  datatype Status = Error(message: string) | Progress(count: nat) | Complete(count: nat)

  /** A call of the analytics sink: event name, `source` and `note_count`. */
  datatype AnalyticsEvent = AnalyticsEvent(name: string, source: string, noteCount: nat)

  /** A call of the note sink: the draft and the caller's options. */
  datatype ImportedNote<O> = ImportedNote(draft: NoteDraft, options: O)

  /** A read of a dispatched file, delivering its text. */
  datatype Read = Read(index: nat, content: string)

  /**
   * An importer: its options, the three logs, and the state of the batch in
   * flight (`importedNoteCount`, the sentinel `lastFileName`, the files
   * dispatched for reading, and the indices of those reads not resolved yet).
   */
  datatype ImporterState<O> = ImporterState(
    options: O,
    statuses: seq<Status>,
    analytics: seq<AnalyticsEvent>,
    notes: seq<ImportedNote<O>>,
    importedNoteCount: nat,
    lastFileName: string,
    dispatched: seq<FileCandidate>,
    pending: set<nat>)

  function Completed(count: nat): AnalyticsEvent {
    AnalyticsEvent(CompletedEventName, AnalyticsSource, count)
  }

  /** The analytics calls that go with the `complete` events of `events`, in order. */
  function CompletionAnalytics(events: seq<Status>): (r: seq<AnalyticsEvent>)
    ensures |r| <= |events|
    ensures r == [] <==> forall k :: 0 <= k < |events| ==> !events[k].Complete?
  {
    if events == [] then []
    else (if events[0].Complete? then [Completed(events[0].count)] else []) + CompletionAnalytics(events[1..])
  }

  lemma {:induction false} CompletionAnalyticsAppend(a: seq<Status>, b: seq<Status>)
    ensures CompletionAnalytics(a + b) == CompletionAnalytics(a) + CompletionAnalytics(b)
  {
    if a != [] {
      assert (a + b)[1..] == a[1..] + b;
      CompletionAnalyticsAppend(a[1..], b);
    } else {
      assert a + b == b;
    }
  }

  /** Status events carrying the counts `from + 1`, `from + 2`, ... in order. */
  predicate Numbered(events: seq<Status>, from: nat) {
    forall k :: 0 <= k < |events| ==> !events[k].Error? && events[k].count == from + k + 1
  }

  /** The indices `0 .. n - 1`. */
  function Indices(n: nat): (r: set<nat>)
    ensures forall k: nat :: k in r <==> k < n
    ensures |r| == n
  {
    if n == 0 then {} else Indices(n - 1) + {n - 1}
  }

  lemma IndicesSnoc(n: nat)
    ensures Indices(n + 1) == Indices(n) + {n}
  {
  }

  /**
   * Every outstanding read is a dispatched one, and each resolved read has
   * counted at most one note.
   */
  predicate WellFormed<O>(s: ImporterState<O>) {
    && (forall k :: k in s.pending ==> k < |s.dispatched|)
    && s.importedNoteCount + |s.pending| <= |s.dispatched|
  }

  function Initial<O>(options: O): (s: ImporterState<O>)
    ensures WellFormed(s)
  {
    ImporterState(options, [], [], [], 0, "", [], {})
  }

  /**
   * `importNotes(filesArray)`: a missing array only emits the error status;
   * a present one starts a new batch whose sentinel is the name of its last
   * element and whose dispatched reads are its eligible files.
   */
  function StartBatch<O>(s: ImporterState<O>, filesArray: Option<seq<FileCandidate>>): (r: ImporterState<O>)
    requires WellFormed(s)
    ensures WellFormed(r)
    ensures r.options == s.options && r.notes == s.notes && r.analytics == s.analytics
    ensures filesArray.None? ==> r == s.(statuses := s.statuses + [Error(NoFilesMessage)])
    ensures filesArray.Some? ==>
      && r.statuses == s.statuses
      && r.importedNoteCount == 0
      && r.dispatched == Dispatched(filesArray.value)
      && r.pending == Indices(|r.dispatched|)
      && (filesArray.value == [] ==> r.lastFileName == "")
      && (filesArray.value != [] ==> r.lastFileName == filesArray.value[|filesArray.value| - 1].name)
  {
    match filesArray
    case None => s.(statuses := s.statuses + [Error(NoFilesMessage)])
    case Some(files) =>
      var dispatched := Dispatched(files);
      s.(importedNoteCount := 0, lastFileName := LastFileName(files), dispatched := dispatched, pending := Indices(|dispatched|))
  }

  /**
   * The `onload` continuation of read `i`: a note is created unless the
   * normalised content is empty, and then the count goes up and either
   * `complete` (with the analytics call) or `progress` is emitted.
   */
  function ResolveRead<O>(s: ImporterState<O>, i: nat, content: string): (r: ImporterState<O>)
    requires WellFormed(s) && i in s.pending
    ensures WellFormed(r)
    ensures r.options == s.options && r.dispatched == s.dispatched && r.lastFileName == s.lastFileName
    ensures r.pending == s.pending - {i}
  {
    var file := s.dispatched[i];
    var rest := s.(pending := s.pending - {i});
    match Draft(file, content)
    case None => rest
    case Some(draft) =>
      var count := s.importedNoteCount + 1;
      var notes := s.notes + [ImportedNote(draft, s.options)];
      if file.name == s.lastFileName then
        rest.(importedNoteCount := count, notes := notes,
              statuses := s.statuses + [Complete(count)], analytics := s.analytics + [Completed(count)])
      else
        rest.(importedNoteCount := count, notes := notes, statuses := s.statuses + [Progress(count)])
  }

  /** A read whose content normalises to nothing creates no note, counts nothing and emits nothing. */
  lemma ResolveReadSkipsEmpty<O>(s: ImporterState<O>, i: nat, content: string)
    requires WellFormed(s) && i in s.pending
    requires Draft(s.dispatched[i], content).None?
    ensures ResolveRead(s, i, content) == s.(pending := s.pending - {i})
  {
  }

  /**
   * A read that yields a draft hands exactly that draft with the caller's
   * options to the note sink, adds one to the count and emits exactly one
   * status carrying the new count: `complete` exactly when the file's name is
   * the sentinel, and then also one analytics call with the same count.
   */
  lemma ResolveReadSignals<O>(s: ImporterState<O>, i: nat, content: string)
    requires WellFormed(s) && i in s.pending
    requires Draft(s.dispatched[i], content).Some?
    ensures var r := ResolveRead(s, i, content);
      && r.importedNoteCount == s.importedNoteCount + 1
      && r.notes == s.notes + [ImportedNote(Draft(s.dispatched[i], content).value, s.options)]
      && |r.statuses| == |s.statuses| + 1 && s.statuses <= r.statuses
      && !r.statuses[|s.statuses|].Error?
      && r.statuses[|s.statuses|].count == r.importedNoteCount
      && (r.statuses[|s.statuses|].Complete? <==> s.dispatched[i].name == s.lastFileName)
      && r.analytics == s.analytics + CompletionAnalytics([r.statuses[|s.statuses|]])
  {
  }

  /** The read resolutions `steps` can happen in this order: each names a read still outstanding. */
  predicate Schedule<O>(s: ImporterState<O>, steps: seq<Read>)
    decreases |steps|
  {
    steps == [] ||
    (&& WellFormed(s)
     && steps[0].index in s.pending
     && Schedule(ResolveRead(s, steps[0].index, steps[0].content), steps[1..]))
  }

  /** The state after the reads `steps` have resolved, in that order. */
  function Run<O>(s: ImporterState<O>, steps: seq<Read>): (t: ImporterState<O>)
    requires Schedule(s, steps)
    ensures WellFormed(s) ==> WellFormed(t)
    ensures t.options == s.options && t.dispatched == s.dispatched && t.lastFileName == s.lastFileName
    ensures t.pending <= s.pending
    decreases |steps|
  {
    if steps == [] then s
    else Run(ResolveRead(s, steps[0].index, steps[0].content), steps[1..])
  }

  /**
   * `t` follows `s` by some imports: the logs only grew; every new status is
   * a `progress` or `complete` and their counts go up by exactly one from the
   * count of `s`; there are as many new statuses as new notes, and as many as
   * the count went up; and the analytics calls added are exactly one per new
   * `complete`, carrying its count.
   */
  ghost predicate LogsExtend<O>(s: ImporterState<O>, t: ImporterState<O>) {
    && s.importedNoteCount <= t.importedNoteCount
    && s.statuses <= t.statuses && s.notes <= t.notes
    && |t.statuses| - |s.statuses| == |t.notes| - |s.notes| == t.importedNoteCount - s.importedNoteCount
    && Numbered(t.statuses[|s.statuses|..], s.importedNoteCount)
    && t.analytics == s.analytics + CompletionAnalytics(t.statuses[|s.statuses|..])
  }

  lemma NumberedAppend(a: seq<Status>, b: seq<Status>, from: nat)
    requires Numbered(a, from) && Numbered(b, from + |a|)
    ensures Numbered(a + b, from)
  {
    forall k | 0 <= k < |a + b|
      ensures !(a + b)[k].Error? && (a + b)[k].count == from + k + 1
    {
      if k >= |a| {
        assert (a + b)[k] == b[k - |a|];
      }
    }
  }

  lemma SplitNewStatuses(s: seq<Status>, m: seq<Status>, t: seq<Status>)
    requires s <= m <= t
    ensures t[|s|..] == m[|s|..] + t[|m|..]
  {
  }

  lemma LogsExtendTransitive<O>(s: ImporterState<O>, m: ImporterState<O>, t: ImporterState<O>)
    requires LogsExtend(s, m) && LogsExtend(m, t)
    ensures LogsExtend(s, t)
  {
    var e := m.statuses[|s.statuses|..];
    var rest := t.statuses[|m.statuses|..];
    SplitNewStatuses(s.statuses, m.statuses, t.statuses);
    assert Numbered(t.statuses[|s.statuses|..], s.importedNoteCount) by {
      NumberedAppend(e, rest, s.importedNoteCount);
    }
    assert t.analytics == s.analytics + CompletionAnalytics(t.statuses[|s.statuses|..]) by {
      CompletionAnalyticsAppend(e, rest);
    }
    assert s.statuses <= t.statuses && s.notes <= t.notes;
  }

  /** One resolution extends the logs as `LogsExtend` says. */
  lemma ResolveReadExtends<O>(s: ImporterState<O>, i: nat, content: string)
    requires WellFormed(s) && i in s.pending
    ensures LogsExtend(s, ResolveRead(s, i, content))
  {
    var m := ResolveRead(s, i, content);
    if Draft(s.dispatched[i], content).None? {
      assert m.statuses[|s.statuses|..] == [];
    } else {
      ResolveReadSignals(s, i, content);
      assert m.statuses[|s.statuses|..] == [m.statuses[|s.statuses|]];
    }
  }

  /** Whatever the order in which the reads resolve, the logs extend as `LogsExtend` says. */
  lemma {:induction false} RunCountsEachImport<O>(s: ImporterState<O>, steps: seq<Read>)
    requires Schedule(s, steps)
    ensures LogsExtend(s, Run(s, steps))
    decreases |steps|
  {
    if steps == [] {
      assert s.statuses[|s.statuses|..] == [];
    } else {
      var m := ResolveRead(s, steps[0].index, steps[0].content);
      ResolveReadExtends(s, steps[0].index, steps[0].content);
      RunCountsEachImport(m, steps[1..]);
      LogsExtendTransitive(s, m, Run(s, steps));
    }
  }

  /** The outstanding reads whose file carries the sentinel's name. */
  function SentinelReads<O>(s: ImporterState<O>): set<nat>
    requires WellFormed(s)
  {
    set k | k in s.pending && s.dispatched[k].name == s.lastFileName
  }

  /**
   * `complete` is keyed on the name: the completions of a run, plus the
   * sentinel-named reads still outstanding after it, are at most the
   * sentinel-named reads outstanding before it.
   */
  lemma {:induction false} CompletionsAtMostSentinelReads<O>(s: ImporterState<O>, steps: seq<Read>)
    requires WellFormed(s) && Schedule(s, steps)
    ensures |Run(s, steps).analytics| - |s.analytics| + |SentinelReads(Run(s, steps))| <= |SentinelReads(s)|
    decreases |steps|
  {
    if steps != [] {
      var i, content := steps[0].index, steps[0].content;
      var m := ResolveRead(s, i, content);
      CompletionsAtMostSentinelReads(m, steps[1..]);
      if i in SentinelReads(s) {
        assert SentinelReads(m) == SentinelReads(s) - {i};
      } else {
        assert SentinelReads(m) == SentinelReads(s);
        assert m.analytics == s.analytics;
      }
    }
  }

  /** No outstanding read carries the sentinel's name: no `complete` and no analytics call ever follows. */
  lemma NeverCompletesWithoutSentinelRead<O>(s: ImporterState<O>, steps: seq<Read>)
    requires WellFormed(s) && Schedule(s, steps)
    requires forall k :: k in s.pending ==> s.dispatched[k].name != s.lastFileName
    ensures Run(s, steps).analytics == s.analytics
    ensures forall k :: |s.statuses| <= k < |Run(s, steps).statuses| ==> !Run(s, steps).statuses[k].Complete?
  {
    assert SentinelReads(s) == {};
    CompletionsAtMostSentinelReads(s, steps);
    RunCountsEachImport(s, steps);
    var t := Run(s, steps);
    var events := t.statuses[|s.statuses|..];
    assert CompletionAnalytics(events) == [];
    forall k | |s.statuses| <= k < |t.statuses| ensures !t.statuses[k].Complete? {
      assert t.statuses[k] == events[k - |s.statuses|];
    }
  }

  /**
   * The reads among `steps` that import a note from a file carrying the
   * sentinel's name: those are the reads whose `onload` emits `complete`.
   */
  function SentinelImports<O>(s: ImporterState<O>, steps: seq<Read>): (r: nat)
    requires Schedule(s, steps)
    ensures r <= |steps|
    decreases |steps|
  {
    if steps == [] then 0
    else
      var file := s.dispatched[steps[0].index];
      (if file.name == s.lastFileName && Draft(file, steps[0].content).Some? then 1 else 0)
      + SentinelImports(ResolveRead(s, steps[0].index, steps[0].content), steps[1..])
  }

  /**
   * In any order of resolution, `complete` and its analytics call fire exactly
   * once for every read that imports a note from a sentinel-named file: never
   * when the sentinel's read yields no note, and once per file when several
   * files share the sentinel's name.
   */
  lemma {:induction false} CompletesOncePerSentinelImport<O>(s: ImporterState<O>, steps: seq<Read>)
    requires Schedule(s, steps)
    ensures |Run(s, steps).analytics| == |s.analytics| + SentinelImports(s, steps)
    ensures s.statuses <= Run(s, steps).statuses
    ensures |CompletionAnalytics(Run(s, steps).statuses[|s.statuses|..])| == SentinelImports(s, steps)
    decreases |steps|
  {
    RunCountsEachImport(s, steps);
    if steps != [] {
      CompletesOncePerSentinelImport(ResolveRead(s, steps[0].index, steps[0].content), steps[1..]);
    }
  }

  /** Every read among `steps` of a file carrying the sentinel's name yields no note. */
  predicate SentinelReadsYieldNothing<O>(s: ImporterState<O>, steps: seq<Read>) {
    forall j :: 0 <= j < |steps| && steps[j].index < |s.dispatched| && s.dispatched[steps[j].index].name == s.lastFileName ==>
      Draft(s.dispatched[steps[j].index], steps[j].content).None?
  }

  /** When no read among `steps` imports a note from a sentinel-named file, none of them counts. */
  lemma {:induction false} NoSentinelImports<O>(s: ImporterState<O>, steps: seq<Read>)
    requires Schedule(s, steps)
    requires SentinelReadsYieldNothing(s, steps)
    ensures SentinelImports(s, steps) == 0
    decreases |steps|
  {
    if steps != [] {
      var m := ResolveRead(s, steps[0].index, steps[0].content);
      forall j | 0 <= j < |steps[1..]| && steps[1..][j].index < |m.dispatched| && m.dispatched[steps[1..][j].index].name == m.lastFileName
        ensures Draft(m.dispatched[steps[1..][j].index], steps[1..][j].content).None?
      {
        assert steps[1..][j] == steps[j + 1];
      }
      NoSentinelImports(m, steps[1..]);
    }
  }

  /**
   * A sentinel whose every read yields no note never completes: if each read
   * of a sentinel-named file normalises to nothing, the run adds no
   * `complete` and no analytics call, whatever else it imports.
   */
  lemma EmptySentinelReadsNeverComplete<O>(s: ImporterState<O>, steps: seq<Read>)
    requires Schedule(s, steps)
    requires SentinelReadsYieldNothing(s, steps)
    ensures Run(s, steps).analytics == s.analytics
    ensures forall k :: |s.statuses| <= k < |Run(s, steps).statuses| ==> !Run(s, steps).statuses[k].Complete?
  {
    NoSentinelImports(s, steps);
    CompletesOncePerSentinelImport(s, steps);
    RunCountsEachImport(s, steps);
    var t := Run(s, steps);
    var events := t.statuses[|s.statuses|..];
    assert CompletionAnalytics(events) == [];
    forall k | |s.statuses| <= k < |t.statuses| ensures !t.statuses[k].Complete? {
      assert t.statuses[k] == events[k - |s.statuses|];
    }
  }

  /** A missing file array emits the one error status, and no read can follow it. */
  lemma MissingInputEmitsOnlyError<O>(options: O, steps: seq<Read>)
    requires Schedule(StartBatch(Initial(options), None), steps)
    ensures StartBatch(Initial(options), None).statuses == [Error(NoFilesMessage)]
    ensures StartBatch(Initial(options), None).notes == [] && StartBatch(Initial(options), None).analytics == []
    ensures steps == []
  {
  }

  /** An empty file array emits nothing at all, then or later. */
  lemma EmptyInputEmitsNothing<O>(options: O, steps: seq<Read>)
    requires Schedule(StartBatch(Initial(options), Some([])), steps)
    ensures StartBatch(Initial(options), Some([])) == Initial(options)
    ensures steps == []
  {
  }

  /**
   * A whole batch, from any well-formed importer state, in any order of
   * resolution: the statuses it emits are numbered 1, 2, ..., n, where n is
   * the final count and the number of notes it created, and never exceeds
   * the number of eligible files.
   */
  lemma BatchCountsFromOne<O>(s: ImporterState<O>, files: seq<FileCandidate>, steps: seq<Read>)
    requires WellFormed(s)
    requires Schedule(StartBatch(s, Some(files)), steps)
    ensures var t := Run(StartBatch(s, Some(files)), steps);
      && s.statuses <= t.statuses && s.notes <= t.notes
      && Numbered(t.statuses[|s.statuses|..], 0)
      && |t.statuses| - |s.statuses| == |t.notes| - |s.notes| == t.importedNoteCount
      && t.importedNoteCount <= |Dispatched(files)|
  {
    RunCountsEachImport(StartBatch(s, Some(files)), steps);
  }

  /**
   * When the last file's name fails the extension test no dispatched read
   * carries that name, so the batch never completes.
   */
  lemma IneligibleSentinelNeverCompletes<O>(s: ImporterState<O>, files: seq<FileCandidate>, steps: seq<Read>)
    requires WellFormed(s) && files != []
    requires !HasAllowableName(files[|files| - 1].name)
    requires Schedule(StartBatch(s, Some(files)), steps)
    ensures Run(StartBatch(s, Some(files)), steps).analytics == s.analytics
    ensures var t := Run(StartBatch(s, Some(files)), steps);
      forall k :: |s.statuses| <= k < |t.statuses| ==> !t.statuses[k].Complete?
  {
    var b := StartBatch(s, Some(files));
    forall k | k in b.pending ensures b.dispatched[k].name != b.lastFileName {
      DispatchedMembers(files, b.dispatched[k]);
    }
    NeverCompletesWithoutSentinelRead(b, steps);
  }

  /**
   * The importer object. The fields are the closure variables of
   * `importNotes` for the batch in flight, plus the three sinks as logs.
   */
  class TextFileImporter<O> {
    const options: O
    var statuses: seq<Status>
    var analytics: seq<AnalyticsEvent>
    var notes: seq<ImportedNote<O>>
    var importedNoteCount: nat
    var lastFileName: string
    var dispatched: seq<FileCandidate>
    var pending: set<nat>

    function State(): ImporterState<O>
      reads this
    {
      ImporterState(options, statuses, analytics, notes, importedNoteCount, lastFileName, dispatched, pending)
    }

    ghost predicate Valid()
      reads this
    {
      WellFormed(State())
    }

    constructor (options: O)
      ensures Valid() && State() == Initial(options)
    {
      this.options := options;
      statuses, analytics, notes := [], [], [];
      importedNoteCount, lastFileName := 0, "";
      dispatched, pending := [], {};
    }

    method ImportNotes(filesArray: Option<seq<FileCandidate>>)
      requires Valid()
      modifies this
      ensures Valid() && State() == StartBatch(old(State()), filesArray)
    {
      if filesArray.None? {
        statuses := statuses + [Error(NoFilesMessage)];
        return;
      }
      var files := filesArray.value;
      importedNoteCount := 0;
      lastFileName := "";
      dispatched, pending := [], {};
      var i := 0;
      assert files[..i] == [];
      while i < |files|
        invariant 0 <= i <= |files|
        invariant dispatched == Dispatched(files[..i])
        invariant pending == Indices(|dispatched|)
        invariant lastFileName == if i == |files| then LastFileName(files) else ""
        invariant importedNoteCount == 0
        invariant statuses == old(statuses) && analytics == old(analytics) && notes == old(notes)
      {
        var file := files[i];
        if i + 1 == |files| {
          lastFileName := file.name;
        }
        IndicesSnoc(|dispatched|);
        ImportTextFile(file);
        DispatchedSnoc(files, i);
        i := i + 1;
      }
      assert files[..i] == files;
    }

    /** `importTextFile`: dispatch a read of `file` if it is eligible, otherwise do nothing. */
    method ImportTextFile(file: FileCandidate)
      modifies this
      ensures dispatched == old(dispatched) + (if IsEligible(file) then [file] else [])
      ensures pending == if IsEligible(file) then old(pending) + {|old(dispatched)|} else old(pending)
      ensures statuses == old(statuses) && analytics == old(analytics) && notes == old(notes)
      ensures importedNoteCount == old(importedNoteCount) && lastFileName == old(lastFileName)
    {
      if !HasAllowableName(file.name) {
        return;
      }
      if file.size > MaxFileSize {
        return;
      }
      pending := pending + {|dispatched|};
      dispatched := dispatched + [file];
    }

    /** The `onload` continuation of dispatched read `i`, delivering `content`. */
    method Resolve(i: nat, content: string)
      requires Valid() && i in pending
      modifies this
      ensures Valid() && State() == ResolveRead(old(State()), i, content)
    {
      pending := pending - {i};
      var file := dispatched[i];
      var noteContent := content;
      var fileTitle := Title(file.name);
      if !StartsWith(noteContent, fileTitle) {
        noteContent := fileTitle + TitleSeparator + noteContent;
      }
      if noteContent == "" {
        return;
      }
      var modifiedTime := ModifiedTime(file.lastModified);
      notes := notes + [ImportedNote(NoteDraft(noteContent, modifiedTime, modifiedTime), options)];
      importedNoteCount := importedNoteCount + 1;
      if file.name == lastFileName {
        statuses := statuses + [Complete(importedNoteCount)];
        analytics := analytics + [Completed(importedNoteCount)];
      } else {
        statuses := statuses + [Progress(importedNoteCount)];
      }
    }
  }
}
