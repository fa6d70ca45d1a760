/*
 * Concrete batches run through the importer model: the ordinary case, the
 * silent cases, and the consequences of keying completion on the last
 * file's name.
 *
 * Each scenario is split in two: a lemma that replays the reads on any fresh
 * batch of the right shape, and a lemma that shows a concrete batch of files
 * has that shape.
 */
module ImportScenarios {
  import opened TextFiles
  import opened TextFileImport

  function Txt(name: string, lastModified: int): FileCandidate {
    FileCandidate(name, 10, lastModified)
  }

  /** `title.txt` is eligible and has title `title`. */
  lemma TxtFile(title: string, name: string, lastModified: int)
    requires name == title + ".txt"
    ensures IsEligible(Txt(name, lastModified))
    ensures Title(name) == title
  {
    TitleOfJoinedName(title, "txt");
    assert title + "." + "txt" == name;
  }

  // ---------------------------------------------------------------------------
  // Replaying reads
  // ---------------------------------------------------------------------------

  /** A resolution whose file has a non-empty title, spelled out for concrete runs. */
  lemma Resolves<O>(s: ImporterState<O>, i: nat, content: string)
    requires WellFormed(s) && i in s.pending
    requires Title(s.dispatched[i].name) != ""
    ensures var r := ResolveRead(s, i, content);
      var n := s.importedNoteCount + 1;
      && r.importedNoteCount == n
      && r.statuses == s.statuses + [if s.dispatched[i].name == s.lastFileName then Complete(n) else Progress(n)]
      && r.analytics == s.analytics + (if s.dispatched[i].name == s.lastFileName then [Completed(n)] else [])
      && |r.notes| == |s.notes| + 1
  {
  }

  lemma RunSingle<O>(s: ImporterState<O>, i: nat, content: string)
    requires WellFormed(s) && i in s.pending
    ensures Schedule(s, [Read(i, content)])
    ensures Run(s, [Read(i, content)]) == ResolveRead(s, i, content)
  {
    assert [Read(i, content)][1..] == [];
  }

  lemma RunCons<O>(s: ImporterState<O>, i: nat, content: string, rest: seq<Read>)
    requires WellFormed(s) && i in s.pending
    requires Schedule(ResolveRead(s, i, content), rest)
    ensures Schedule(s, [Read(i, content)] + rest)
    ensures Run(s, [Read(i, content)] + rest) == Run(ResolveRead(s, i, content), rest)
  {
    assert ([Read(i, content)] + rest)[1..] == rest;
  }

  /** A fresh batch of two dispatched files, neither read yet, with nothing logged. */
  predicate FreshPair<O>(s: ImporterState<O>) {
    && WellFormed(s) && |s.dispatched| == 2 && s.pending == {0, 1}
    && s.statuses == [] && s.analytics == [] && s.notes == [] && s.importedNoteCount == 0
  }

  /** Two titled files of which only the second carries the sentinel's name. */
  predicate SentinelSecond<O>(s: ImporterState<O>) {
    && FreshPair(s)
    && Title(s.dispatched[0].name) != "" && Title(s.dispatched[1].name) != ""
    && s.dispatched[0].name != s.lastFileName && s.dispatched[1].name == s.lastFileName
  }

  /** Two titled files that both carry the sentinel's name. */
  predicate BothSentinels<O>(s: ImporterState<O>) {
    && FreshPair(s)
    && Title(s.dispatched[0].name) != "" && Title(s.dispatched[1].name) != ""
    && s.dispatched[0].name == s.lastFileName && s.dispatched[1].name == s.lastFileName
  }

  /** A titled file, then the sentinel file whose name is only the extension. */
  predicate UntitledSentinel<O>(s: ImporterState<O>) {
    && FreshPair(s)
    && Title(s.dispatched[0].name) != "" && s.dispatched[0].name != s.lastFileName
    && Title(s.dispatched[1].name) == ""
  }

  /** The two reads resolving in batch order. */
  lemma ReplayInOrder<O>(s0: ImporterState<O>, c0: string, c1: string)
    requires SentinelSecond(s0)
    ensures var steps := [Read(0, c0), Read(1, c1)];
      && Schedule(s0, steps)
      && Run(s0, steps).statuses == [Progress(1), Complete(2)]
      && Run(s0, steps).analytics == [Completed(2)]
      && |Run(s0, steps).notes| == 2
  {
    var s1 := ResolveRead(s0, 0, c0);
    assert s1.statuses == [Progress(1)] && s1.analytics == [] && |s1.notes| == 1 by {
      Resolves(s0, 0, c0);
    }
    var s2 := ResolveRead(s1, 1, c1);
    assert s2.statuses == [Progress(1), Complete(2)] && s2.analytics == [Completed(2)] && |s2.notes| == 2 by {
      Resolves(s1, 1, c1);
    }
    RunSingle(s1, 1, c1);
    RunCons(s0, 0, c0, [Read(1, c1)]);
    assert [Read(0, c0), Read(1, c1)] == [Read(0, c0)] + [Read(1, c1)];
  }

  /** The sentinel file's read resolving first. */
  lemma ReplaySentinelFirst<O>(s0: ImporterState<O>, c0: string, c1: string)
    requires SentinelSecond(s0)
    ensures var steps := [Read(1, c1), Read(0, c0)];
      && Schedule(s0, steps)
      && Run(s0, steps).statuses == [Complete(1), Progress(2)]
      && Run(s0, steps).analytics == [Completed(1)]
  {
    var s1 := ResolveRead(s0, 1, c1);
    Resolves(s0, 1, c1);
    Resolves(s1, 0, c0);
    RunSingle(s1, 0, c0);
    RunCons(s0, 1, c1, [Read(0, c0)]);
    assert [Read(1, c1), Read(0, c0)] == [Read(1, c1)] + [Read(0, c0)];
  }

  lemma ReplayBothSentinels<O>(s0: ImporterState<O>, c0: string, c1: string)
    requires BothSentinels(s0)
    ensures var steps := [Read(0, c0), Read(1, c1)];
      && Schedule(s0, steps)
      && Run(s0, steps).statuses == [Complete(1), Complete(2)]
      && Run(s0, steps).analytics == [Completed(1), Completed(2)]
  {
    var s1 := ResolveRead(s0, 0, c0);
    Resolves(s0, 0, c0);
    Resolves(s1, 1, c1);
    RunSingle(s1, 1, c1);
    RunCons(s0, 0, c0, [Read(1, c1)]);
    assert [Read(0, c0), Read(1, c1)] == [Read(0, c0)] + [Read(1, c1)];
  }

  lemma ReplayEmptySentinel<O>(s0: ImporterState<O>, c0: string)
    requires UntitledSentinel(s0)
    ensures var steps := [Read(0, c0), Read(1, "")];
      && Schedule(s0, steps)
      && Run(s0, steps).statuses == [Progress(1)]
      && Run(s0, steps).analytics == []
  {
    var s1 := ResolveRead(s0, 0, c0);
    Resolves(s0, 0, c0);
    ResolveReadSkipsEmpty(s1, 1, "");
    RunSingle(s1, 1, "");
    RunCons(s0, 0, c0, [Read(1, "")]);
    assert [Read(0, c0), Read(1, "")] == [Read(0, c0)] + [Read(1, "")];
  }

  // ---------------------------------------------------------------------------
  // Concrete batches
  // ---------------------------------------------------------------------------

  function TwoFiles(): seq<FileCandidate> {
    [Txt("a.txt", 1000), Txt("b.txt", 2000)]
  }

  /** Two files that share one name. */
  function TwinFiles(): seq<FileCandidate> {
    [Txt("a.txt", 1), Txt("a.txt", 2)]
  }

  /** A titled file followed by one whose name is only the extension. */
  function BareSentinelFiles(): seq<FileCandidate> {
    [Txt("notes.txt", 5), Txt(".txt", 6)]
  }

  lemma TwoFilesEligible()
    ensures Dispatched(TwoFiles()) == TwoFiles()
    ensures Title("a.txt") == "a" && Title("b.txt") == "b"
  {
    var files := TwoFiles();
    assert IsEligible(files[0]) && Title("a.txt") == "a" by {
      TxtFile("a", "a.txt", 1000);
    }
    assert IsEligible(files[1]) && Title("b.txt") == "b" by {
      TxtFile("b", "b.txt", 2000);
    }
    DispatchedAllEligible(files);
  }

  lemma TwinFilesEligible()
    ensures Dispatched(TwinFiles()) == TwinFiles() && Title("a.txt") == "a"
  {
    var files := TwinFiles();
    assert IsEligible(files[0]) && IsEligible(files[1]) && Title("a.txt") == "a" by {
      TxtFile("a", "a.txt", 1);
      TxtFile("a", "a.txt", 2);
    }
    DispatchedAllEligible(files);
  }

  lemma BareSentinelFilesEligible()
    ensures Dispatched(BareSentinelFiles()) == BareSentinelFiles()
    ensures Title("notes.txt") == "notes" && Title(".txt") == ""
  {
    var files := BareSentinelFiles();
    assert IsEligible(files[0]) && Title("notes.txt") == "notes" by {
      TxtFile("notes", "notes.txt", 5);
    }
    assert IsEligible(files[1]) && Title(".txt") == "" by {
      TxtFile("", ".txt", 6);
    }
    DispatchedAllEligible(files);
  }

  lemma PairIndices()
    ensures Indices(2) == {0, 1}
  {
  }

  lemma TwoFilesBatch<O>(options: O)
    ensures SentinelSecond(StartBatch(Initial(options), Some(TwoFiles())))
  {
    TwoFilesEligible();
    PairIndices();
    assert "a.txt"[0] != "b.txt"[0];
  }

  lemma TwinFilesBatch<O>(options: O)
    ensures BothSentinels(StartBatch(Initial(options), Some(TwinFiles())))
  {
    TwinFilesEligible();
    PairIndices();
  }

  lemma BareSentinelBatch<O>(options: O)
    ensures UntitledSentinel(StartBatch(Initial(options), Some(BareSentinelFiles())))
  {
    BareSentinelFilesEligible();
    PairIndices();
    assert "notes.txt"[0] != ".txt"[0];
  }

  // ---------------------------------------------------------------------------
  // Scenarios
  // ---------------------------------------------------------------------------

  /**
   * Two eligible files whose reads resolve in batch order: `progress` with
   * count 1, then `complete` with count 2 and one analytics call with
   * `note_count` 2.
   */
  lemma InOrderBatchCompletesOnce<O>(options: O)
    ensures var s := StartBatch(Initial(options), Some(TwoFiles()));
      var steps := [Read(0, "x"), Read(1, "y")];
      && Schedule(s, steps)
      && Run(s, steps).statuses == [Progress(1), Complete(2)]
      && Run(s, steps).analytics == [AnalyticsEvent("importer_import_completed", "plaintext", 2)]
      && |Run(s, steps).notes| == 2
  {
    TwoFilesBatch(options);
    ReplayInOrder(StartBatch(Initial(options), Some(TwoFiles())), "x", "y");
  }

  /**
   * The same batch when the last file's read resolves first: `complete`
   * fires at once with count 1 while a read is still outstanding, and a
   * `progress` event with count 2 follows it.
   */
  lemma SentinelFirstCompletesEarly<O>(options: O)
    ensures var s := StartBatch(Initial(options), Some(TwoFiles()));
      var steps := [Read(1, "y"), Read(0, "x")];
      && Schedule(s, steps)
      && Run(s, steps).statuses == [Complete(1), Progress(2)]
      && Run(s, steps).analytics == [AnalyticsEvent("importer_import_completed", "plaintext", 1)]
  {
    TwoFilesBatch(options);
    ReplaySentinelFirst(StartBatch(Initial(options), Some(TwoFiles())), "x", "y");
  }

  /** Two files that share the sentinel's name: `complete` and its analytics call fire twice. */
  lemma DuplicateSentinelNameCompletesTwice<O>(options: O)
    ensures var s := StartBatch(Initial(options), Some(TwinFiles()));
      var steps := [Read(0, "x"), Read(1, "y")];
      && Schedule(s, steps)
      && Run(s, steps).statuses == [Complete(1), Complete(2)]
      && |Run(s, steps).analytics| == 2
  {
    TwinFilesBatch(options);
    ReplayBothSentinels(StartBatch(Initial(options), Some(TwinFiles())), "x", "y");
  }

  /**
   * The last file is `.txt` and its read delivers the empty string: the
   * first read emits `progress`, the sentinel's read is skipped, and
   * `complete` never fires.
   */
  lemma EmptySentinelNeverCompletes<O>(options: O)
    ensures var s := StartBatch(Initial(options), Some(BareSentinelFiles()));
      var steps := [Read(0, "hello"), Read(1, "")];
      && Schedule(s, steps)
      && Run(s, steps).statuses == [Progress(1)]
      && Run(s, steps).analytics == []
  {
    BareSentinelBatch(options);
    ReplayEmptySentinel(StartBatch(Initial(options), Some(BareSentinelFiles())), "hello");
  }

  /** A single `report.pdf`: nothing is dispatched, so no event of any kind is ever emitted. */
  lemma IneligibleOnlyFileEmitsNothing<O>(options: O, steps: seq<Read>)
    requires Schedule(StartBatch(Initial(options), Some([Txt("report.pdf", 0)])), steps)
    ensures steps == []
    ensures StartBatch(Initial(options), Some([Txt("report.pdf", 0)])).statuses == []
  {
    var files := [Txt("report.pdf", 0)];
    assert !HasAllowableName("report.pdf") by {
      var lower := Lower("report.pdf");
      LowerAt("report.pdf", 9);
      assert lower[9] == 'f';
      assert lower[|lower| - 4 + 3] != ".txt"[3];
      assert lower[|lower| - 3 + 2] != ".md"[2];
    }
    assert files[..0] == [];
    assert Dispatched(files) == [];
  }

  /** Content that already starts with the title is imported unchanged. */
  lemma PreTitledContentUnchanged(lastModified: int)
    ensures Draft(FileCandidate("MyTitle.md", 10, lastModified), "MyTitle\nrest of text")
         == Some(NoteDraft("MyTitle\nrest of text", ModifiedTime(lastModified), ModifiedTime(lastModified)))
  {
    TitleOfJoinedName("MyTitle", "md");
    assert "MyTitle" + "." + "md" == "MyTitle.md";
    assert StartsWith("MyTitle\nrest of text", "MyTitle");
  }
}
