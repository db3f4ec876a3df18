/**
 * One run of the dumper from its command line to its summary: argument
 * validation, the dependency checks, the AutoHotkey script, the catalog of
 * ROMs, the result folders and the batch loop.
 */
module Program {
  import opened Seqs
  import opened Strings
  import opened Files
  import opened Layout
  import opened Batch
  import Arguments
  import Preflight
  import Script
  import Listing
  import Catalog

  /** The figures of the closing summary. */
  datatype Summary = Summary(total: nat, success: nat, missing: nat, error: nat)

  /** How a run ends: the usage text, a dependency error, the catch-all handler, or the summary. */
  datatype Outcome =
    | Usage
    | DependencyMissing(failed: Preflight.PreflightError)
    | UnexpectedError
    | Completed(summary: Summary)

  datatype Finish = Finish(outcome: Outcome, state: State)

  /** A file-system action that either succeeds or throws after changing what it changed so far. */
  datatype Attempt = Attempt(ok: bool, fs: FileSystem)

  /**
   * `if (!Directory.Exists(folder)) Directory.CreateDirectory(folder)`:
   * creating the folder also creates `Results`; a file in the way of either throws.
   */
  function EnsureFolder(fs: FileSystem, folder: string): Attempt
  {
    if DirectoryExists(fs, folder) then Attempt(true, fs)
    else if FileExists(fs, ResultsFolder) || FileExists(fs, folder) then Attempt(false, fs)
    else Attempt(true, CreateDirectory(CreateDirectory(fs, ResultsFolder), folder))
  }

  /** The three result folders, one after the other; the first failure stops the sequence. */
  function EnsureResultFolders(fs: FileSystem): Attempt
  {
    var success := EnsureFolder(fs, SuccessFolder);
    if !success.ok then success
    else
      var missing := EnsureFolder(success.fs, MissingFolder);
      if !missing.ok then missing
      else EnsureFolder(missing.fs, ErrorFolder)
  }

  /** The sorted ROM names of the converter's archive, or `None` when the archiver failed. */
  function RomList(tools: Tools): Option<seq<string>>
  {
    match Listing.SevenZipFilePaths(tools.listingExitCode, tools.listingLines, Hi2TxtZip)
    case None => None
    case Some(entries) => Some(Catalog.RomNames(entries))
  }

  /** What stays fixed through the batch loop of a run with these arguments. */
  function SessionOf(config: Arguments.Config, tools: Tools): Session
  {
    Session(config.textMode, Script.AhkScript(config.secondsDelay), tools)
  }

  function Report(roms: seq<string>, end: State): Summary
  {
    Summary(|roms|, end.counters.success, end.counters.missing, end.counters.error)
  }

  /**
   * `Main`: a failed listing makes `GetSevenZipFilePaths` return null, and the
   * LINQ query over it throws into the catch-all handler, as does a failed
   * folder creation.
   */
  function Execute(args: seq<string>, st: State, tools: Tools): Finish
  {
    match Arguments.Arguments(args)
    case None => Finish(Usage, st)
    case Some(config) =>
      match Preflight.Check(st.fs)
      case Some(failed) => Finish(DependencyMissing(failed), st)
      case None =>
        match RomList(tools)
        case None => Finish(UnexpectedError, st)
        case Some(roms) =>
          var folders := EnsureResultFolders(st.fs);
          if !folders.ok then Finish(UnexpectedError, State(folders.fs, st.counters))
          else
            var end := Loop(State(folders.fs, st.counters), roms, SessionOf(config, tools));
            Finish(Completed(Report(roms, end)), end)
  }

  /** The path a completed run took. */
  lemma ExecuteCompleted(args: seq<string>, st: State, tools: Tools)
    requires Execute(args, st, tools).outcome.Completed?
    ensures Arguments.Arguments(args).Some? && Preflight.Check(st.fs).None?
    ensures RomList(tools).Some? && EnsureResultFolders(st.fs).ok
    ensures var end := Loop(State(EnsureResultFolders(st.fs).fs, st.counters), RomList(tools).value,
                            SessionOf(Arguments.Arguments(args).value, tools));
      Execute(args, st, tools) == Finish(Completed(Report(RomList(tools).value, end)), end)
  {
  }

  // ----- the result folders -----

  predicate IsFolderPath(p: string)
  {
    p == ResultsFolder || p == SuccessFolder || p == MissingFolder || p == ErrorFolder
  }

  predicate FoldersExist(fs: FileSystem)
  {
    DirectoryExists(fs, SuccessFolder) && DirectoryExists(fs, MissingFolder) && DirectoryExists(fs, ErrorFolder)
  }

  /**
   * Folder creation touches only the four folder paths and never replaces a
   * file; when it succeeds the three result folders exist, and when they
   * already existed it changes nothing.
   */
  lemma EnsureResultFoldersEffect(fs: FileSystem)
    ensures var a := EnsureResultFolders(fs);
      && (forall p :: !IsFolderPath(p) ==> SameAt(fs, a.fs, p))
      && (forall p :: FileExists(fs, p) ==> SameAt(fs, a.fs, p))
      && (a.ok ==> FoldersExist(a.fs))
      && (FoldersExist(fs) ==> a == Attempt(true, fs))
  {
    var success := EnsureFolder(fs, SuccessFolder);
    var missing := EnsureFolder(success.fs, MissingFolder);
    var error := EnsureFolder(missing.fs, ErrorFolder);
    assert SuccessFolder != MissingFolder && SuccessFolder != ErrorFolder && MissingFolder != ErrorFolder;
    assert ResultsFolder != SuccessFolder && ResultsFolder != MissingFolder && ResultsFolder != ErrorFolder;
  }

  /** Folder creation leaves the set of result files as it was. */
  lemma EnsureResultFoldersKeepResultFiles(fs: FileSystem)
    ensures ResultFiles(EnsureResultFolders(fs).fs) == ResultFiles(fs)
  {
    var a := EnsureResultFolders(fs);
    EnsureResultFoldersEffect(fs);
    assert forall p :: IsFolderPath(p) && p in a.fs ==> a.fs[p] == Directory || FileExists(fs, p);
    assert forall p :: p in ResultFiles(a.fs) <==> p in ResultFiles(fs);
  }

  // ----- how a run ends -----

  /** Bad arguments print the usage text and touch nothing. */
  lemma ExecuteRejectsBadArguments(args: seq<string>, st: State, tools: Tools)
    requires Arguments.Arguments(args).None?
    ensures Execute(args, st, tools) == Finish(Usage, st)
  {
  }

  /** The first failing dependency check ends the run before anything is written. */
  lemma ExecuteStopsAtMissingDependency(args: seq<string>, st: State, tools: Tools)
    requires Arguments.Arguments(args).Some? && Preflight.Check(st.fs).Some?
    ensures Execute(args, st, tools) == Finish(DependencyMissing(Preflight.Check(st.fs).value), st)
  {
  }

  /**
   * A dependency outcome names the first failing check, in the fixed order,
   * and the message printed for it is an error report; a single-file message
   * names a dependency that is really absent.
   */
  lemma DependencyOutcomeMessage(args: seq<string>, st: State, tools: Tools, check: Preflight.PreflightError)
    requires Execute(args, st, tools).outcome == DependencyMissing(check)
    ensures Execute(args, st, tools).state == st
    ensures !Preflight.Passes(st.fs, check)
    ensures exists i ::
      && 0 <= i < |Preflight.CheckOrder|
      && Preflight.CheckOrder[i] == check
      && forall j :: 0 <= j < i ==> Preflight.Passes(st.fs, Preflight.CheckOrder[j])
    ensures StartsWith(Preflight.Message(check), Preflight.ErrorPrefix)
    ensures check != Preflight.MameFilesMissing ==> exists p ::
      && p in Preflight.Dependencies
      && Preflight.Message(check) == Preflight.MissingFileMessage(p)
      && !FileExists(st.fs, p)
  {
    assert Preflight.Check(st.fs) == Some(check);
    Preflight.MessagesAreErrors(check);
    if check != Preflight.MameFilesMissing {
      Preflight.MessageNamesFailedFile(st.fs, check);
    }
  }

  /** An archiver failure reaches the catch-all handler with nothing written. */
  lemma ExecuteListingFailure(args: seq<string>, st: State, tools: Tools)
    requires Arguments.Arguments(args).Some? && Preflight.Check(st.fs).None?
    requires tools.listingExitCode != 0
    ensures Execute(args, st, tools) == Finish(UnexpectedError, st)
  {
  }

  /** The result folders hold no result file, so folder creation does not change any ROM's result count. */
  lemma FoldersKeepResultCounts(fs: FileSystem, textMode: bool)
    ensures forall rom :: ResultCount(EnsureResultFolders(fs).fs, rom, textMode) == ResultCount(fs, rom, textMode)
  {
    EnsureResultFoldersEffect(fs);
    forall rom ensures ResultCount(EnsureResultFolders(fs).fs, rom, textMode) == ResultCount(fs, rom, textMode) {
      forall k ensures SameAt(fs, EnsureResultFolders(fs).fs, ResultPath(rom, textMode, k)) {
        assert |ResultPath(rom, textMode, k)| > |ErrorFolder|;
      }
    }
  }

  /**
   * The counts of the batch part of a run started from zeroed counters: each
   * ROM was counted at most once, and once per new result file.
   */
  lemma BatchCounts(fs: FileSystem, roms: seq<string>, s: Session)
    ensures var end := Loop(State(EnsureResultFolders(fs).fs, NoCounts), roms, s);
      && Total(end.counters) <= |roms|
      && |ResultFiles(end.fs)| == |ResultFiles(fs)| + Total(end.counters)
  {
    EnsureResultFoldersKeepResultFiles(fs);
    LoopCounts(State(EnsureResultFolders(fs).fs, NoCounts), roms, s);
  }

  /**
   * The results folder after the batch part of a run: every ROM of the
   * catalog has a result file and none has two; no earlier result file was
   * changed.
   */
  lemma BatchResults(fs: FileSystem, roms: seq<string>, s: Session)
    ensures var end := Loop(State(EnsureResultFolders(fs).fs, NoCounts), roms, s);
      && (forall rom :: rom in roms ==> HasResult(end.fs, rom, s.textMode))
      && (AtMostOneResult(fs, s.textMode) ==> AtMostOneResult(end.fs, s.textMode))
      && (forall p :: FileExists(fs, p) && IsResultPath(p) ==> SameAt(fs, end.fs, p))
  {
    var start := State(EnsureResultFolders(fs).fs, NoCounts);
    LoopResolvesAll(start, roms, s);
    if AtMostOneResult(fs, s.textMode) {
      FoldersKeepResultCounts(fs, s.textMode);
      LoopPreservesAtMostOne(start, roms, s);
    }
    EnsureResultFoldersEffect(fs);
    forall p | FileExists(fs, p) && IsResultPath(p) ensures SameAt(fs, Loop(start, roms, s).fs, p) {
      LoopKeepsResultFiles(start, roms, s, p);
    }
  }

  /** A completed run, as the summary reports it and as the results folder shows it. */
  lemma ExecuteSummary(args: seq<string>, st: State, tools: Tools)
    requires st.counters == NoCounts
    requires Execute(args, st, tools).outcome.Completed?
    ensures var f := Execute(args, st, tools);
      var sum := f.outcome.summary;
      var config := Arguments.Arguments(args).value;
      && RomList(tools).Some?
      && sum.total == |RomList(tools).value|
      && sum.success + sum.missing + sum.error <= sum.total
      && |ResultFiles(f.state.fs)| == |ResultFiles(st.fs)| + sum.success + sum.missing + sum.error
      && (forall rom :: rom in RomList(tools).value ==> HasResult(f.state.fs, rom, config.textMode))
      && (AtMostOneResult(st.fs, config.textMode) ==> AtMostOneResult(f.state.fs, config.textMode))
      && (forall p :: FileExists(st.fs, p) && IsResultPath(p) ==> SameAt(st.fs, f.state.fs, p))
  {
    ExecuteCompleted(args, st, tools);
    BatchCounts(st.fs, RomList(tools).value, SessionOf(Arguments.Arguments(args).value, tools));
    BatchResults(st.fs, RomList(tools).value, SessionOf(Arguments.Arguments(args).value, tools));
  }

  /** Creating the result folders leaves the dependencies alone. */
  lemma FoldersKeepDependencies(fs: FileSystem)
    ensures forall p :: p in Preflight.Dependencies ==> SameAt(fs, EnsureResultFolders(fs).fs, p)
  {
    EnsureResultFoldersEffect(fs);
    forall p | p in Preflight.Dependencies ensures !IsFolderPath(p) {
      Preflight.DependenciesOutsideWrites(p);
      assert SuccessFolder[0] == MissingFolder[0] == ErrorFolder[0] == ResultsFolder[0];
    }
  }

  /** The batch part of a run leaves the dependencies alone. */
  lemma BatchKeepsDependencies(fs: FileSystem, roms: seq<string>, s: Session)
    ensures Preflight.Check(Loop(State(EnsureResultFolders(fs).fs, NoCounts), roms, s).fs) == Preflight.Check(fs)
  {
    var start := State(EnsureResultFolders(fs).fs, NoCounts);
    var done := Loop(start, roms, s).fs;
    FoldersKeepDependencies(fs);
    forall p | p in Preflight.Dependencies ensures FileExists(done, p) == FileExists(fs, p) {
      Preflight.DependenciesOutsideWrites(p);
      LoopTouchesOnly(start, roms, s, p);
    }
    Preflight.CheckReadsDependencies(fs, done);
  }

  /** The batch part of a run leaves the result folders in place. */
  lemma BatchKeepsFolders(fs: FileSystem, roms: seq<string>, s: Session)
    requires EnsureResultFolders(fs).ok
    ensures var done := Loop(State(EnsureResultFolders(fs).fs, NoCounts), roms, s).fs;
      EnsureResultFolders(done) == Attempt(true, done)
  {
    var folders := EnsureResultFolders(fs);
    var start := State(folders.fs, NoCounts);
    var done := Loop(start, roms, s).fs;
    EnsureResultFoldersEffect(fs);
    forall p | p in [SuccessFolder, MissingFolder, ErrorFolder] ensures SameAt(folders.fs, done, p) {
      forall rom | rom in roms ensures !IsResultOf(p, rom, s.textMode) {
        forall k ensures p != ResultPath(rom, s.textMode, k) {
          assert |ResultPath(rom, s.textMode, k)| > |p|;
        }
      }
      LoopFrame(start, roms, s, p);
    }
    assert SameAt(folders.fs, done, SuccessFolder) && SameAt(folders.fs, done, MissingFolder)
      && SameAt(folders.fs, done, ErrorFolder);
    assert FoldersExist(done);
    EnsureResultFoldersEffect(done);
  }

  /**
   * Running the program again with the same arguments, tools and files makes
   * no change: every ROM is skipped and the counters stay at zero.
   */
  lemma ExecuteTwiceChangesNothing(args: seq<string>, fs: FileSystem, tools: Tools)
    requires Execute(args, State(fs, NoCounts), tools).outcome.Completed?
    ensures var first := Execute(args, State(fs, NoCounts), tools);
      var again := State(first.state.fs, NoCounts);
      Execute(args, again, tools)
        == Finish(Completed(Summary(first.outcome.summary.total, 0, 0, 0)), again)
  {
    ExecuteCompleted(args, State(fs, NoCounts), tools);
    var roms := RomList(tools).value;
    var s := SessionOf(Arguments.Arguments(args).value, tools);
    BatchKeepsDependencies(fs, roms, s);
    BatchKeepsFolders(fs, roms, s);
    RerunChangesNothing(State(EnsureResultFolders(fs).fs, NoCounts), roms, s, NoCounts);
  }
}
