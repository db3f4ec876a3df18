/**
 * The program itself, step by step: its static counters and the file system
 * it works on are fields, and each routine is proved to do what the
 * functions of `Batch` and `Program` say.
 */
module Dumper {
  import opened Seqs
  import opened Strings
  import opened Files
  import opened Layout
  import opened Batch
  import Converter
  import Arguments
  import Preflight
  import Script
  import Listing
  import Catalog
  import Program

  class Dumper {
    /** The install folder's tree, as the program sees it. */
    var fs: FileSystem
    var successCount: nat
    var missingCount: nat
    var errorCount: nat
    /** The external programs the dumper starts. */
    const tools: Tools

    /** Process start: the static counters are zero. */
    constructor(fs0: FileSystem, tools: Tools)
      ensures this.fs == fs0 && this.tools == tools
      ensures successCount == 0 && missingCount == 0 && errorCount == 0
    {
      this.fs := fs0;
      this.tools := tools;
      successCount := 0;
      missingCount := 0;
      errorCount := 0;
    }

    /** The fields as a value of the functional model. */
    function Snapshot(): State
      reads this
    {
      State(fs, Counters(successCount, missingCount, errorCount))
    }

    /**
     * Runs the converter on one state location, gathers every output and
     * error line into one text, and files it as a success or an error.
     */
    method DumpHi2Txt(hiPath: string, destinationPath: string, errorDestinationPath: string, textMode: bool)
      modifies this
      ensures Snapshot() == Dump(old(Snapshot()), hiPath, destinationPath, errorDestinationPath, textMode, tools)
    {
      var lines := tools.hi2txt(Converter.ConverterArguments(textMode, hiPath, HiscoreDat));
      var builder := "";
      var i := 0;
      while i < |lines|
        invariant 0 <= i <= |lines|
        invariant builder == Converter.Captured(lines[..i])
        invariant unchanged(this)
      {
        Converter.CapturedAppend(lines[..i], lines[i]);
        assert lines[..i + 1] == lines[..i] + [lines[i]];
        builder := builder + (Converter.LineText(lines[i]) + Converter.NewLine);
        i := i + 1;
      }
      assert lines[..i] == lines;

      var results := builder;
      var error := StartsWithIgnoreCase(results, "Error");
      assert error <==> Converter.Classify(results) == ErrorResult;
      fs := WriteAllText(fs, if error then errorDestinationPath else destinationPath, results);
      if error {
        errorCount := errorCount + 1;
      } else {
        successCount := successCount + 1;
      }
    }

    /** One pass of the `foreach` body: skip, or run the emulator and file one result. */
    method ProcessRom(romName: string, textMode: bool, ahkScript: string)
      modifies this
      ensures Snapshot() == Step(old(Snapshot()), romName, Session(textMode, ahkScript, tools))
    {
      var resultPath := ResultPath(romName, textMode, SuccessResult);
      var resultMissingPath := ResultPath(romName, textMode, MissingResult);
      var resultErrorPath := ResultPath(romName, textMode, ErrorResult);

      if FileExists(fs, resultPath) || FileExists(fs, resultMissingPath) || FileExists(fs, resultErrorPath) {
        return;
      }

      fs := AfterEmulator(fs, romName, tools.mame(romName, ahkScript));

      var hiPath := HiFilePath(romName);
      if FileExists(fs, hiPath) {
        DumpHi2Txt(hiPath, resultPath, resultErrorPath, textMode);
        return;
      }

      hiPath := NvramPath(romName);
      if DirectoryExists(fs, hiPath) {
        DumpHi2Txt(hiPath, resultPath, resultErrorPath, textMode);
      } else {
        missingCount := missingCount + 1;
        fs := WriteAllText(fs, resultMissingPath, MissingMessage);
      }
    }

    /** The `foreach` over the catalog. */
    method ProcessRoms(romNames: seq<string>, textMode: bool, ahkScript: string)
      modifies this
      ensures Snapshot() == Loop(old(Snapshot()), romNames, Session(textMode, ahkScript, tools))
    {
      ghost var start := Snapshot();
      ghost var s := Session(textMode, ahkScript, tools);
      for i := 0 to |romNames|
        invariant Snapshot() == Loop(start, romNames[..i], s)
      {
        LoopAppend(start, romNames, i, s);
        ProcessRom(romNames[i], textMode, ahkScript);
      }
      assert romNames[..|romNames|] == romNames;
    }

    /** `if (!Directory.Exists(folder)) Directory.CreateDirectory(folder)`; `false` when it throws. */
    method CreateFolder(folder: string) returns (ok: bool)
      modifies this
      ensures Program.Attempt(ok, fs) == Program.EnsureFolder(old(fs), folder)
      ensures Snapshot().counters == old(Snapshot().counters)
    {
      ok := true;
      if !DirectoryExists(fs, folder) {
        if FileExists(fs, ResultsFolder) || FileExists(fs, folder) {
          ok := false;
        } else {
          fs := CreateDirectory(CreateDirectory(fs, ResultsFolder), folder);
        }
      }
    }

    /** The body of `Main`, from the arguments to the summary. */
    method Execute(args: seq<string>) returns (outcome: Program.Outcome)
      modifies this
      ensures Program.Execute(args, old(Snapshot()), tools) == Program.Finish(outcome, Snapshot())
    {
      var validArgs, textMode, secondsDelay := Arguments.ParseArgs(args);
      if !validArgs {
        return Program.Usage;
      }

      if !FileExists(fs, MameExe) || !FileExists(fs, HiscoreDat) {
        return Program.DependencyMissing(Preflight.MameFilesMissing);
      }
      if !FileExists(fs, Hi2TxtExe) {
        return Program.DependencyMissing(Preflight.Hi2TxtExeMissing);
      }
      if !FileExists(fs, Hi2TxtZip) {
        return Program.DependencyMissing(Preflight.Hi2TxtZipMissing);
      }
      if !FileExists(fs, SevenZipExe) {
        return Program.DependencyMissing(Preflight.SevenZipMissing);
      }
      if !FileExists(fs, AutoHotkeyExe) {
        return Program.DependencyMissing(Preflight.AutoHotkeyMissing);
      }

      var ahkScript := Script.AhkScript(secondsDelay);

      var paths := Listing.SevenZipFilePaths(tools.listingExitCode, tools.listingLines, Hi2TxtZip);
      if paths.None? {
        return Program.UnexpectedError;
      }
      var romNames := Catalog.RomNames(paths.value);

      var ok := CreateFolder(SuccessFolder);
      if !ok {
        return Program.UnexpectedError;
      }
      ok := CreateFolder(MissingFolder);
      if !ok {
        return Program.UnexpectedError;
      }
      ok := CreateFolder(ErrorFolder);
      if !ok {
        return Program.UnexpectedError;
      }

      ProcessRoms(romNames, textMode, ahkScript);
      return Program.Completed(Program.Summary(|romNames|, successCount, missingCount, errorCount));
    }
  }
}
