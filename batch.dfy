/**
 * The batch run as a function of the file system: per ROM, skip it when a
 * result file exists, otherwise run the emulator, find the score state it
 * left, convert it and file exactly one result, counting the outcome.
 */
module Batch {
  import opened Seqs
  import opened Strings
  import opened Files
  import opened Layout
  import Converter

  /** The three run counters: successes, ROMs without score state, converter errors. */
  datatype Counters = Counters(success: nat, missing: nat, error: nat)

  function Total(c: Counters): nat
  {
    c.success + c.missing + c.error
  }

  const NoCounts := Counters(0, 0, 0)

  /** What one emulator session leaves behind for its ROM: a `.hi` file's contents, an nvram directory, both or neither. */
  datatype EmulatorRun = EmulatorRun(hiFile: Option<string>, nvramDirectory: bool)

  /**
   * The external programs, by what they are given: the archiver's exit code
   * and captured lines when listing `hi2txt.zip`; the emulator session for a
   * ROM and the AutoHotkey script that ends it; the converter's output lines
   * for an argument string.
   */
  datatype Tools = Tools(
    listingExitCode: int,
    listingLines: seq<Option<string>>,
    mame: (string, string) -> EmulatorRun,
    hi2txt: string -> seq<Option<string>>)

  /** What stays fixed during the loop. */
  datatype Session = Session(textMode: bool, ahkScript: string, tools: Tools)

  datatype State = State(fs: FileSystem, counters: Counters)

  const MissingMessage := "No hiscore file or nvram directory could be found to parse."

  /** The file system once the emulator has exited. */
  function AfterEmulator(fs: FileSystem, rom: string, run: EmulatorRun): FileSystem
  {
    var withHi := if run.hiFile.Some? then fs[HiFilePath(rom) := File(run.hiFile.value)] else fs;
    if run.nvramDirectory then withHi[NvramPath(rom) := Directory] else withHi
  }

  /** `p` is one of the three result files of `rom`. */
  predicate IsResultOf(p: string, rom: string, textMode: bool)
  {
    p == ResultPath(rom, textMode, SuccessResult)
    || p == ResultPath(rom, textMode, MissingResult)
    || p == ResultPath(rom, textMode, ErrorResult)
  }

  /** The skip test: any of the three result files of `rom` exists. */
  predicate HasResult(fs: FileSystem, rom: string, textMode: bool)
  {
    FileExists(fs, ResultPath(rom, textMode, SuccessResult))
    || FileExists(fs, ResultPath(rom, textMode, MissingResult))
    || FileExists(fs, ResultPath(rom, textMode, ErrorResult))
  }

  /** How many of the three result files of `rom` exist. */
  function ResultCount(fs: FileSystem, rom: string, textMode: bool): nat
  {
    (if FileExists(fs, ResultPath(rom, textMode, SuccessResult)) then 1 else 0)
    + (if FileExists(fs, ResultPath(rom, textMode, MissingResult)) then 1 else 0)
    + (if FileExists(fs, ResultPath(rom, textMode, ErrorResult)) then 1 else 0)
  }

  /** The state the converter is pointed at: the `.hi` file first, then the nvram directory. */
  function StateLocation(fs: FileSystem, rom: string): Option<string>
  {
    if FileExists(fs, HiFilePath(rom)) then Some(HiFilePath(rom))
    else if DirectoryExists(fs, NvramPath(rom)) then Some(NvramPath(rom))
    else None
  }

  /** The converter's captured output for one state location. */
  function ConverterOutput(statePath: string, textMode: bool, tools: Tools): string
  {
    Converter.Captured(tools.hi2txt(Converter.ConverterArguments(textMode, statePath, HiscoreDat)))
  }

  /** `DumpHi2Txt`: the output goes verbatim to the error or the success file, and one counter moves. */
  function Dump(st: State, statePath: string, destinationPath: string, errorDestinationPath: string,
                textMode: bool, tools: Tools): State
  {
    var results := ConverterOutput(statePath, textMode, tools);
    var error := Converter.Classify(results) == ErrorResult;
    var fs := WriteAllText(st.fs, if error then errorDestinationPath else destinationPath, results);
    if error then State(fs, st.counters.(error := st.counters.error + 1))
    else State(fs, st.counters.(success := st.counters.success + 1))
  }

  /** One pass of the `foreach` body for `rom`. */
  function Step(st: State, rom: string, s: Session): State
  {
    if HasResult(st.fs, rom, s.textMode) then st
    else
      var fs := AfterEmulator(st.fs, rom, s.tools.mame(rom, s.ahkScript));
      match StateLocation(fs, rom)
      case Some(statePath) =>
        Dump(State(fs, st.counters), statePath,
             ResultPath(rom, s.textMode, SuccessResult), ResultPath(rom, s.textMode, ErrorResult), s.textMode, s.tools)
      case None =>
        State(WriteAllText(fs, ResultPath(rom, s.textMode, MissingResult), MissingMessage),
              st.counters.(missing := st.counters.missing + 1))
  }

  /** The whole `foreach`, one ROM after the other. */
  function Loop(st: State, roms: seq<string>, s: Session): State
    decreases |roms|
  {
    if roms == [] then st
    else Step(Loop(st, roms[..|roms| - 1], s), roms[|roms| - 1], s)
  }

  // ----- what one step does -----

  /** The result files on disk. */
  function ResultFiles(fs: FileSystem): set<string>
  {
    set p | p in fs && fs[p].File? && IsResultPath(p)
  }

  /** `fs1` and `fs2` agree at `p`. */
  predicate SameAt(fs1: FileSystem, fs2: FileSystem, p: string)
  {
    (p in fs1 <==> p in fs2) && (p in fs1 ==> fs1[p] == fs2[p])
  }

  /** The emulator only touches its own state locations, never a result file. */
  lemma EmulatorLeavesResults(fs: FileSystem, rom: string, run: EmulatorRun)
    ensures forall p :: IsResultPath(p) ==> SameAt(fs, AfterEmulator(fs, rom, run), p)
    ensures ResultFiles(AfterEmulator(fs, rom, run)) == ResultFiles(fs)
  {
    StatePathsAreNotResults(rom);
    var after := AfterEmulator(fs, rom, run);
    assert forall p :: IsResultPath(p) ==> p != HiFilePath(rom) && p != NvramPath(rom);
    assert forall p :: p in ResultFiles(after) <==> p in ResultFiles(fs);
  }

  lemma WriteAddsResultFile(fs: FileSystem, p: string, text: string)
    requires IsResultPath(p)
    ensures ResultFiles(WriteAllText(fs, p, text)) == ResultFiles(fs) + {p}
  {
    var after := WriteAllText(fs, p, text);
    assert forall q :: q in ResultFiles(after) <==> q in ResultFiles(fs) + {p};
  }

  /**
   * A ROM with a result is skipped without any change. Otherwise exactly one
   * counter rises by one and exactly one new result file of this ROM appears;
   * a missing state writes the fixed message, a converter run its output verbatim.
   */
  lemma StepEffect(st: State, rom: string, s: Session)
    ensures HasResult(st.fs, rom, s.textMode) ==> Step(st, rom, s) == st
    ensures !HasResult(st.fs, rom, s.textMode) ==>
      var r := Step(st, rom, s);
      var fs := AfterEmulator(st.fs, rom, s.tools.mame(rom, s.ahkScript));
      && Total(r.counters) == Total(st.counters) + 1
      && st.counters.success <= r.counters.success
      && st.counters.missing <= r.counters.missing
      && st.counters.error <= r.counters.error
      && ResultCount(r.fs, rom, s.textMode) == 1
      && (exists kind :: ResultFiles(r.fs) == ResultFiles(st.fs) + {ResultPath(rom, s.textMode, kind)}
                     && ResultPath(rom, s.textMode, kind) !in ResultFiles(st.fs))
      && (r.counters.missing == st.counters.missing + 1 <==> StateLocation(fs, rom).None?)
      && (StateLocation(fs, rom).None? ==>
            r.fs == fs[ResultPath(rom, s.textMode, MissingResult) := File(MissingMessage)])
      && (StateLocation(fs, rom).Some? ==>
            var output := ConverterOutput(StateLocation(fs, rom).value, s.textMode, s.tools);
            var kind := Converter.Classify(output);
            && r.fs == fs[ResultPath(rom, s.textMode, kind) := File(output)]
            && (r.counters.error == st.counters.error + 1 <==> kind == ErrorResult))
  {
    if !HasResult(st.fs, rom, s.textMode) {
      var tm := s.textMode;
      var fs := AfterEmulator(st.fs, rom, s.tools.mame(rom, s.ahkScript));
      EmulatorLeavesResults(st.fs, rom, s.tools.mame(rom, s.ahkScript));
      var kind := match StateLocation(fs, rom)
        case None => MissingResult
        case Some(path) => Converter.Classify(ConverterOutput(path, s.textMode, s.tools));
      var p := ResultPath(rom, tm, kind);
      ResultPathShape(rom, tm, kind);
      WriteAddsResultFile(fs, p, Step(st, rom, s).fs[p].contents);
      forall k ensures SameAt(st.fs, fs, ResultPath(rom, tm, k)) {
        ResultPathShape(rom, tm, k);
      }
      forall k | k != kind ensures ResultPath(rom, tm, k) != p {
        if ResultPath(rom, tm, k) == p { ResultPathInjective(rom, rom, tm, k, kind); }
      }
      assert ResultCount(Step(st, rom, s).fs, rom, tm) == 1;
    }
  }

  /** When no state was left, the converter is never consulted: any other converter gives the same step. */
  lemma MissingStateSkipsConverter(st: State, rom: string, s: Session, hi2txt: string -> seq<Option<string>>)
    requires StateLocation(AfterEmulator(st.fs, rom, s.tools.mame(rom, s.ahkScript)), rom).None?
    ensures Step(st, rom, s) == Step(st, rom, s.(tools := s.tools.(hi2txt := hi2txt)))
  {
  }

  /** A skipped ROM consults neither the emulator nor the converter. */
  lemma SkippedRomRunsNothing(st: State, rom: string, s: Session, other: Tools)
    requires HasResult(st.fs, rom, s.textMode)
    ensures Step(st, rom, s) == Step(st, rom, s.(tools := other)) == st
  {
  }

  /** A step writes only into the result files of its own ROM. */
  lemma StepFrame(st: State, rom: string, s: Session, p: string)
    requires IsResultPath(p) && !IsResultOf(p, rom, s.textMode)
    ensures SameAt(st.fs, Step(st, rom, s).fs, p)
  {
    EmulatorLeavesResults(st.fs, rom, s.tools.mame(rom, s.ahkScript));
  }

  /** An existing result file is never overwritten by a step. */
  lemma StepKeepsResultFiles(st: State, rom: string, s: Session, p: string)
    requires IsResultPath(p) && FileExists(st.fs, p)
    ensures SameAt(st.fs, Step(st, rom, s).fs, p)
  {
    if !IsResultOf(p, rom, s.textMode) {
      StepFrame(st, rom, s, p);
    }
  }

  // ----- what the loop does -----

  lemma LoopAppend(st: State, roms: seq<string>, i: nat, s: Session)
    requires i < |roms|
    ensures Loop(st, roms[..i + 1], s) == Step(Loop(st, roms[..i], s), roms[i], s)
  {
    assert roms[..i + 1][..i] == roms[..i];
  }

  /**
   * Exactly one result file per processed ROM: the result files grow by the
   * rise of the counters, which is at most one per ROM in the catalog.
   */
  lemma {:induction false} LoopCounts(st: State, roms: seq<string>, s: Session)
    ensures var r := Loop(st, roms, s);
      && Total(st.counters) <= Total(r.counters) <= Total(st.counters) + |roms|
      && st.counters.success <= r.counters.success
      && st.counters.missing <= r.counters.missing
      && st.counters.error <= r.counters.error
      && ResultFiles(st.fs) <= ResultFiles(r.fs)
      && |ResultFiles(r.fs)| == |ResultFiles(st.fs)| + (Total(r.counters) - Total(st.counters))
    decreases |roms|
  {
    if roms != [] {
      var mid := Loop(st, roms[..|roms| - 1], s);
      LoopCounts(st, roms[..|roms| - 1], s);
      StepEffect(mid, roms[|roms| - 1], s);
    }
  }

  /** Result files that existed before the loop are still there, unchanged. */
  lemma {:induction false} LoopKeepsResultFiles(st: State, roms: seq<string>, s: Session, p: string)
    requires IsResultPath(p) && FileExists(st.fs, p)
    ensures SameAt(st.fs, Loop(st, roms, s).fs, p)
    decreases |roms|
  {
    if roms != [] {
      var mid := Loop(st, roms[..|roms| - 1], s);
      LoopKeepsResultFiles(st, roms[..|roms| - 1], s, p);
      StepKeepsResultFiles(mid, roms[|roms| - 1], s, p);
    }
  }

  /** The loop writes only into result files of the ROMs it walks. */
  lemma {:induction false} LoopFrame(st: State, roms: seq<string>, s: Session, p: string)
    requires IsResultPath(p)
    requires forall rom :: rom in roms ==> !IsResultOf(p, rom, s.textMode)
    ensures SameAt(st.fs, Loop(st, roms, s).fs, p)
    decreases |roms|
  {
    if roms != [] {
      var mid := Loop(st, roms[..|roms| - 1], s);
      LoopFrame(st, roms[..|roms| - 1], s, p);
      StepFrame(mid, roms[|roms| - 1], s, p);
    }
  }

  /** No ROM ever has two result files: the skip test protects the invariant. */
  ghost predicate AtMostOneResult(fs: FileSystem, textMode: bool)
  {
    forall rom :: ResultCount(fs, rom, textMode) <= 1
  }

  lemma StepPreservesAtMostOne(st: State, rom: string, s: Session)
    requires AtMostOneResult(st.fs, s.textMode)
    ensures AtMostOneResult(Step(st, rom, s).fs, s.textMode)
  {
    var tm := s.textMode;
    var r := Step(st, rom, s);
    StepEffect(st, rom, s);
    forall other | other != rom ensures ResultCount(r.fs, other, tm) == ResultCount(st.fs, other, tm) {
      forall k ensures SameAt(st.fs, r.fs, ResultPath(other, tm, k)) {
        ResultPathShape(other, tm, k);
        forall k' ensures ResultPath(other, tm, k) != ResultPath(rom, tm, k') {
          if ResultPath(other, tm, k) == ResultPath(rom, tm, k') {
            ResultPathInjective(other, rom, tm, k, k');
          }
        }
        StepFrame(st, rom, s, ResultPath(other, tm, k));
      }
    }
  }

  lemma {:induction false} LoopPreservesAtMostOne(st: State, roms: seq<string>, s: Session)
    requires AtMostOneResult(st.fs, s.textMode)
    ensures AtMostOneResult(Loop(st, roms, s).fs, s.textMode)
    decreases |roms|
  {
    if roms != [] {
      LoopPreservesAtMostOne(st, roms[..|roms| - 1], s);
      StepPreservesAtMostOne(Loop(st, roms[..|roms| - 1], s), roms[|roms| - 1], s);
    }
  }

  /** After the loop every ROM of the catalog has a result. */
  lemma {:induction false} LoopResolvesAll(st: State, roms: seq<string>, s: Session)
    ensures forall rom :: rom in roms ==> HasResult(Loop(st, roms, s).fs, rom, s.textMode)
    decreases |roms|
  {
    if roms != [] {
      var prefix := roms[..|roms| - 1];
      var last := roms[|roms| - 1];
      var mid := Loop(st, prefix, s);
      LoopResolvesAll(st, prefix, s);
      StepEffect(mid, last, s);
      forall rom | rom in roms ensures HasResult(Loop(st, roms, s).fs, rom, s.textMode) {
        if rom != last {
          assert rom in prefix by {
            var i :| 0 <= i < |roms| && roms[i] == rom;
            assert prefix[i] == rom;
          }
          var tm := s.textMode;
          forall k | FileExists(mid.fs, ResultPath(rom, tm, k))
            ensures FileExists(Loop(st, roms, s).fs, ResultPath(rom, tm, k))
          {
            ResultPathShape(rom, tm, k);
            StepKeepsResultFiles(mid, last, s, ResultPath(rom, tm, k));
          }
        }
      }
    }
  }

  /** When every ROM already has a result, the loop changes nothing: no file, no counter. */
  lemma {:induction false} LoopSkipsResolved(st: State, roms: seq<string>, s: Session)
    requires forall rom :: rom in roms ==> HasResult(st.fs, rom, s.textMode)
    ensures Loop(st, roms, s) == st
    decreases |roms|
  {
    if roms != [] {
      var prefix := roms[..|roms| - 1];
      forall rom | rom in prefix ensures HasResult(st.fs, rom, s.textMode) {
        var i :| 0 <= i < |prefix| && prefix[i] == rom;
        assert roms[i] == rom;
      }
      LoopSkipsResolved(st, prefix, s);
    }
  }

  /** Running the loop a second time over its own result finds nothing left to do. */
  lemma RerunChangesNothing(st: State, roms: seq<string>, s: Session, counters: Counters)
    ensures var done := Loop(st, roms, s).fs;
      Loop(State(done, counters), roms, s) == State(done, counters)
  {
    LoopResolvesAll(st, roms, s);
    LoopSkipsResolved(State(Loop(st, roms, s).fs, counters), roms, s);
  }

  /** The last ROM of a catalog without duplicates is still fresh once the ROMs before it are done. */
  lemma LastStaysFresh(st: State, roms: seq<string>, s: Session)
    requires roms != []
    requires forall i, j :: 0 <= i < j < |roms| ==> roms[i] != roms[j]
    requires !HasResult(st.fs, roms[|roms| - 1], s.textMode)
    ensures !HasResult(Loop(st, roms[..|roms| - 1], s).fs, roms[|roms| - 1], s.textMode)
  {
    var tm := s.textMode;
    var prefix := roms[..|roms| - 1];
    var last := roms[|roms| - 1];
    var mid := Loop(st, prefix, s);
    forall k ensures SameAt(st.fs, mid.fs, ResultPath(last, tm, k)) {
      var p := ResultPath(last, tm, k);
      ResultPathShape(last, tm, k);
      forall rom | rom in prefix ensures !IsResultOf(p, rom, tm) {
        var i :| 0 <= i < |prefix| && prefix[i] == rom;
        assert roms[i] == rom && i < |roms| - 1;
        forall k' ensures p != ResultPath(rom, tm, k') {
          if p == ResultPath(rom, tm, k') { ResultPathInjective(last, rom, tm, k, k'); }
        }
      }
      LoopFrame(st, prefix, s, p);
    }
    assert SameAt(st.fs, mid.fs, ResultPath(last, tm, SuccessResult));
    assert SameAt(st.fs, mid.fs, ResultPath(last, tm, MissingResult));
    assert SameAt(st.fs, mid.fs, ResultPath(last, tm, ErrorResult));
  }

  /** On a clean results folder and a catalog without duplicates, every ROM is processed and counted once. */
  lemma {:induction false} LoopCountsEveryFreshRom(st: State, roms: seq<string>, s: Session)
    requires forall i, j :: 0 <= i < j < |roms| ==> roms[i] != roms[j]
    requires forall rom :: rom in roms ==> !HasResult(st.fs, rom, s.textMode)
    ensures Total(Loop(st, roms, s).counters) == Total(st.counters) + |roms|
    decreases |roms|
  {
    if roms != [] {
      var prefix := roms[..|roms| - 1];
      var last := roms[|roms| - 1];
      forall i, j | 0 <= i < j < |prefix| ensures prefix[i] != prefix[j] {
        assert prefix[i] == roms[i] && prefix[j] == roms[j];
      }
      forall rom | rom in prefix ensures !HasResult(st.fs, rom, s.textMode) {
        var i :| 0 <= i < |prefix| && prefix[i] == rom;
        assert roms[i] == rom;
      }
      LoopCountsEveryFreshRom(st, prefix, s);
      var mid := Loop(st, prefix, s);
      assert last in roms;
      LastStaysFresh(st, roms, s);
      StepEffect(mid, last, s);
      assert Loop(st, roms, s) == Step(mid, last, s);
    }
  }

  /** Outside the results folder a step touches only the emulator's state locations. */
  lemma StepTouchesOnly(st: State, rom: string, s: Session, p: string)
    requires !IsResultPath(p) && !IsStatePath(p)
    ensures SameAt(st.fs, Step(st, rom, s).fs, p)
  {
    assert StartsWith(HiFilePath(rom), "MAME\\hi\\") by {
      assert HiFilePath(rom)[..8] == "MAME\\hi\\";
    }
    assert StartsWith(NvramPath(rom), "MAME\\nvram\\") by {
      assert NvramPath(rom)[..11] == "MAME\\nvram\\";
    }
    forall k ensures IsResultPath(ResultPath(rom, s.textMode, k)) {
      ResultPathShape(rom, s.textMode, k);
    }
  }

  lemma {:induction false} LoopTouchesOnly(st: State, roms: seq<string>, s: Session, p: string)
    requires !IsResultPath(p) && !IsStatePath(p)
    ensures SameAt(st.fs, Loop(st, roms, s).fs, p)
    decreases |roms|
  {
    if roms != [] {
      LoopTouchesOnly(st, roms[..|roms| - 1], s, p);
      StepTouchesOnly(Loop(st, roms[..|roms| - 1], s), roms[|roms| - 1], s, p);
    }
  }
}
