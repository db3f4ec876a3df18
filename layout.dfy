/**
 * The folder layout the dumper works in: the collaborator executables it
 * needs, where the emulator leaves its score state, and the three result
 * folders with one file name per ROM.
 */
module Layout {
  import opened Strings

  const MameExe := "MAME\\Mame64.exe"
  const HiscoreDat := "MAME\\plugins\\hiscore\\hiscore.dat"
  const Hi2TxtExe := "hi2txt\\hi2txt.exe"
  const Hi2TxtZip := "hi2txt\\hi2txt.zip"
  const SevenZipExe := "7-Zip\\7z.exe"
  const AutoHotkeyExe := "AutoHotkey\\AutoHotkey.exe"

  const ResultsFolder := "Results"
  const SuccessFolder := "Results\\Success"
  const MissingFolder := "Results\\Missing"
  const ErrorFolder := "Results\\Error"

  /** `MAME\hi\<rom>.hi`: the score file the hiscore plugin writes. */
  function HiFilePath(rom: string): string
  {
    "MAME\\hi\\" + rom + ".hi"
  }

  /** `MAME\nvram\<rom>`: the directory the emulator writes non-volatile RAM to. */
  function NvramPath(rom: string): string
  {
    "MAME\\nvram\\" + rom
  }

  datatype ResultKind = SuccessResult | MissingResult | ErrorResult

  function FolderOf(kind: ResultKind): string
  {
    match kind
    case SuccessResult => SuccessFolder
    case MissingResult => MissingFolder
    case ErrorResult => ErrorFolder
  }

  /**
   * Where the result of one ROM goes: `.xml` for a success in markup mode,
   * `.txt` for a success in text mode and always `.txt` for missing and error.
   */
  function ResultPath(rom: string, textMode: bool, kind: ResultKind): string
  {
    FolderOf(kind) + "\\" + rom + (if kind == SuccessResult && !textMode then ".xml" else ".txt")
  }

  /** Anything under the results folder. */
  predicate IsResultPath(path: string)
  {
    StartsWith(path, "Results\\")
  }

  /** Under the emulator's `hi` or `nvram` folder. */
  predicate IsStatePath(p: string)
  {
    StartsWith(p, "MAME\\hi\\") || StartsWith(p, "MAME\\nvram\\")
  }

  /** The extension rule, stated as a property of the finished path. */
  lemma ResultPathShape(rom: string, textMode: bool, kind: ResultKind)
    ensures IsResultPath(ResultPath(rom, textMode, kind))
    ensures var p := ResultPath(rom, textMode, kind);
      |p| >= 4 && p[|p| - 4..] == (if kind == SuccessResult && !textMode then ".xml" else ".txt")
  {
    var p := ResultPath(rom, textMode, kind);
    assert p[..8] == FolderOf(kind)[..8];
  }

  /** Two ROMs or two outcomes never share a result file. */
  lemma ResultPathInjective(rom1: string, rom2: string, textMode: bool, kind1: ResultKind, kind2: ResultKind)
    requires ResultPath(rom1, textMode, kind1) == ResultPath(rom2, textMode, kind2)
    ensures rom1 == rom2 && kind1 == kind2
  {
    var p := ResultPath(rom1, textMode, kind1);
    assert p[8] == FolderOf(kind1)[8] == FolderOf(kind2)[8];
    var n := |FolderOf(kind1) + "\\"|;
    assert rom1 == p[n..|p| - 4];
    assert rom2 == p[n..|p| - 4];
  }

  /** The emulator's state locations lie outside the results folder. */
  lemma StatePathsAreNotResults(rom: string)
    ensures !IsResultPath(HiFilePath(rom)) && !IsResultPath(NvramPath(rom))
  {
    assert HiFilePath(rom)[0] == 'M';
    assert NvramPath(rom)[0] == 'M';
  }
}
