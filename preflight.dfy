/** The dependency checks made before any work, in the order the program makes them. */
module Preflight {
  import opened Seqs
  import opened Files
  import opened Layout
  import opened Strings

  datatype PreflightError =
    | MameFilesMissing
    | Hi2TxtExeMissing
    | Hi2TxtZipMissing
    | SevenZipMissing
    | AutoHotkeyMissing

  /** The checks in the order they are made. */
  const CheckOrder: seq<PreflightError> :=
    [MameFilesMissing, Hi2TxtExeMissing, Hi2TxtZipMissing, SevenZipMissing, AutoHotkeyMissing]

  /** The `File.Exists` tests a check is made of. */
  predicate Passes(fs: FileSystem, check: PreflightError)
  {
    match check
    case MameFilesMissing => FileExists(fs, MameExe) && FileExists(fs, HiscoreDat)
    case Hi2TxtExeMissing => FileExists(fs, Hi2TxtExe)
    case Hi2TxtZipMissing => FileExists(fs, Hi2TxtZip)
    case SevenZipMissing => FileExists(fs, SevenZipExe)
    case AutoHotkeyMissing => FileExists(fs, AutoHotkeyExe)
  }

  const ErrorPrefix := "ERROR: "

  /** The wording shared by the four single-file checks. */
  function MissingFileMessage(path: string): string
  {
    ErrorPrefix + ("Missing " + path + " file. Cannot continue.")
  }

  /** The advice printed when the emulator or its score database is missing. */
  const MameFilesText :=
    "MAME 64 files not found in MAME subfolder; place the latest version of MAME 64-bit into the MAME subfolder.\n"
    + "Mame64.exe needs to be directly inside of this folder.\n\n"
    + "Do not overwrite the existing MAME configuration files when copying MAME. However, you may need to edit the mame.ini\n"
    + "file to set the path to your ROMs (rompath setting)."

  /** The message printed when a check fails. */
  function Message(check: PreflightError): string
  {
    match check
    case MameFilesMissing => ErrorPrefix + MameFilesText
    case Hi2TxtExeMissing => MissingFileMessage(Hi2TxtExe)
    case Hi2TxtZipMissing => MissingFileMessage(Hi2TxtZip)
    case SevenZipMissing => MissingFileMessage(SevenZipExe)
    case AutoHotkeyMissing => MissingFileMessage(AutoHotkeyExe)
  }

  /**
   * The chain of `File.Exists` tests: `None` when every dependency is
   * present, otherwise the first failing check, which alone decides the message.
   */
  function Check(fs: FileSystem): (r: Option<PreflightError>)
    ensures r.None? <==> forall i :: 0 <= i < |CheckOrder| ==> Passes(fs, CheckOrder[i])
    ensures r.Some? ==> !Passes(fs, r.value)
    ensures r.Some? ==> exists i :: (0 <= i < |CheckOrder| && CheckOrder[i] == r.value
      && forall j :: 0 <= j < i ==> Passes(fs, CheckOrder[j]))
  {
    if !FileExists(fs, MameExe) || !FileExists(fs, HiscoreDat) then
      assert !Passes(fs, CheckOrder[0]);
      Some(MameFilesMissing)
    else if !FileExists(fs, Hi2TxtExe) then
      assert !Passes(fs, CheckOrder[1]) && forall j :: 0 <= j < 1 ==> Passes(fs, CheckOrder[j]);
      Some(Hi2TxtExeMissing)
    else if !FileExists(fs, Hi2TxtZip) then
      assert !Passes(fs, CheckOrder[2]) && forall j :: 0 <= j < 2 ==> Passes(fs, CheckOrder[j]);
      Some(Hi2TxtZipMissing)
    else if !FileExists(fs, SevenZipExe) then
      assert !Passes(fs, CheckOrder[3]) && forall j :: 0 <= j < 3 ==> Passes(fs, CheckOrder[j]);
      Some(SevenZipMissing)
    else if !FileExists(fs, AutoHotkeyExe) then
      assert !Passes(fs, CheckOrder[4]) && forall j :: 0 <= j < 4 ==> Passes(fs, CheckOrder[j]);
      Some(AutoHotkeyMissing)
    else None
  }

  /** Every message printed for a failed check is an error report. */
  lemma MessagesAreErrors(check: PreflightError)
    ensures StartsWith(Message(check), ErrorPrefix)
  {
    match check
    case MameFilesMissing => PrefixOfConcat(ErrorPrefix, MameFilesText);
    case Hi2TxtExeMissing => PrefixOfConcat(ErrorPrefix, "Missing " + Hi2TxtExe + " file. Cannot continue.");
    case Hi2TxtZipMissing => PrefixOfConcat(ErrorPrefix, "Missing " + Hi2TxtZip + " file. Cannot continue.");
    case SevenZipMissing => PrefixOfConcat(ErrorPrefix, "Missing " + SevenZipExe + " file. Cannot continue.");
    case AutoHotkeyMissing => PrefixOfConcat(ErrorPrefix, "Missing " + AutoHotkeyExe + " file. Cannot continue.");
  }

  /** Each single-file message names the very file whose absence fails that check. */
  lemma MessageNamesFailedFile(fs: FileSystem, check: PreflightError)
    requires check != MameFilesMissing
    ensures exists p ::
      && p in Dependencies
      && Message(check) == MissingFileMessage(p)
      && (Passes(fs, check) <==> FileExists(fs, p))
  {
    var p := match check
      case Hi2TxtExeMissing => Hi2TxtExe
      case Hi2TxtZipMissing => Hi2TxtZip
      case SevenZipMissing => SevenZipExe
      case AutoHotkeyMissing => AutoHotkeyExe;
    assert Dependencies[2] == Hi2TxtExe && Dependencies[3] == Hi2TxtZip;
    assert Dependencies[4] == SevenZipExe && Dependencies[5] == AutoHotkeyExe;
    assert p in Dependencies;
  }

  /** The files the checks look at. */
  const Dependencies := [MameExe, HiscoreDat, Hi2TxtExe, Hi2TxtZip, SevenZipExe, AutoHotkeyExe]

  /** The dependencies lie outside the results folder and outside the emulator's state folders. */
  lemma DependenciesOutsideWrites(p: string)
    requires p in Dependencies
    ensures !IsResultPath(p) && !IsStatePath(p)
    ensures |p| > 0 && p[0] != ResultsFolder[0]
  {
    NotStartsWith(p, "Results\\", 0);
    var i := if p == MameExe || p == HiscoreDat then 5 else 0;
    NotStartsWith(p, "MAME\\hi\\", i);
    NotStartsWith(p, "MAME\\nvram\\", i);
  }

  /** The checks see nothing but whether the dependencies exist. */
  lemma CheckReadsDependencies(fs1: FileSystem, fs2: FileSystem)
    requires forall p :: p in Dependencies ==> FileExists(fs1, p) == FileExists(fs2, p)
    ensures Check(fs1) == Check(fs2)
  {
    assert Dependencies[0] == MameExe && Dependencies[1] == HiscoreDat && Dependencies[2] == Hi2TxtExe;
    assert Dependencies[3] == Hi2TxtZip && Dependencies[4] == SevenZipExe && Dependencies[5] == AutoHotkeyExe;
  }
}
