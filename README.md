# MAME Default Scores Dumper, modelled in Dafny

The dumper collects the factory high-score tables of arcade games. It lists
the game descriptions inside hi2txt's `hi2txt.zip` with 7-Zip. That gives a
catalog of ROM names. For each ROM that has no result file yet, it runs MAME
for a fixed number of seconds; an AutoHotkey script then presses Escape to end
the game. It then looks for the score state MAME left behind: the `hi\<rom>.hi`
file first, then the `nvram\<rom>` directory. It runs hi2txt on that state and
files the converter's output under `Results\Success` or `Results\Error`. When
no state exists, it writes a fixed message under `Results\Missing`. At the end
it prints how many ROMs it processed, parsed, found missing and saw fail.

The model covers that core:

- command-line validation (`Arguments`);
- the ordered dependency checks (`Preflight`);
- the 7-Zip listing filter (`Listing`);
- the catalog pipeline with its sort (`Catalog`, `Ordering`, `Seqs`);
- the AutoHotkey template substitution (`Script`);
- the hi2txt argument string, output capture and classification (`Converter`);
- the result-path naming (`Layout`);
- the batch loop as functions over an abstract file system (`Files`, `Batch`);
- one whole run from arguments to summary (`Program`).

The class `Dumper.Dumper` is the program itself, written step by step. Its
fields are the file system and the three static counters. Each of its
methods is proved equal to the functional model.

The file system is a map from a path to a file (with its text) or a
directory. Paths are relative to the install folder and use `\`. The external
programs are parameters of the model (`Batch.Tools`):

- 7-Zip is its exit code and the lines it printed;
- MAME is a function from the ROM and the AutoHotkey script to what it leaves
  behind: a `.hi` file's contents, an nvram directory, both or neither;
- hi2txt is a function from its argument string to the lines it prints.

Three points of the code's behaviour are worth stating outright:

- The catalog is not de-duplicated. Two archive entries can give the same ROM
  name, for example `a.xml` and `a.xml.xml`. The name is then listed twice.
  The second copy is skipped because its result already exists.
- Converter output is never classed as "missing". Only output that starts
  with `Error`, in any letter case, is an error; everything else is a success.
  Any output whose first line starts with `ERROR` is filed under `Error` with
  its own text.
- The delay has no lower bound. `-5` is accepted.

## Model

| member | source | states |
|---|---|---|
| Arguments.Arguments | MameDefaultScoresDumper/Program.cs:43-66 | the accepted command lines as one value: exactly two arguments, the first exactly `-txt` or `-xml`, the second a 32-bit integer; `ParseArgs` is proved to agree with it |
| Arguments.ParseArgs | MameDefaultScoresDumper/Program.cs:43-66 | the arguments are valid iff there are exactly two, the first is exactly `-txt` or `-xml` and the second parses as a 32-bit integer; text mode iff the first is `-txt`; the delay is 30 for another argument count, and 0 when the parse fails; when valid, the result is the `Arguments` configuration |
| Arguments.NegativeDelayAccepted | MameDefaultScoresDumper/Program.cs:58 | a negative delay such as `-5` is accepted |
| Arguments.DelayAccepted | MameDefaultScoresDumper/Program.cs:47-61 | every 32-bit delay, as `ToString` prints it, is accepted in either mode and kept unchanged |
| Arguments.ModeIsCaseSensitive | MameDefaultScoresDumper/Program.cs:49-53 | `-TXT` is a usage error: the mode flag is compared exactly |
| Strings.EqualsIgnoreCase | MameDefaultScoresDumper/Program.cs:292 | `string.Equals(a, b, StringComparison.OrdinalIgnoreCase)`: equal length and equal characters after ASCII upper-casing; `EntryPath` uses it to drop the archive's own line |
| Strings.ParseInt32 | MameDefaultScoresDumper/Program.cs:58 | `int.TryParse`: a result is a 32-bit value and the text held at least one digit; `ParseFormatRoundTrip` reads every printed value back |
| Strings.IntToString | MameDefaultScoresDumper/Program.cs:116 | `ToString` of an integer: a minus sign for negative values, then the decimal digits; its inverse is `ParseInt32` (`ParseFormatRoundTrip`) |
| Strings.Replace | MameDefaultScoresDumper/Program.cs:116 | ordinal `Replace` of every non-overlapping occurrence, left to right; text without the pattern's first character passes unchanged (`ReplaceSkipsPrefix`, `ReplaceAbsent`) |
| Strings.ParseFormatRoundTrip | MameDefaultScoresDumper/Program.cs:58 | every 32-bit value printed by `ToString` is read back unchanged by `TryParse` |
| Preflight.Passes | MameDefaultScoresDumper/Program.cs:77-101 | the `File.Exists` tests one check is made of; `Check` is stated in terms of it, and `MessageNamesFailedFile` ties each single-file check to one dependency |
| Preflight.Check | MameDefaultScoresDumper/Program.cs:77-105 | no error iff all five checks pass; otherwise the error is a failing check and every check before it in the fixed order passes |
| Preflight.Message | MameDefaultScoresDumper/Program.cs:77-103 | the text printed for each failed check: the MAME advice, or `ERROR: Missing <file> file. Cannot continue.` |
| Preflight.MessagesAreErrors | MameDefaultScoresDumper/Program.cs:79-103 | every message printed for a failed check starts with `ERROR: ` |
| Preflight.MessageNamesFailedFile | MameDefaultScoresDumper/Program.cs:83-103 | each single-file message names one of the dependency files, and that file is the one whose absence fails the check |
| Preflight.CheckReadsDependencies | MameDefaultScoresDumper/Program.cs:77-105 | the outcome depends only on whether the six dependency files exist |
| Preflight.DependenciesOutsideWrites | MameDefaultScoresDumper/Program.cs:28-37 | no dependency file lies in the results folder or in the emulator's `hi` or `nvram` folder |
| Listing.EntryPath | MameDefaultScoresDumper/Program.cs:292 | a kept line is `Path = ` followed by a non-empty rest; the rest is the entry and differs, ignoring case, from the archive path |
| Listing.EntryPathOfLine | MameDefaultScoresDumper/Program.cs:292 | a `Path = <p>` line with a non-empty `p` other than the archive path yields exactly `p` |
| Listing.SevenZipFilePaths | MameDefaultScoresDumper/Program.cs:292 | no list iff the exit code is non-zero; otherwise `p` is listed iff some line is `Path = <p>` with `p` non-empty and not equal, ignoring case, to the archive path; never more entries than lines |
| Listing.EntryMultiplicity | MameDefaultScoresDumper/Program.cs:292 | an entry path occurs in the result exactly as often as its `Path = <p>` line was captured: one entry per matching line, repeats kept |
| Listing.PathsIgnoreLineOrder | MameDefaultScoresDumper/Program.cs:275-292 | the listed entries, as a multiset, do not depend on the order in which the lines arrived |
| Catalog.IsRomEntry | MameDefaultScoresDumper/Program.cs:124 | the `Where` filter: ends in `.xml` ignoring case and is not exactly `_template.xml` (`SelectExamples`, `UpperCaseExtensionSelected`) |
| Catalog.RomName | MameDefaultScoresDumper/Program.cs:125 | the `Select`: every ordinal `.xml` removed (`RomNameOfPlainEntry`, `EveryOccurrenceRemoved`, `UpperCaseExtensionKept`) |
| Catalog.Select | MameDefaultScoresDumper/Program.cs:124-125 | the `Where` and `Select` of one entry: its ROM name when it passes the filter, nothing otherwise (`SelectPlainEntry`, `SelectExamples`, `RomNamesOfOne`) |
| Catalog.RomNames | MameDefaultScoresDumper/Program.cs:123-127 | the catalog is sorted; a name is in it iff some entry ends in `.xml` (ignoring case), is not exactly `_template.xml` and reduces to that name |
| Catalog.SelectedLength | MameDefaultScoresDumper/Program.cs:124-125 | the filter keeps one name per kept entry |
| Catalog.RomNamesLength | MameDefaultScoresDumper/Program.cs:124-127 | the catalog has exactly as many names as there are kept entries, repeats included |
| Catalog.RomNamesOfOne | MameDefaultScoresDumper/Program.cs:124-125 | a single entry gives its name if it passes the filter, and nothing otherwise |
| Catalog.RomNamesAppend | MameDefaultScoresDumper/Program.cs:124-127 | the catalog of two listings together is the multiset sum of their catalogs: nothing is merged |
| Catalog.RomNamesIgnoreOrder | MameDefaultScoresDumper/Program.cs:126 | entries in any order give the same catalog |
| Catalog.CatalogIgnoresLineOrder | MameDefaultScoresDumper/Program.cs:123-127 | the catalog does not depend on the order in which 7-Zip's lines were captured |
| Catalog.RomNameOfPlainEntry | MameDefaultScoresDumper/Program.cs:125 | `<rom>.xml` gives `<rom>` when the ROM name has no dot |
| Catalog.UpperCaseExtensionSelected | MameDefaultScoresDumper/Program.cs:124 | `galaga.XML` passes the filter, which ignores case |
| Catalog.UpperCaseExtensionKept | MameDefaultScoresDumper/Program.cs:125 | the removal is case-sensitive, so `galaga.XML` keeps its extension |
| Catalog.EveryOccurrenceRemoved | MameDefaultScoresDumper/Program.cs:125 | every `.xml` is removed, so `a.xml.xml` becomes `a` |
| Catalog.DuplicateNamesKept | MameDefaultScoresDumper/Program.cs:124-127 | `a.xml` and `a.xml.xml` give the catalog `a`, `a` |
| Catalog.SelectPlainEntry | MameDefaultScoresDumper/Program.cs:124-125 | an entry `<rom>.xml` whose ROM name has no dot and that is not the template passes the filter as `<rom>` |
| Catalog.SelectExamples | MameDefaultScoresDumper/Program.cs:124-125 | `foo.xml` and `bar.xml` pass the filter; `_template.xml` and `baz.txt` do not |
| Catalog.SelectedExample | MameDefaultScoresDumper/Program.cs:124-125 | the filter over a four-entry listing keeps `foo` and `bar`, in listing order |
| Catalog.CatalogExample | MameDefaultScoresDumper/Program.cs:123-127 | that listing gives the catalog `bar`, `foo` |
| Ordering.Insert | MameDefaultScoresDumper/Program.cs:126 | inserting into a sorted list keeps it sorted and adds exactly that element |
| Ordering.Sort | MameDefaultScoresDumper/Program.cs:126 | the result is sorted and a permutation of the input |
| Ordering.SortedUnique | MameDefaultScoresDumper/Program.cs:126 | two sorted lists with the same elements are equal, so the sort's stability cannot show |
| Ordering.SortIgnoresOrder | MameDefaultScoresDumper/Program.cs:126 | permuted inputs sort to the same list |
| Seqs.FilterMapMembers | MameDefaultScoresDumper/Program.cs:124-125 | a value is in the filter result exactly when some input maps to it |
| Seqs.FilterMapPermutation | MameDefaultScoresDumper/Program.cs:124-125 | permuted inputs give permuted filter results |
| Script.AhkScript | MameDefaultScoresDumper/Program.cs:107-116 | the verbatim AutoHotkey template with `{0}` replaced by the delay; its shape is stated by `AhkScriptShape` |
| Script.AhkScriptShape | MameDefaultScoresDumper/Program.cs:107-116 | the script is the template text before `{0}`, then the delay in decimal, then the rest of the template unchanged |
| Script.TailUnchanged | MameDefaultScoresDumper/Program.cs:107-116 | the `{Escape down}` and `{Escape up}` braces are not touched by the substitution |
| Converter.PathsRoundTrip | MameDefaultScoresDumper/Program.cs:214 | the two quoted paths are read back from the argument string |
| Converter.ConverterArguments | MameDefaultScoresDumper/Program.cs:214 | the hi2txt argument string: `-xml ` unless in text mode, then the quoted state and database paths; its inverse is `ParseArguments` (`ArgumentsRoundTrip`) |
| Converter.ArgumentsRoundTrip | MameDefaultScoresDumper/Program.cs:214 | for a state path without a quote, the argument string gives back the mode, the state path and the `hiscore.dat` path |
| Converter.Captured | MameDefaultScoresDumper/Program.cs:228-231 | the `StringBuilder` text after every received line was appended in arrival order; `CapturedAppend` and `ClassifyCaptured` state its properties |
| Converter.CapturedAppend | MameDefaultScoresDumper/Program.cs:228-231 | each received line adds its text and a line break at the end of the captured output; a null line adds only the break |
| Converter.Classify | MameDefaultScoresDumper/Program.cs:235-236 | only two outcomes, never missing; error iff the output starts with `Error`, ignoring case |
| Converter.ClassifyCaptured | MameDefaultScoresDumper/Program.cs:228-236 | the captured output is an error iff the first received line is not null and starts with `Error`, ignoring case |
| Converter.UpperCaseErrorIsError | MameDefaultScoresDumper/Program.cs:236 | any output that starts with `ERROR` is filed as an error, never as a success or as missing |
| Files.FileExists | MameDefaultScoresDumper/Program.cs:77-101 | `File.Exists`: true only for a file, not for a directory; `CreateFolder` and `EnsureResultFoldersEffect` rely on the distinction |
| Files.DirectoryExists | MameDefaultScoresDumper/Program.cs:133-146 | `Directory.Exists`: true only for a directory; `EnsureResultFoldersEffect` states what folder creation does with it |
| Files.WriteAllText | MameDefaultScoresDumper/Program.cs:198 | `File.WriteAllText`: creates or replaces one file with the text; `WriteAddsResultFile` and `StepEffect` pin down its effect |
| Files.CreateDirectory | MameDefaultScoresDumper/Program.cs:133-146 | `Directory.CreateDirectory` for a folder that does not exist yet; `EnsureResultFoldersEffect` pins down its effect |
| Layout.HiFilePath | MameDefaultScoresDumper/Program.cs:178 | `MAME\hi\<rom>.hi`, the score file the hiscore plugin writes; `StatePathsAreNotResults` keeps it outside the results folder |
| Layout.NvramPath | MameDefaultScoresDumper/Program.cs:187 | `MAME\nvram\<rom>`, the emulator's non-volatile RAM directory; `StatePathsAreNotResults` keeps it outside the results folder |
| Layout.ResultPath | MameDefaultScoresDumper/Program.cs:150-152 | `Path.Combine` of the kind's folder and `<rom>` plus the extension; `ResultPathShape` and `ResultPathInjective` state its properties |
| Layout.ResultPathShape | MameDefaultScoresDumper/Program.cs:150-152 | result paths lie under `Results\`; the success file ends in `.txt` in text mode and `.xml` otherwise; missing and error files end in `.txt` |
| Layout.ResultPathInjective | MameDefaultScoresDumper/Program.cs:150-152 | two ROMs, or two outcomes, never share a result path |
| Layout.StatePathsAreNotResults | MameDefaultScoresDumper/Program.cs:178-187 | the `.hi` file and the nvram directory lie outside the results folder |
| Batch.AfterEmulator | MameDefaultScoresDumper/Program.cs:162-176 | the file system once the emulator has exited: at most its `.hi` file and nvram directory added (`EmulatorLeavesResults`) |
| Batch.HasResult | MameDefaultScoresDumper/Program.cs:154-156 | the skip test: one of the ROM's three result files exists; `StepEffect` and `LoopSkipsResolved` state that such a ROM is skipped with nothing changed |
| Batch.StateLocation | MameDefaultScoresDumper/Program.cs:178-197 | the `.hi` file when it exists, otherwise the nvram directory when it exists, otherwise nothing |
| Batch.ConverterOutput | MameDefaultScoresDumper/Program.cs:210-235 | the text hi2txt's lines build up when run on one state location with the argument string of line 214; `ClassifyCaptured` states that its first line decides the class |
| Batch.Dump | MameDefaultScoresDumper/Program.cs:233-248 | `DumpHi2Txt`: the captured output is written to the error or the success path and the matching counter rises (`StepEffect`) |
| Batch.Step | MameDefaultScoresDumper/Program.cs:149-199 | one pass of the `foreach` body; `StepEffect`, `StepFrame` and `StepPreservesAtMostOne` state what it does |
| Batch.Loop | MameDefaultScoresDumper/Program.cs:148-200 | the whole `foreach`, one ROM after the other; `LoopCounts`, `LoopResolvesAll` and `LoopPreservesAtMostOne` state what it does |
| Batch.EmulatorLeavesResults | MameDefaultScoresDumper/Program.cs:162-187 | the emulator's output never changes a path under the results folder |
| Batch.WriteAddsResultFile | MameDefaultScoresDumper/Program.cs:198 | writing a result adds exactly that path to the result files |
| Batch.StepEffect | MameDefaultScoresDumper/Program.cs:148-199 | a ROM with a result is skipped and nothing changes. Otherwise exactly one counter rises by one, and exactly one new result file of that ROM appears. With no state, the missing file holds the fixed message and `missing` rises. With state, the converter's output is written verbatim to the success or error file, and `error` rises iff it is an error |
| Batch.MissingStateSkipsConverter | MameDefaultScoresDumper/Program.cs:194-199 | with no state left, the step does not depend on the converter: it is never run |
| Batch.SkippedRomRunsNothing | MameDefaultScoresDumper/Program.cs:154-158 | a skipped ROM depends on none of the external programs and changes nothing |
| Batch.StepFrame | MameDefaultScoresDumper/Program.cs:150-199 | a step changes no result path other than the three of its own ROM |
| Batch.StepKeepsResultFiles | MameDefaultScoresDumper/Program.cs:154-158 | an existing result file is never overwritten |
| Batch.LoopCounts | MameDefaultScoresDumper/Program.cs:148-200 | counters only rise, by at most one per catalog entry; the result files grow by exactly the rise of the counters |
| Batch.LoopKeepsResultFiles | MameDefaultScoresDumper/Program.cs:148-200 | result files present before the loop are unchanged after it |
| Batch.LoopFrame | MameDefaultScoresDumper/Program.cs:148-200 | result paths of ROMs outside the catalog are untouched |
| Batch.StepPreservesAtMostOne | MameDefaultScoresDumper/Program.cs:154-199 | a step keeps "no ROM has two result files" |
| Batch.LoopPreservesAtMostOne | MameDefaultScoresDumper/Program.cs:148-200 | the loop keeps "no ROM has two result files" |
| Batch.LoopResolvesAll | MameDefaultScoresDumper/Program.cs:148-200 | after the loop every catalog ROM has a result file |
| Batch.LoopSkipsResolved | MameDefaultScoresDumper/Program.cs:154-158 | when every ROM has a result, the loop changes no file and no counter |
| Batch.RerunChangesNothing | MameDefaultScoresDumper/Program.cs:148-200 | a second loop over the first loop's result does nothing |
| Batch.LoopCountsEveryFreshRom | MameDefaultScoresDumper/Program.cs:148-200 | with no duplicates and no earlier results, the counters rise by exactly the catalog length |
| Batch.StepTouchesOnly | MameDefaultScoresDumper/Program.cs:160-199 | outside the results folder, a step changes only the emulator's `hi` and `nvram` locations |
| Batch.LoopTouchesOnly | MameDefaultScoresDumper/Program.cs:148-200 | the same for the whole loop |
| Program.EnsureFolder | MameDefaultScoresDumper/Program.cs:133-136 | `if (!Directory.Exists(f)) Directory.CreateDirectory(f)`: creates `Results` too, fails on a file in the way |
| Program.EnsureResultFolders | MameDefaultScoresDumper/Program.cs:133-146 | the three result folders in turn, stopping at the first failure (`EnsureResultFoldersEffect`) |
| Program.RomList | MameDefaultScoresDumper/Program.cs:123-127 | the catalog: the listing's entries filtered, renamed and sorted, or nothing when the archiver failed |
| Program.Report | MameDefaultScoresDumper/Program.cs:202 | the summary figures: the catalog length and the three counters at the end of the loop (`ExecuteSummary`) |
| Program.Execute | MameDefaultScoresDumper/Program.cs:26-207 | `Main` from the arguments to the summary or the catch-all handler; `ExecuteCompleted`, `ExecuteSummary` and the other `Execute` lemmas state what it does |
| Program.ExecuteCompleted | MameDefaultScoresDumper/Program.cs:123-202 | a completed run had valid arguments, passed every check, got a listing and created the folders; its result is the loop's |
| Program.EnsureResultFoldersEffect | MameDefaultScoresDumper/Program.cs:133-146 | folder creation changes only the four folder paths and never replaces a file; on success the three folders exist; when they already exist nothing changes |
| Program.EnsureResultFoldersKeepResultFiles | MameDefaultScoresDumper/Program.cs:133-146 | folder creation leaves the result files as they were |
| Program.FoldersKeepResultCounts | MameDefaultScoresDumper/Program.cs:133-146 | folder creation changes no ROM's number of result files |
| Program.ExecuteRejectsBadArguments | MameDefaultScoresDumper/Program.cs:68-75 | bad arguments print the usage text and change nothing |
| Program.ExecuteStopsAtMissingDependency | MameDefaultScoresDumper/Program.cs:77-105 | a failing check ends the run with that check's error and changes nothing |
| Program.DependencyOutcomeMessage | MameDefaultScoresDumper/Program.cs:77-105 | a dependency outcome leaves the state unchanged and names the first failing check in the fixed order; its message starts with `ERROR: `, and a single-file message names a dependency that is absent |
| Program.ExecuteListingFailure | MameDefaultScoresDumper/Program.cs:204-207 | a failed listing ends in the catch-all handler with nothing written |
| Program.BatchCounts | MameDefaultScoresDumper/Program.cs:148-202 | from zeroed counters, the counter sum is at most the catalog length and equals the number of new result files |
| Program.BatchResults | MameDefaultScoresDumper/Program.cs:148-200 | every catalog ROM ends with a result file, none has two, and no earlier result file changed |
| Program.ExecuteSummary | MameDefaultScoresDumper/Program.cs:202 | the reported total is the catalog length, skipped ROMs included; success + missing + error is at most the total and equals the number of new result files |
| Program.FoldersKeepDependencies | MameDefaultScoresDumper/Program.cs:133-146 | creating the result folders leaves every dependency path as it was |
| Program.BatchKeepsDependencies | MameDefaultScoresDumper/Program.cs:133-200 | folder creation followed by the loop leaves the dependency checks' outcome unchanged |
| Program.BatchKeepsFolders | MameDefaultScoresDumper/Program.cs:133-200 | the loop leaves the three result folders in place |
| Program.ExecuteTwiceChangesNothing | MameDefaultScoresDumper/Program.cs:154-158 | running again with the same arguments and programs changes no file and reports zero for every counter: runs resume and never redo |
| Dumper.Dumper.constructor | MameDefaultScoresDumper/Program.cs:22 | the static counters start at zero |
| Dumper.Dumper.DumpHi2Txt | MameDefaultScoresDumper/Program.cs:210-255 | gathering the converter's lines in a buffer gives `Batch.Dump`: the output is written to the error or success path and the matching counter rises |
| Dumper.Dumper.ProcessRom | MameDefaultScoresDumper/Program.cs:149-199 | one pass of the loop body skips a ROM that has a result, or runs the emulator and files exactly the result that `Batch.Step` describes |
| Dumper.Dumper.ProcessRoms | MameDefaultScoresDumper/Program.cs:148-200 | the `foreach` leaves the file system and counters that `Batch.Loop` describes |
| Dumper.Dumper.CreateFolder | MameDefaultScoresDumper/Program.cs:133-136 | creates a missing folder together with `Results`, or fails when a file is in the way; the counters are unchanged |
| Dumper.Dumper.Execute | MameDefaultScoresDumper/Program.cs:43-202 | the run ends with the outcome and the state that `Program.Execute` describes |

## Left out

- Starting and waiting for processes is not modelled: MAME, AutoHotkey, hi2txt and 7-Zip, the kill of a lingering AutoHotkey process and its swallowed exception. Each program is reduced to what it leaves behind or prints (`Batch.Tools`).
- The event-driven capture is modelled as a sequence. hi2txt's standard-output and standard-error lines are taken as one sequence in arrival order. 7-Zip's `ConcurrentBag` is taken as a sequence whose order does not matter (`Catalog.CatalogIgnoresLineOrder`). Interleavings and the timing of the `Exited` handler are not modelled.
- Console output is not modelled: the banner, the usage text, progress lines and the summary text. The figures of the summary are modelled (`Program.Summary`), and so is the text printed for a failed dependency check (`Preflight.Message`, for the check that `Program.Outcome` carries).
- The temporary AutoHotkey script file is not modelled. It lives outside the install folder; the script text itself is modelled.
- `Directory.SetCurrentDirectory`, `Application.StartupPath` and path normalisation are not modelled. Paths are relative to the install folder and compared as strings.
- Catalog.RomNames: the culture-sensitive `OrderBy` is modelled as ordinal (character-code) order. The culture's collation is library behaviour outside the program.
- Strings.ParseInt32: `int.TryParse` is modelled as an optional sign, at least one ASCII digit and the 32-bit range. Surrounding white space and culture-specific signs are not modelled.
- Strings.EqualsIgnoreCase: case folding covers ASCII letters only.
- Batch.Step: every result path can be written. In the program, writing a result file throws when a directory of that name exists, when the parent folder is missing (a nested archive entry `sub\x.xml` gives the ROM `sub\x`, whose folder `Results\Success\sub` does not exist) or when the ROM name holds characters that are invalid in a path. The missing-state write then ends the run in the catch-all handler. The success or error write runs in hi2txt's `Exited` handler, which .NET may raise on a thread-pool thread outside `Main`'s `try`, so its exception is not caught there. The model writes the file in all these cases.
- Batch.Step: the skip test compares result paths as strings. `File.Exists` on Windows ignores letter case, so for a catalog holding `Galaga` and `galaga` the program skips the second ROM while the model processes both.
- Listing.EntryPath: `l.StartsWith("Path = ")` uses the current culture. It is modelled as an ordinal prefix test, which agrees for the ASCII prefix except on culture-specific text such as a name starting with a combining mark.
- Script.AhkScript: `secondsDelay.ToString()` uses the current culture's negative sign. The model writes `-`, as the invariant culture does.
- Batch.AfterEmulator: the emulator can only add its `.hi` file and nvram directory. Deleting or changing other files is not modelled.
- Program.ExecuteSummary: "no ROM has two result files" is stated per output mode. The text-mode and markup-mode success files of one ROM have different names, so a run in one mode does not see the other mode's success file.
