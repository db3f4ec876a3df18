/**
 * Reading the entry names of an archive from the technical listing
 * (`7z l "<archive>" -slt`) printed by the archiver.
 */
module Listing {
  import opened Seqs
  import opened Strings

  const PathPrefix := "Path = "

  /**
   * One captured line (`None` for a null line): the text after `Path = `
   * when the line starts with it, has more after it, and is not the
   * archive itself (compared ignoring case).
   */
  function EntryPath(line: Option<string>, archivePath: string): (r: Option<string>)
    ensures r.Some? ==> line == Some(PathPrefix + r.value) && r.value != []
    ensures r.Some? ==> !EqualsIgnoreCase(r.value, archivePath)
  {
    match line
    case None => None
    case Some(l) =>
      if StartsWith(l, PathPrefix) && |l| > 7 && !EqualsIgnoreCase(l[7..], archivePath) then
        assert l == PathPrefix + l[7..];
        Some(l[7..])
      else None
  }

  /** Every entry path that is not the archive's own path is read back from its line. */
  lemma EntryPathOfLine(p: string, archivePath: string)
    ensures EntryPath(Some(PathPrefix + p), archivePath) == (if p != [] && !EqualsIgnoreCase(p, archivePath) then Some(p) else None)
  {
    assert (PathPrefix + p)[7..] == p;
  }

  function EntryPathIn(archivePath: string): Option<string> -> Option<string>
  {
    line => EntryPath(line, archivePath)
  }

  /** `GetSevenZipFilePaths`: `None` stands for the `null` returned when the archiver failed. */
  function SevenZipFilePaths(exitCode: int, lines: seq<Option<string>>, archivePath: string): (r: Option<seq<string>>)
    ensures r.None? <==> exitCode != 0
    ensures r.Some? ==> |r.value| <= |lines|
    ensures r.Some? ==> forall p :: p in r.value <==>
      (Some(PathPrefix + p) in lines && p != [] && !EqualsIgnoreCase(p, archivePath))
  {
    if exitCode != 0 then None
    else
      var paths := FilterMap(EntryPathIn(archivePath), lines);
      FilterMapMembers(EntryPathIn(archivePath), lines);
      assert forall p :: p in paths <==>
          (Some(PathPrefix + p) in lines && p != [] && !EqualsIgnoreCase(p, archivePath)) by {
        forall p ensures p in paths <==>
            (Some(PathPrefix + p) in lines && p != [] && !EqualsIgnoreCase(p, archivePath)) {
          EntryPathOfLine(p, archivePath);
          assert EntryPathIn(archivePath)(Some(PathPrefix + p)) == EntryPath(Some(PathPrefix + p), archivePath);
        }
      }
      Some(paths)
  }

  /** The lines are captured from two streams in no fixed order; only their multiset decides the entries' multiset. */
  lemma PathsIgnoreLineOrder(lines1: seq<Option<string>>, lines2: seq<Option<string>>, archivePath: string)
    requires multiset(lines1) == multiset(lines2)
    ensures multiset(SevenZipFilePaths(0, lines1, archivePath).value)
         == multiset(SevenZipFilePaths(0, lines2, archivePath).value)
  {
    FilterMapPermutation(EntryPathIn(archivePath), lines1, lines2);
  }

  /**
   * One entry per matching line: an entry path occurs in the result exactly
   * as often as its `Path = ` line was captured, so repeats are kept.
   */
  lemma {:induction false} EntryMultiplicity(lines: seq<Option<string>>, archivePath: string, p: string)
    requires p != [] && !EqualsIgnoreCase(p, archivePath)
    ensures multiset(SevenZipFilePaths(0, lines, archivePath).value)[p] == multiset(lines)[Some(PathPrefix + p)]
    decreases |lines|
  {
    if lines != [] {
      EntryMultiplicity(lines[1..], archivePath, p);
      EntryPathOfLine(p, archivePath);
      assert lines == [lines[0]] + lines[1..];
      assert EntryPathIn(archivePath)(lines[0]) == EntryPath(lines[0], archivePath);
      assert EntryPath(lines[0], archivePath) == Some(p) <==> lines[0] == Some(PathPrefix + p);
    }
  }
}
