/**
 * The ROM catalog: the archive entries that describe a game (`<rom>.xml`),
 * reduced to ROM names and put in ascending order.
 */
module Catalog {
  import opened Seqs
  import opened Strings
  import opened Ordering
  import Listing

  const TemplateEntry := "_template.xml"

  /** The `Where` filter: the extension is matched ignoring case, the template name exactly. */
  predicate IsRomEntry(name: string)
  {
    EndsWithIgnoreCase(name, ".xml") && name != TemplateEntry
  }

  /** The `Select`: every ordinal occurrence of `.xml` is removed, wherever it stands. */
  function RomName(name: string): string
  {
    Replace(name, ".xml", "")
  }

  function Select(name: string): Option<string>
  {
    if IsRomEntry(name) then Some(RomName(name)) else None
  }

  /** The catalog the batch walks through: filtered, renamed, sorted, never de-duplicated. */
  function RomNames(entries: seq<string>): (r: seq<string>)
    ensures Sorted(r)
    ensures |r| <= |entries|
    ensures forall x :: x in r <==> exists e :: e in entries && IsRomEntry(e) && RomName(e) == x
  {
    var selected := FilterMap(Select, entries);
    FilterMapMembers(Select, entries);
    var r := Sort(selected);
    assert |r| == |multiset(r)| == |multiset(selected)| == |selected|;
    assert forall x :: x in r <==> exists e :: e in entries && IsRomEntry(e) && RomName(e) == x by {
      forall x ensures x in r <==> exists e :: e in entries && IsRomEntry(e) && RomName(e) == x {
        assert x in r <==> x in multiset(r);
        assert x in selected <==> x in multiset(selected);
        assert forall e :: Select(e) == Some(x) <==> IsRomEntry(e) && RomName(e) == x;
      }
    }
    r
  }

  /** How many entries pass the filter, counting repeats. */
  function KeptCount(entries: seq<string>): nat
  {
    if entries == [] then 0 else (if IsRomEntry(entries[0]) then 1 else 0) + KeptCount(entries[1..])
  }

  lemma {:induction false} SelectedLength(entries: seq<string>)
    ensures |FilterMap(Select, entries)| == KeptCount(entries)
  {
    if entries != [] {
      SelectedLength(entries[1..]);
    }
  }

  /** One catalog name per kept entry: nothing is merged, so repeated names stay repeated. */
  lemma RomNamesLength(entries: seq<string>)
    ensures |RomNames(entries)| == KeptCount(entries)
  {
    SelectedLength(entries);
    var selected := FilterMap(Select, entries);
    assert |Sort(selected)| == |multiset(Sort(selected))| == |multiset(selected)| == |selected|;
  }

  /** Catalog of one entry. */
  lemma RomNamesOfOne(entry: string)
    ensures RomNames([entry]) == if IsRomEntry(entry) then [RomName(entry)] else []
  {
    assert [entry][1..] == [];
  }

  /**
   * Catalogs of two parts of a listing add up: each kept entry contributes
   * its own ROM name, so duplicates survive.
   */
  lemma RomNamesAppend(a: seq<string>, b: seq<string>)
    ensures multiset(RomNames(a + b)) == multiset(RomNames(a)) + multiset(RomNames(b))
  {
    FilterMapAppend(Select, a, b);
  }

  /** The same entries in any order give the same catalog. */
  lemma RomNamesIgnoreOrder(a: seq<string>, b: seq<string>)
    requires multiset(a) == multiset(b)
    ensures RomNames(a) == RomNames(b)
  {
    FilterMapPermutation(Select, a, b);
    SortIgnoresOrder(FilterMap(Select, a), FilterMap(Select, b));
  }

  /** The archive lines are captured in no fixed order; the catalog does not depend on it. */
  lemma CatalogIgnoresLineOrder(lines1: seq<Option<string>>, lines2: seq<Option<string>>, archivePath: string)
    requires multiset(lines1) == multiset(lines2)
    ensures RomNames(Listing.SevenZipFilePaths(0, lines1, archivePath).value)
         == RomNames(Listing.SevenZipFilePaths(0, lines2, archivePath).value)
  {
    Listing.PathsIgnoreLineOrder(lines1, lines2, archivePath);
    RomNamesIgnoreOrder(Listing.SevenZipFilePaths(0, lines1, archivePath).value,
                        Listing.SevenZipFilePaths(0, lines2, archivePath).value);
  }

  /** A plain `<rom>.xml` entry (no dot in the ROM name) yields exactly `<rom>`. */
  lemma RomNameOfPlainEntry(rom: string)
    requires '.' !in rom
    ensures RomName(rom + ".xml") == rom
  {
    ReplaceSkipsPrefix(rom, ".xml", ".xml", "");
    assert ".xml"[4..] == [];
    assert rom + "" == rom;
  }

  /** The filter ignores case: `galaga.XML` is a ROM entry. */
  lemma UpperCaseExtensionSelected()
    ensures IsRomEntry("galaga.XML")
  {
    var name := "galaga.XML";
    assert name[|name| - 4..] == ".XML";
    assert ToUpper('x') == 'X' && ToUpper('m') == 'M' && ToUpper('l') == 'L';
  }

  /** The removal does not ignore case: `galaga.XML` keeps its extension in the catalog. */
  lemma UpperCaseExtensionKept()
    ensures RomName("galaga.XML") == "galaga.XML"
  {
    assert "galaga.XML" == "galaga" + ".XML";
    ReplaceSkipsPrefix("galaga", ".XML", ".xml", "");
    assert ".XML"[..4][1] != ".xml"[1];
    assert ".XML"[1..] == "XML";
    assert Replace(".XML", ".xml", "") == ".XML";
  }

  /** A `<rom>.xml` entry other than the template is kept as `<rom>` when the ROM name has no dot. */
  lemma SelectPlainEntry(rom: string)
    requires '.' !in rom && rom + ".xml" != TemplateEntry
    ensures Select(rom + ".xml") == Some(rom)
  {
    RomNameOfPlainEntry(rom);
    var name := rom + ".xml";
    assert name[|name| - 4..] == ".xml";
    assert ToUpper('x') == 'X' && ToUpper('m') == 'M' && ToUpper('l') == 'L';
  }

  lemma SelectExamples()
    ensures Select("foo.xml") == Some("foo") && Select("bar.xml") == Some("bar")
    ensures Select("_template.xml") == None && Select("baz.txt") == None
  {
    assert "foo.xml" == "foo" + ".xml" && "bar.xml" == "bar" + ".xml";
    SelectPlainEntry("foo");
    SelectPlainEntry("bar");
    assert Select("baz.txt") == None by {
      assert "baz.txt"[3..] == ".txt";
      assert ToUpper(".txt"[1]) != ToUpper(".xml"[1]);
    }
  }

  lemma SelectedExample()
    ensures FilterMap(Select, ["foo.xml", "bar.xml", "_template.xml", "baz.txt"]) == ["foo", "bar"]
  {
    SelectExamples();
    var entries := ["foo.xml", "bar.xml", "_template.xml", "baz.txt"];
    assert FilterMap(Select, entries[3..]) == [] by { assert entries[3..][1..] == []; }
    assert FilterMap(Select, entries[2..]) == [] by { assert entries[2..][1..] == entries[3..]; }
    assert FilterMap(Select, entries[1..]) == ["bar"] by { assert entries[1..][1..] == entries[2..]; }
  }

  /** A listing with two games, the template and a non-markup file. */
  lemma CatalogExample()
    ensures RomNames(["foo.xml", "bar.xml", "_template.xml", "baz.txt"]) == ["bar", "foo"]
  {
    SelectedExample();
    assert ["foo", "bar"][1..] == ["bar"] && ["bar"][1..] == [];
    assert !Le("foo", "bar");
  }

  /** Every occurrence of `.xml` goes, not only the extension. */
  lemma EveryOccurrenceRemoved()
    ensures RomName("a.xml.xml") == "a"
  {
    RomNameOfPlainEntry("a");
    assert "a.xml.xml" == "a" + ".xml" + ".xml";
    assert "a.xml.xml"[1..] == ".xml.xml";
    assert ".xml.xml"[..4] == ".xml" && ".xml.xml"[4..] == ".xml";
    assert ".xml"[..4] == ".xml" && ".xml"[4..] == [];
  }

  /** Two entries that reduce to the same name both stay in the catalog. */
  lemma DuplicateNamesKept()
    ensures RomNames(["a.xml", "a.xml.xml"]) == ["a", "a"]
  {
    EveryOccurrenceRemoved();
    RomNameOfPlainEntry("a");
    assert "a.xml" == "a" + ".xml";
    assert IsRomEntry("a.xml") && IsRomEntry("a.xml.xml") by {
      assert "a.xml.xml"[5..] == ".xml";
      assert "a.xml"[1..] == ".xml";
    }
    assert ["a.xml", "a.xml.xml"][1..] == ["a.xml.xml"] && ["a.xml.xml"][1..] == [];
    assert Le("a", "a") by {
      assert "a"[1..] == [];
    }
  }
}
