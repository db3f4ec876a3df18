/**
 * Running the `hi2txt` converter on one ROM's score state: its command
 * line, the text captured from its two output streams, and the
 * classification of that text into a success or an error.
 */
module Converter {
  import opened Seqs
  import opened Strings
  import opened Layout

  const XmlFlag := "-xml "
  const StateFlag := "-r \""
  const DatFlag := "\" -hiscoredat \""

  /** `{0}-r "{1}" -hiscoredat "{2}"` with `-xml ` for `{0}` unless in text mode. */
  function ConverterArguments(textMode: bool, statePath: string, datPath: string): string
  {
    (if textMode then "" else XmlFlag) + (StateFlag + (statePath + (DatFlag + (datPath + "\""))))
  }

  /** What a converter reads from its command line. */
  datatype Invocation = Invocation(textMode: bool, statePath: string, datPath: string)

  /** Position of the first double quote, or the length when there is none. */
  function IndexOfQuote(s: string): (k: nat)
    ensures k <= |s|
    ensures forall i :: 0 <= i < k ==> s[i] != '"'
    ensures k < |s| ==> s[k] == '"'
    decreases |s|
  {
    if s == [] || s[0] == '"' then 0 else 1 + IndexOfQuote(s[1..])
  }

  /** Reads the two quoted paths after the format flag. */
  function ParsePaths(rest: string): Option<(string, string)>
  {
    if !StartsWith(rest, StateFlag) then None
    else
      var tail := rest[|StateFlag|..];
      var k := IndexOfQuote(tail);
      var after := tail[k..];
      if !StartsWith(after, DatFlag) || |after| <= |DatFlag| || after[|after| - 1] != '"' then None
      else Some((tail[..k], after[|DatFlag|..|after| - 1]))
  }

  /** Reads an argument string back: the format flag, the quoted state path and the quoted database path. */
  function ParseArguments(s: string): Option<Invocation>
  {
    var textMode := !StartsWith(s, XmlFlag);
    match ParsePaths(if textMode then s else s[|XmlFlag|..])
    case None => None
    case Some((statePath, datPath)) => Some(Invocation(textMode, statePath, datPath))
  }

  /** The first quote of `p + rest` is the one that opens `rest` when `p` has none. */
  lemma QuoteAfter(p: string, rest: string)
    requires '"' !in p && |rest| > 0 && rest[0] == '"'
    ensures IndexOfQuote(p + rest) == |p|
  {
    var q := p + rest;
    assert q[|p|] == '"';
    assert forall i :: 0 <= i < |p| ==> q[i] == p[i] != '"';
  }

  lemma PathsRoundTrip(statePath: string, datPath: string)
    requires '"' !in statePath
    ensures ParsePaths(StateFlag + (statePath + (DatFlag + (datPath + "\"")))) == Some((statePath, datPath))
  {
    var after := DatFlag + (datPath + "\"");
    var tail := statePath + after;
    var rest := StateFlag + tail;
    assert rest[..|StateFlag|] == StateFlag && rest[|StateFlag|..] == tail;
    assert after[0] == '"';
    QuoteAfter(statePath, after);
    assert tail[..|statePath|] == statePath && tail[|statePath|..] == after;
    assert after[..|DatFlag|] == DatFlag;
    assert after[|DatFlag|..|after| - 1] == datPath;
  }

  /** The argument string is unambiguous as long as the state path holds no double quote. */
  lemma ArgumentsRoundTrip(textMode: bool, statePath: string, datPath: string)
    requires '"' !in statePath
    ensures ParseArguments(ConverterArguments(textMode, statePath, datPath))
         == Some(Invocation(textMode, statePath, datPath))
  {
    var s := ConverterArguments(textMode, statePath, datPath);
    var rest := StateFlag + (statePath + (DatFlag + (datPath + "\"")));
    PathsRoundTrip(statePath, datPath);
    if textMode {
      assert s == rest;
      assert s[1] != XmlFlag[1];
    } else {
      assert s[..|XmlFlag|] == XmlFlag && s[|XmlFlag|..] == rest;
    }
  }

  // ----- the captured output -----

  /** `Environment.NewLine` on the Windows platform the program runs on. */
  const NewLine := "\r\n"

  /** The text `AppendLine` adds for one received line; a null line adds only the line break. */
  function LineText(line: Option<string>): string
  {
    match line
    case None => ""
    case Some(text) => text
  }

  /** The `StringBuilder` contents after every received line was appended, in arrival order. */
  function Captured(lines: seq<Option<string>>): string
    decreases |lines|
  {
    if lines == [] then "" else LineText(lines[0]) + (NewLine + Captured(lines[1..]))
  }

  /** Appending one more line extends the captured text by that line and a line break. */
  lemma {:induction false} CapturedAppend(lines: seq<Option<string>>, line: Option<string>)
    ensures Captured(lines + [line]) == Captured(lines) + (LineText(line) + NewLine)
    decreases |lines|
  {
    var last := LineText(line) + NewLine;
    if lines == [] {
      assert [] + [line] == [line];
      assert [line][1..] == [];
      assert Captured([line]) == LineText(line) + (NewLine + "");
      assert NewLine + "" == NewLine;
    } else {
      var head, rest := LineText(lines[0]), Captured(lines[1..]);
      assert Captured(lines + [line]) == head + (NewLine + (rest + last)) by {
        assert (lines + [line])[0] == lines[0];
        assert (lines + [line])[1..] == lines[1..] + [line];
        CapturedAppend(lines[1..], line);
      }
      assert Captured(lines) == head + (NewLine + rest);
      assert head + (NewLine + (rest + last)) == (head + (NewLine + rest)) + last;
    }
  }

  /**
   * The two outcomes a converter run can have: an `Error` prefix (any case)
   * is an error, any other text a success. A run never yields "missing".
   */
  function Classify(output: string): (kind: ResultKind)
    ensures kind != MissingResult
    ensures kind == ErrorResult <==> StartsWithIgnoreCase(output, "Error")
  {
    if StartsWithIgnoreCase(output, "Error") then ErrorResult else SuccessResult
  }

  /** A prefix no longer than the head is decided by the head alone. */
  lemma PrefixInHead(head: string, tail: string, prefix: string)
    requires |prefix| <= |head|
    ensures StartsWithIgnoreCase(head + tail, prefix) <==> StartsWithIgnoreCase(head, prefix)
  {
    assert (head + tail)[..|prefix|] == head[..|prefix|];
  }

  /** A line break inside the first five characters stops an `Error` match. */
  lemma BreakStopsMatch(head: string, tail: string)
    requires |head| < 5
    ensures !StartsWithIgnoreCase(head + (NewLine + tail), "Error")
  {
    var out := head + (NewLine + tail);
    if |out| >= 5 {
      assert out[|head|] == '\r';
      assert out[..5][|head|] == '\r';
      assert ToUpper("Error"[|head|]) != '\r';
    }
  }

  /**
   * Only the first received line decides the class: the line break after a
   * short first line stops the prefix match, and a null first line never matches.
   */
  lemma ClassifyCaptured(lines: seq<Option<string>>)
    ensures Classify(Captured(lines)) == ErrorResult
        <==> |lines| > 0 && lines[0].Some? && StartsWithIgnoreCase(lines[0].value, "Error")
  {
    if lines != [] {
      var first := LineText(lines[0]);
      var rest := NewLine + Captured(lines[1..]);
      assert Captured(lines) == first + rest;
      if |first| >= 5 {
        PrefixInHead(first, rest, "Error");
      } else {
        BreakStopsMatch(first, Captured(lines[1..]));
      }
    }
  }

  /** Any output that starts with `ERROR` is filed as an error, never as missing. */
  lemma UpperCaseErrorIsError(rest: string)
    ensures Classify("ERROR" + rest) == ErrorResult
  {
    var out := "ERROR" + rest;
    assert out[..5] == "ERROR";
    assert ToUpper('R') == 'R' && ToUpper('r') == 'R' && ToUpper('o') == 'O' && ToUpper('E') == 'E';
  }
}
