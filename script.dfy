/**
 * The AutoHotkey script run beside each emulator session: it waits the
 * configured number of seconds and then presses Escape to close the game.
 */
module Script {
  import opened Strings

  const Indent := "                    "
  const Placeholder := "{0}"

  /** The script text up to the `{0}` placeholder for the delay in seconds ... */
  const ScriptHead := "\n" + Indent + "#NoTrayIcon\n" + Indent + "Sleep "

  /**
   * ... and after it: the delay is followed by `000` (milliseconds), then
   * Escape is pressed and released. The text is cut at its two braces.
   */
  const Milliseconds := "000\n" + Indent + "Send "
  const EscapeDown := "Escape down}\n" + Indent + "Sleep 50\n" + Indent + "Send "
  const EscapeUp := "Escape up}\n" + Indent + "Exit\n" + "                "
  const ScriptTail := Milliseconds + ("{" + (EscapeDown + ("{" + EscapeUp)))

  /** The verbatim script of the program, placeholder included. */
  const AhkTemplate := ScriptHead + (Placeholder + ScriptTail)

  /** `ahkScript.Replace("{0}", secondsDelay.ToString())` */
  function AhkScript(secondsDelay: int): string
  {
    Replace(AhkTemplate, Placeholder, IntToString(secondsDelay))
  }

  /** A brace that does not open the placeholder is copied like any other character. */
  lemma BracePassesThrough(a: string, b: string, replacement: string)
    requires '{' !in a && |b| > 0 && b[0] != '0'
    ensures Replace(a + ("{" + b), Placeholder, replacement) == a + ("{" + Replace(b, Placeholder, replacement))
  {
    var x := "{" + b;
    assert x[1..] == b;
    if |x| >= 3 {
      assert x[..3] != Placeholder by { assert x[1] == b[0]; }
    }
    ReplaceSkipsPrefix(a, x, Placeholder, replacement);
  }

  /** The Escape key sequences contain braces but not the placeholder, so they pass through. */
  lemma TailUnchanged(replacement: string)
    ensures Replace(ScriptTail, Placeholder, replacement) == ScriptTail
  {
    ReplaceAbsent(EscapeUp, Placeholder, replacement);
    BracePassesThrough(EscapeDown, EscapeUp, replacement);
    BracePassesThrough(Milliseconds, EscapeDown + ("{" + EscapeUp), replacement);
  }

  lemma PlaceholderReplaced(head: string, tail: string, replacement: string)
    requires '{' !in head
    requires Replace(tail, Placeholder, replacement) == tail
    ensures Replace(head + (Placeholder + tail), Placeholder, replacement) == head + replacement + tail
  {
    var rest := Placeholder + tail;
    assert rest[..3] == Placeholder && rest[3..] == tail;
    ReplaceSkipsPrefix(head, rest, Placeholder, replacement);
  }

  lemma HeadHasNoBrace()
    ensures '{' !in ScriptHead
  {
    assert '{' !in Indent;
  }

  /** Substitution changes the placeholder and nothing else. */
  lemma AhkScriptShape(secondsDelay: int)
    ensures AhkScript(secondsDelay) == ScriptHead + IntToString(secondsDelay) + ScriptTail
  {
    var digits := IntToString(secondsDelay);
    HeadHasNoBrace();
    TailUnchanged(digits);
    PlaceholderReplaced(ScriptHead, ScriptTail, digits);
  }
}
