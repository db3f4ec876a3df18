/** The command line `MameDefaultScoresDumper.exe [-txt or -xml] [seconds to wait per game]`. */
module Arguments {
  import opened Seqs
  import opened Strings

  /** A validated command line: the output format and the delay handed to the emulator session. */
  datatype Config = Config(textMode: bool, secondsDelay: int)

  /** Delay used when the command line does not have two arguments. */
  const DefaultDelay := 30

  /** The accepted command lines, as one value; `None` means the usage text is printed. */
  function Arguments(args: seq<string>): Option<Config>
  {
    if |args| == 2 && (args[0] == "-txt" || args[0] == "-xml") then
      match ParseInt32(args[1])
      case Some(delay) => Some(Config(args[0] == "-txt", delay))
      case None => None
    else None
  }

  /**
   * The flag-by-flag validation of the program entry: the mode flag and the
   * delay are checked independently, and a failed parse leaves the delay at 0.
   */
  method ParseArgs(args: seq<string>) returns (validArgs: bool, textMode: bool, secondsDelay: int)
    ensures validArgs <==> |args| == 2 && (args[0] == "-txt" || args[0] == "-xml") && ParseInt32(args[1]).Some?
    ensures textMode <==> |args| == 2 && args[0] == "-txt"
    ensures |args| != 2 ==> secondsDelay == DefaultDelay
    ensures |args| == 2 ==> secondsDelay == (match ParseInt32(args[1]) case Some(n) => n case None => 0)
    ensures validArgs <==> Arguments(args).Some?
    ensures validArgs ==> Arguments(args).value == Config(textMode, secondsDelay)
  {
    validArgs := true;
    textMode := false;
    secondsDelay := DefaultDelay;

    if |args| == 2 {
      if args[0] == "-txt" {
        textMode := true;
      } else if args[0] != "-xml" {
        validArgs := false;
      }

      var parsed := ParseInt32(args[1]);
      secondsDelay := if parsed.Some? then parsed.value else 0;
      if parsed.None? {
        validArgs := false;
      }
    } else {
      validArgs := false;
    }
  }

  /** No lower bound is placed on the delay: a negative number of seconds is accepted. */
  lemma NegativeDelayAccepted()
    ensures Arguments(["-xml", "-5"]) == Some(Config(false, -5))
  {
    assert "-5"[1..] == "5" && "5"[..0] == [];
  }

  /** Every 32-bit delay, negative ones included, is accepted as printed, in either mode. */
  lemma DelayAccepted(textMode: bool, n: int)
    requires Int32Min <= n <= Int32Max
    ensures Arguments([if textMode then "-txt" else "-xml", IntToString(n)]) == Some(Config(textMode, n))
  {
    ParseFormatRoundTrip(n);
  }

  /** The mode flag is compared exactly: another spelling is a usage error. */
  lemma ModeIsCaseSensitive()
    ensures Arguments(["-TXT", "30"]) == None
  {
  }
}
