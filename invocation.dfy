/** Building one engine invocation: the caller's arguments with their
    defaults, the effective settings after the configuration map is
    consulted, the exact argument list handed to the engine, and the name of
    the result file the engine is expected to write. */
module Invocation {
  import opened Wrappers
  import opened RustStr
  import opened Decimal

  /** `Args`: output stem, language, engine options keyed by flag, DPI and
      the box-mode switch. */
  datatype Args = Args(outFilename: string, lang: string, config: map<string, string>, dpi: Int32, boxfile: bool)

  /** `Args::new`: output stem `out`, English, no options, 150 DPI, text
      mode. */
  function NewArgs(): (a: Args)
    ensures a.outFilename == "out" && a.lang == "eng" && a.config == map[]
    ensures a.dpi == 150 && !a.boxfile
  {
    Args(outFilename := "out", lang := "eng", config := map[], dpi := 150, boxfile := false)
  }

  const DEFAULT_PSM := "3"
  const DEFAULT_OEM := "3"
  const DEFAULT_TESSTABLE := "tessedit_create_tsv=0"

  /** What one invocation asks of the engine. */
  datatype Settings = Settings(
    image: string, outStem: string, lang: string, dpi: Int32,
    psm: string, oem: string, tessFlag: string, makebox: bool)

  /** The value configured for `key`, or `default` when there is none. */
  function ConfigOr(config: map<string, string>, key: string, default: string): string
  {
    if key in config then config[key] else default
  }

  /** The settings `run_tesseract` derives from the image argument and `args`:
      `psm`, `oem` and `-c` come from the configuration map when present. */
  function EffectiveSettings(imageArg: string, args: Args): Settings
  {
    Settings(imageArg, args.outFilename, args.lang, args.dpi,
             ConfigOr(args.config, "psm", DEFAULT_PSM),
             ConfigOr(args.config, "oem", DEFAULT_OEM),
             ConfigOr(args.config, "-c", DEFAULT_TESSTABLE),
             args.boxfile)
  }

  /** The engine's command-line contract: image, output stem, then the flags
      in a fixed order, then `makebox` or an empty argument. */
  function CommandLine(s: Settings): (argv: seq<string>)
  {
    [s.image, s.outStem, "-l", s.lang, "--dpi", IntToDecimal(s.dpi),
     "--psm", s.psm, "--oem", s.oem, "-c", s.tessFlag,
     if s.makebox then "makebox" else ""]
  }

  /** Reads an argument list the way the engine's command line is laid out;
      `None` for anything that does not follow that layout. */
  function ParseCommandLine(argv: seq<string>): Option<Settings>
  {
    if |argv| != 13 || argv[2] != "-l" || argv[4] != "--dpi" || argv[6] != "--psm"
       || argv[8] != "--oem" || argv[10] != "-c" then None
    else match ParseI32(argv[5])
      case None => None
      case Some(dpi) =>
        if argv[12] == "makebox" then Some(Settings(argv[0], argv[1], argv[3], dpi, argv[7], argv[9], argv[11], true))
        else if argv[12] == "" then Some(Settings(argv[0], argv[1], argv[3], dpi, argv[7], argv[9], argv[11], false))
        else None
  }

  /** The argument list carries every setting in its place: reading it back
      gives the settings it was built from. */
  lemma CommandLineRoundTrip(s: Settings)
    ensures ParseCommandLine(CommandLine(s)) == Some(s)
  {
    ParseOfDecimal(s.dpi);
  }

  /** Two invocations with different settings never share an argument list. */
  lemma CommandLineInjective(s: Settings, t: Settings)
    requires CommandLine(s) == CommandLine(t)
    ensures s == t
  {
    CommandLineRoundTrip(s);
    CommandLineRoundTrip(t);
  }

  /** The argument list `run_tesseract` passes to the engine. `boxarg`,
      `tesstable_arg`, `psm` and `oem` start at their defaults and are
      overwritten when box mode is on or the configuration names them. */
  method BuildCommandLine(imageArg: string, args: Args) returns (argv: seq<string>)
    ensures |argv| == 13
    ensures argv[0] == imageArg && argv[1] == args.outFilename && argv[3] == args.lang
    ensures ParseI32(argv[5]) == Some(args.dpi)
    ensures argv[7] == (if "psm" in args.config then args.config["psm"] else "3")
    ensures argv[9] == (if "oem" in args.config then args.config["oem"] else "3")
    ensures argv[11] == (if "-c" in args.config then args.config["-c"] else "tessedit_create_tsv=0")
    ensures argv[12] == "makebox" <==> args.boxfile
    ensures argv == CommandLine(EffectiveSettings(imageArg, args))
  {
    var boxarg := "";
    if args.boxfile {
      boxarg := "makebox";
    }
    var tesstableArg := DEFAULT_TESSTABLE;
    if "-c" in args.config {
      tesstableArg := args.config["-c"];
    }
    var psm := DEFAULT_PSM;
    var oem := DEFAULT_OEM;
    if "psm" in args.config {
      psm := args.config["psm"];
    }
    if "oem" in args.config {
      oem := args.config["oem"];
    }
    argv := [imageArg, args.outFilename, "-l", args.lang, "--dpi", IntToDecimal(args.dpi),
             "--psm", psm, "--oem", oem, "-c", tesstableArg, boxarg];
    ParseOfDecimal(args.dpi);
  }

  /** With `Args::new` the engine is asked for English at 150 DPI, page
      segmentation and engine mode 3, no TSV, text mode, into `out.txt`. */
  lemma DefaultInvocation(imageArg: string)
    ensures CommandLine(EffectiveSettings(imageArg, NewArgs()))
      == [imageArg, "out", "-l", "eng", "--dpi", "150", "--psm", "3", "--oem", "3",
          "-c", "tessedit_create_tsv=0", ""]
    ensures ResultFileName(NewArgs().outFilename, NewArgs().boxfile) == "out.txt"
  {
    assert NatToDecimal(1) == "1";
    assert NatToDecimal(15) == "15";
    assert NatToDecimal(150) == "150";
    assert IntToDecimal(150) == "150";
    ShorterNotContained("out", ".txt");
    assert ResultFileName("out", false) == "out.txt";
  }

  /** The extension of the result file for the mode. */
  function ResultSuffix(boxfile: bool): string
  {
    if boxfile then ".box" else ".txt"
  }

  /** The file `run_tesseract` reads after the engine exits: the stem with
      `.txt` (`.box` in box mode) added, unless the stem already contains
      that text anywhere. */
  function ResultFileName(stem: string, boxfile: bool): (name: string)
    ensures Contains(name, ResultSuffix(boxfile))
    ensures name == stem <==> Contains(stem, ResultSuffix(boxfile))
    ensures name == stem || name == stem + ResultSuffix(boxfile)
  {
    var suffix := ResultSuffix(boxfile);
    if Contains(stem, suffix) then stem
    else
      ContainsSuffix(stem, suffix);
      stem + suffix
  }

  /** Naming the result file twice changes nothing more. */
  lemma ResultFileNameIdempotent(stem: string, boxfile: bool)
    ensures ResultFileName(ResultFileName(stem, boxfile), boxfile) == ResultFileName(stem, boxfile)
  {
  }

  /** The suffix test is `contains`, not `ends_with`: a stem that merely
      mentions `.txt` (`scan.txt.old`) is used unchanged, and one ending in
      `.box` (`page.box`) still gets `.txt` in text mode. */
  lemma ResultFileNameContainsNotEndsWith(mentions: string, boxStem: string)
    requires mentions == "scan.txt.old" && boxStem == "page.box"
    ensures ResultFileName(mentions, false) == mentions
    ensures ResultFileName(boxStem, false) == boxStem + ".txt"
    ensures ResultFileName(boxStem, true) == boxStem
  {
    ContainsAt(mentions, ".txt", 4);
    MissingCharNotContained(boxStem, ".txt", 1);
    ContainsAt(boxStem, ".box", 4);
  }
}
