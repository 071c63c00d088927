/** One engine run and the public entry points built on it. The engine, the
    PNG encoder and the working directory are not modelled: an `Environment`
    says whether the engine is installed, whether saving the converted
    buffer succeeds, what the working directory is (if it can be found at
    all), and how the engine
    answers a given argument list (its stdout, its stderr and the files
    present afterwards). */
module Pipeline {
  import opened Wrappers
  import opened RustStr
  import opened Utf8
  import opened ImageFormat
  import opened Invocation
  import opened BoxFile

  /** `ModelOutput`: the engine's diagnostic text, the result file as bytes
      and as text, and in box mode the multimap and the columns. */
  datatype ModelOutput = ModelOutput(
    info: string, bytes: seq<Byte>, dict: seq<Entry>, text: string, dataframe: seq<Series>)

  /** `ModelOutput::new`: every field empty; its bytes are still the
      encoding of its text, as in every output a run returns. */
  function NewModelOutput(): (out: ModelOutput)
    ensures out.text == [] && out.bytes == []
    ensures out.dict == [] && out.dataframe == [] && out.info == []
    ensures out.bytes == Encode(out.text) && Decode(out.bytes) == Some(out.text)
  {
    ModelOutput("", [], [], "", [])
  }

  /** What the engine leaves behind for one argument list. */
  datatype Response = Response(stdout: string, stderr: string, files: map<string, string>)

  datatype Environment = Environment(
    installed: bool, cwd: Option<string>, pngSaved: bool, engine: seq<string> -> Response)

  /** The panics of a run: the working directory cannot be found for the
      converted buffer, the result file cannot be read, or a box coordinate
      is not an `i32`. */
  datatype Panic = WorkingDirUnavailable | ResultFileUnreadable(name: string) | BadCoordinate(token: string)

  /** A call either returns or panics. */
  datatype Outcome<T> = Returned(value: T) | Panicked(panic: Panic)

  const CONVERTED_PNG := "ndarray_converted.png"

  /** The first argument of the engine: the converted buffer's file when
      there is no path but a buffer (or `""` when saving it failed), `None`
      when there is neither or the path's format is not recognised, else the
      path without its `"` characters. Finding the working directory for the
      converted buffer is unwrapped, so a buffer panics without one. */
  function ImageArg(img: Image, cwd: Option<string>, pngSaved: bool): (r: Outcome<Option<string>>)
    ensures r.Panicked? <==> img.path == [] && ElementCount(img) != 0 && cwd.None?
    ensures r.Panicked? ==> r.panic == WorkingDirUnavailable
    ensures r == Returned(None) <==>
      (img.path == [] && ElementCount(img) == 0) || (img.path != [] && !CheckImageFormat(img))
    ensures img.path == [] && ElementCount(img) != 0 && cwd.Some? ==>
      r == Returned(Some(if pngSaved then cwd.value + "/" + CONVERTED_PNG else ""))
    ensures img.path != [] && r.Returned? && r.value.Some? ==>
      '"' !in r.value.value && multiset(r.value.value) == multiset(img.path)['"' := 0]
  {
    if |img.path| == 0 && ElementCount(img) != 0 then
      match cwd
      case None => Panicked(WorkingDirUnavailable)
      case Some(dir) => Returned(Some(if pngSaved then dir + "/" + CONVERTED_PNG else ""))
    else if |img.path| == 0 then Returned(None)
    else if !CheckImageFormat(img) then Returned(None)
    else
      RemoveCharKeepsOthers(img.path, '"');
      Returned(Some(RemoveChar(img.path, '"')))
  }

  /** A non-empty path decides the image argument whatever the buffer holds. */
  lemma PathTakesPriority(img: Image, h: nat, w: nat, c: nat, cwd: Option<string>, pngSaved: bool)
    requires img.path != []
    ensures ImageArg(img, cwd, pngSaved) == ImageArg(Image(img.path, h, w, c), cwd, pngSaved)
    ensures ImageArg(img, cwd, pngSaved).Returned?
    ensures ImageArg(img, cwd, pngSaved).value.Some? ==>
      ImageArg(img, cwd, pngSaved).value.value == RemoveChar(img.path, '"')
  {
  }

  /** `"\n"` before each line, concatenated. */
  function Prefixed(lines: seq<string>): string
  {
    if lines == [] then ""
    else Prefixed(lines[..|lines| - 1]) + "\n" + lines[|lines| - 1]
  }

  /** The stream the diagnostic text is taken from: stdout, or stderr when
      stdout is empty. */
  function DiagnosticStream(stdout: string, stderr: string): string
  {
    if |stdout| == 0 then stderr else stdout
  }

  /** `output_info`: the chosen stream's lines, each after a `"\n"`. */
  function Diagnostic(stdout: string, stderr: string): string
  {
    Prefixed(Lines(DiagnosticStream(stdout, stderr)))
  }

  /** Builds `str_res` line by line, as `for_each` does. */
  method DiagnosticText(stdout: string, stderr: string) returns (info: string)
    ensures info == Diagnostic(stdout, stderr)
  {
    var lines: seq<string>;
    if |stdout| == 0 {
      lines := Lines(stderr);
    } else {
      lines := Lines(stdout);
    }
    info := "";
    for i := 0 to |lines|
      invariant info == Prefixed(lines[..i])
    {
      assert lines[..i + 1][..i] == lines[..i];
      info := info + "\n" + lines[i];
    }
    assert lines[..|lines|] == lines;
  }

  /** The prefixed lines are a `"\n"` followed by the lines joined by `"\n"`. */
  lemma {:induction false} PrefixedIsJoin(lines: seq<string>)
    requires |lines| >= 1
    ensures Prefixed(lines) == "\n" + Join(lines, '\n')
  {
    var n := |lines|;
    var init, last := lines[..n - 1], lines[n - 1];
    assert init + [last] == lines;
    if n == 1 {
      assert init == [];
      assert Prefixed(lines) == "" + "\n" + last;
    } else {
      PrefixedIsJoin(init);
      JoinAppend(init, last, '\n');
      calc {
        Prefixed(lines);
        Prefixed(init) + "\n" + last;
        ("\n" + Join(init, '\n')) + "\n" + last;
        "\n" + (Join(init, '\n') + ['\n'] + last);
        "\n" + Join(lines, '\n');
      }
    }
  }

  /** A stream without carriage returns or a final line ending comes back
      whole in the diagnostic text, behind one `"\n"`. */
  lemma DiagnosticEchoesStream(stdout: string, stderr: string)
    requires var s := DiagnosticStream(stdout, stderr); s != [] && s[|s| - 1] != '\n' && '\r' !in s
    ensures Diagnostic(stdout, stderr) == "\n" + DiagnosticStream(stdout, stderr)
  {
    var s := DiagnosticStream(stdout, stderr);
    PrefixedIsJoin(Lines(s));
    JoinOfLines(s);
  }

  /** `run_tesseract`: `None` when the engine is not installed or the image
      is unusable; a panic for a path-less buffer without a working
      directory; otherwise one engine call, then the result file read
      (panicking when it is missing) and, in box mode, parsed (panicking on
      a bad coordinate). */
  function Run(img: Image, args: Args, env: Environment): (r: Outcome<Option<ModelOutput>>)
    ensures r == Returned(None) <==>
      || !env.installed
      || (img.path == [] && ElementCount(img) == 0)
      || (img.path != [] && !CheckImageFormat(img))
    ensures r == Panicked(WorkingDirUnavailable) <==>
      env.installed && img.path == [] && ElementCount(img) != 0 && env.cwd.None?
    ensures r.Returned? && r.value.Some? ==>
      var out := r.value.value;
      && out.bytes == Encode(out.text)
      && (!args.boxfile ==> out.dict == [] && out.dataframe == [])
      && (args.boxfile ==> Columns(Lines(out.text)) == Ok(out.dataframe) && out.dict == Entries(Lines(out.text)))
  {
    if !env.installed then Returned(None)
    else match ImageArg(img, env.cwd, env.pngSaved)
      case Panicked(p) => Panicked(p)
      case Returned(None) => Returned(None)
      case Returned(Some(imageArg)) =>
        var response := env.engine(CommandLine(EffectiveSettings(imageArg, args)));
        var name := ResultFileName(args.outFilename, args.boxfile);
        if name !in response.files then Panicked(ResultFileUnreadable(name))
        else
          var contents := response.files[name];
          var info := Diagnostic(response.stdout, response.stderr);
          if !args.boxfile then Returned(Some(ModelOutput(info, Encode(contents), [], contents, [])))
          else match ParseBox(contents)
            case Err(bad) => Panicked(BadCoordinate(bad))
            case Ok(tables) => Returned(Some(ModelOutput(info, Encode(contents), tables.dict, contents, tables.dataframe)))
  }

  /** `run_tesseract` step by step: the installed check, the image argument
      in a mutable local, the argument list, the engine call, the
      diagnostic text, the result file and the box tables. */
  method RunTesseract(img: Image, args: Args, env: Environment) returns (r: Outcome<Option<ModelOutput>>)
    ensures r == Run(img, args, env)
  {
    if !env.installed {
      return Returned(None);
    }
    var imageArg := "";
    var isEmpty := IsEmptyNdarray(img);
    if |img.path| == 0 && !isEmpty {
      if env.cwd.None? {
        return Panicked(WorkingDirUnavailable);
      }
      if env.pngSaved {
        imageArg := env.cwd.value + "/" + CONVERTED_PNG;
      }
    } else if |img.path| == 0 && isEmpty {
      return Returned(None);
    } else {
      if !CheckImageFormat(img) {
        return Returned(None);
      }
      imageArg := RemoveChar(img.path, '"');
    }
    var argv := BuildCommandLine(imageArg, args);
    var response := env.engine(argv);
    var info := DiagnosticText(response.stdout, response.stderr);
    var name := ResultFileName(args.outFilename, args.boxfile);
    if name !in response.files {
      return Panicked(ResultFileUnreadable(name));
    }
    var contents := response.files[name];
    var dict: seq<Entry> := [];
    var df: seq<Series> := [];
    if args.boxfile {
      var tables := ParseBoxFile(contents);
      if tables.Err? {
        return Panicked(BadCoordinate(tables.error));
      }
      dict, df := tables.value.dict, tables.value.dataframe;
    }
    r := Returned(Some(ModelOutput(info, Encode(contents), dict, contents, df)));
  }

  /** The engine is called with the exact argument list of the effective
      settings; the run reads the file that argument list names. It panics
      without that file, and in box mode on a bad coordinate in it;
      otherwise it returns the file's text and the diagnostics. */
  lemma RunCallsEngineOnce(img: Image, args: Args, env: Environment, imageArg: string)
    requires env.installed && ImageArg(img, env.cwd, env.pngSaved) == Returned(Some(imageArg))
    ensures var argv := CommandLine(EffectiveSettings(imageArg, args));
      ParseCommandLine(argv) == Some(EffectiveSettings(imageArg, args))
    ensures var response := env.engine(CommandLine(EffectiveSettings(imageArg, args)));
      var name := ResultFileName(args.outFilename, args.boxfile);
      var r := Run(img, args, env);
      && (r == Panicked(ResultFileUnreadable(name)) <==> name !in response.files)
      && (r.Panicked? && r.panic.BadCoordinate? <==>
            args.boxfile && name in response.files && ParseBox(response.files[name]).Err?)
      && (name in response.files && (!args.boxfile || ParseBox(response.files[name]).Ok?) ==>
            r.Returned? && r.value.Some?)
      && (r.Returned? ==>
            && name in response.files
            && r.value.Some?
            && r.value.value.text == response.files[name]
            && r.value.value.info == Diagnostic(response.stdout, response.stderr))
  {
    CommandLineRoundTrip(EffectiveSettings(imageArg, args));
  }

  /** `output_bytes` holds exactly the UTF-8 encoding of `output_string`. */
  lemma RunBytesDecode(img: Image, args: Args, env: Environment)
    requires Run(img, args, env).Returned? && Run(img, args, env).value.Some?
    ensures var out := Run(img, args, env).value.value;
      Decode(out.bytes) == Some(out.text)
  {
    DecodeEncode(Run(img, args, env).value.value.text);
  }

  /** In box mode the multimap holds one entry per line of the result file
      that contains a space, split at its first space, and the columns line
      up with those entries. */
  lemma RunBoxTables(img: Image, args: Args, env: Environment)
    requires args.boxfile
    requires Run(img, args, env).Returned? && Run(img, args, env).value.Some?
    ensures var out := Run(img, args, env).value.value;
      var boxLines := BoxLines(Lines(out.text));
      && |out.dict| == |boxLines| == |out.dataframe|
      && forall k :: 0 <= k < |boxLines| ==>
           && ' ' !in out.dict[k].0
           && out.dict[k].0 + " " + out.dict[k].1 == boxLines[k]
           && out.dataframe[k].name == out.dict[k].0
           && Coordinates(Split(out.dict[k].1, ' ')) == Ok(out.dataframe[k].values)
  {
    var out := Run(img, args, env).value.value;
    EntriesOfBoxLines(Lines(out.text));
    ColumnsMatchEntries(Lines(out.text));
  }

  /** `None` and a panic both become the empty output only for `None`. */
  function OrEmpty(r: Outcome<Option<ModelOutput>>): Outcome<ModelOutput>
  {
    match r
    case Panicked(p) => Panicked(p)
    case Returned(None) => Returned(NewModelOutput())
    case Returned(Some(out)) => Returned(out)
  }

  /** `image_to_string`: the run's output, or the empty output when the run
      returned `None`; a panic of the run is the call's panic. */
  function ImageToString(img: Image, args: Args, env: Environment): (r: Outcome<ModelOutput>)
    ensures r.Panicked? <==> Run(img, args, env).Panicked?
    ensures Run(img, args, env).Panicked? ==> r == Panicked(Run(img, args, env).panic)
    ensures Run(img, args, env).Returned? && Run(img, args, env).value.Some? ==>
      r == Returned(Run(img, args, env).value.value)
    ensures r.Returned? && Run(img, args, env).value.None? ==> r.value == NewModelOutput()
    ensures !env.installed ==> r == Returned(NewModelOutput())
  {
    OrEmpty(Run(img, args, env))
  }

  /** `image_to_boxes`: the same as `image_to_string`; box mode comes only
      from the caller's `boxfile`. */
  function ImageToBoxes(img: Image, args: Args, env: Environment): (r: Outcome<ModelOutput>)
    ensures r == ImageToString(img, args, env)
  {
    OrEmpty(Run(img, args, env))
  }

  /** The combined output: text, bytes and diagnostics from the text pass,
      multimap and columns from the box pass. */
  function Merge(text: ModelOutput, boxes: ModelOutput): ModelOutput
  {
    ModelOutput(text.info, text.bytes, boxes.dict, text.text, boxes.dataframe)
  }

  /** The arguments of `image_to_data`'s third pass: the caller's, with the
      `-c` option set to `tessedit_create_tsv=1`. */
  function TableArgs(args: Args): Args
  {
    args.(config := args.config["-c" := "tessedit_create_tsv=1"])
  }

  /** `image_to_data`: a text pass, a box pass with the same arguments and
      `boxfile` set, and a third pass with `-c tessedit_create_tsv=1` whose
      output is dropped; the first pass that panics ends the call. The merged
      result is returned only when the image path passes the format check. */
  function ImageToData(img: Image, args: Args, env: Environment): (r: Outcome<ModelOutput>)
    ensures var text := ImageToString(img, args, env);
      var boxes := ImageToBoxes(img, args.(boxfile := true), env);
      var table := Run(img, TableArgs(args), env);
      && (text.Panicked? ==> r == text)
      && (text.Returned? && boxes.Panicked? ==> r == boxes)
      && (text.Returned? && boxes.Returned? && table.Panicked? ==> r == Panicked(table.panic))
      && (r.Returned? <==> text.Returned? && boxes.Returned? && table.Returned?)
      && (r.Returned? ==>
            r.value == if CheckImageFormat(img) then Merge(text.value, boxes.value) else NewModelOutput())
    ensures img.path == [] && r.Returned? ==> r.value == NewModelOutput()
  {
    var text := ImageToString(img, args, env);
    var boxes := ImageToBoxes(img, args.(boxfile := true), env);
    var tsv := Run(img, TableArgs(args), env);
    if text.Panicked? then text
    else if boxes.Panicked? then boxes
    else if tsv.Panicked? then Panicked(tsv.panic)
    else if CheckImageFormat(img) then Returned(Merge(text.value, boxes.value))
    else Returned(NewModelOutput())
  }

  /** The third pass never changes what `image_to_data` returns: two
      environments that answer the text and box passes alike give the same
      result whenever neither third pass panics. */
  lemma TsvPassIgnored(img: Image, args: Args, env1: Environment, env2: Environment)
    requires ImageToString(img, args, env1) == ImageToString(img, args, env2)
    requires ImageToBoxes(img, args.(boxfile := true), env1) == ImageToBoxes(img, args.(boxfile := true), env2)
    requires ImageToData(img, args, env1).Returned? && ImageToData(img, args, env2).Returned?
    ensures ImageToData(img, args, env1) == ImageToData(img, args, env2)
  {
  }

  /** A text pass on a recognised image path, with the engine installed and
      its result file present, returns the file's contents as the text and
      leaves the box tables empty; `image_to_data` then returns that text. */
  lemma DataTextFromTextPass(img: Image, args: Args, env: Environment)
    requires env.installed && img.path != [] && CheckImageFormat(img)
    requires ImageToData(img, args, env).Returned?
    ensures var data := ImageToData(img, args, env).value;
      var imageArg := RemoveChar(img.path, '"');
      var response := env.engine(CommandLine(EffectiveSettings(imageArg, args)));
      var name := ResultFileName(args.outFilename, args.boxfile);
      name in response.files && data.text == response.files[name]
        && data.bytes == Encode(data.text)
  {
    var imageArg := RemoveChar(img.path, '"');
    assert ImageArg(img, env.cwd, env.pngSaved) == Returned(Some(imageArg));
    RunCallsEngineOnce(img, args, env, imageArg);
  }
}
