/** Where the engine lives: `TesseractPath`, an optional path or command
    name that its constructors choose and `set_tesseract_path` overwrites.
    The working directory and the target platform are parameters. */
module Locator {
  import opened Wrappers

  /** What `current_dir()` gives: an error, a directory whose name is not
      valid UTF-8, or a directory name. */
  datatype CurrentDir = Unavailable | NotUtf8 | Dir(name: string)

  /** The engine's location below a directory. */
  function EngineBelow(windows: bool): string
  {
    if windows then "tesseract/tesseract.exe" else "tesseract/tesseract"
  }

  /** The bare command name `use_default` relies on the search path for. */
  function DefaultCommand(windows: bool): string
  {
    if windows then "tesseract.exe" else "tesseract"
  }

  /** `path` is the engine's location below `dir`. */
  predicate LocatedBelow(path: string, dir: string, windows: bool)
  {
    path == dir + "/" + EngineBelow(windows)
  }

  /** `use_current_dir` as written: the directory name, or the fallback text
      `./tesseract/tesseract[.exe]` when it is not UTF-8, followed by
      `/tesseract/tesseract[.exe]`. The fallback is already a full engine
      path, so it gets the engine's location appended a second time. */
  function CurrentDirEngineAsWritten(cwd: CurrentDir, windows: bool): (r: Option<string>)
    ensures r.None? <==> cwd.Unavailable?
  {
    match cwd
    case Unavailable => None
    case NotUtf8 => Some("./" + EngineBelow(windows) + "/" + EngineBelow(windows))
    case Dir(d) => Some(d + "/" + EngineBelow(windows))
  }

  /** With a working directory that is not UTF-8, the path as written is not
      the engine below `.`: on Windows and elsewhere it names the engine's
      location twice. */
  lemma AsWrittenDoublesFallback(doubledExe: string, doubled: string)
    requires doubledExe == "./tesseract/tesseract.exe/tesseract/tesseract.exe"
    requires doubled == "./tesseract/tesseract/tesseract/tesseract"
    ensures CurrentDirEngineAsWritten(NotUtf8, true) == Some(doubledExe)
    ensures !LocatedBelow(CurrentDirEngineAsWritten(NotUtf8, true).value, ".", true)
    ensures CurrentDirEngineAsWritten(NotUtf8, false) == Some(doubled)
    ensures !LocatedBelow(CurrentDirEngineAsWritten(NotUtf8, false).value, ".", false)
  {
    DoubledOnWindows(doubledExe);
    DoubledElsewhere(doubled);
  }

  /** The Windows branch of the as-written fallback. */
  lemma DoubledOnWindows(doubled: string)
    requires doubled == "./tesseract/tesseract.exe/tesseract/tesseract.exe"
    ensures CurrentDirEngineAsWritten(NotUtf8, true) == Some(doubled)
    ensures !LocatedBelow(CurrentDirEngineAsWritten(NotUtf8, true).value, ".", true)
  {
    WindowsHalves(doubled);
    var e := EngineBelow(true);
    WindowsPieces(e);
    assert CurrentDirEngineAsWritten(NotUtf8, true).value == ("./" + e) + ("/" + e);
    assert |"." + "/" + e| == 25;
  }

  /** The branch for other platforms of the as-written fallback. */
  lemma DoubledElsewhere(doubled: string)
    requires doubled == "./tesseract/tesseract/tesseract/tesseract"
    ensures CurrentDirEngineAsWritten(NotUtf8, false) == Some(doubled)
    ensures !LocatedBelow(CurrentDirEngineAsWritten(NotUtf8, false).value, ".", false)
  {
    ElsewhereHalves(doubled);
    var e := EngineBelow(false);
    ElsewherePieces(e);
    assert CurrentDirEngineAsWritten(NotUtf8, false).value == ("./" + e) + ("/" + e);
    assert |"." + "/" + e| == 21;
  }

  // The literal pieces the two branches above are compared with, one small
  // equality each, so that no proof compares a whole path character by
  // character.

  lemma WindowsHalves(doubled: string)
    requires doubled == "./tesseract/tesseract.exe/tesseract/tesseract.exe"
    ensures doubled == "./tesseract/tesseract.exe" + "/tesseract/tesseract.exe"
  {
  }

  lemma WindowsPieces(e: string)
    requires e == "tesseract/tesseract.exe"
    ensures "./" + e == "./tesseract/tesseract.exe"
    ensures "/" + e == "/tesseract/tesseract.exe"
  {
  }

  lemma ElsewhereHalves(doubled: string)
    requires doubled == "./tesseract/tesseract/tesseract/tesseract"
    ensures doubled == "./tesseract/tesseract" + "/tesseract/tesseract"
  {
  }

  lemma ElsewherePieces(e: string)
    requires e == "tesseract/tesseract"
    ensures "./" + e == "./tesseract/tesseract"
    ensures "/" + e == "/tesseract/tesseract"
  {
  }

  /** `use_current_dir` with the fallback directory `.` that the fallback
      text evidently means: the engine below the working directory, or
      below `.` when the directory's name is not UTF-8. */
  function CurrentDirEngine(cwd: CurrentDir, windows: bool): (r: Option<string>)
    ensures r.None? <==> cwd.Unavailable?
    ensures cwd.Dir? ==> r.Some? && LocatedBelow(r.value, cwd.name, windows)
    ensures cwd.NotUtf8? ==> r.Some? && LocatedBelow(r.value, ".", windows)
  {
    match cwd
    case Unavailable => None
    case NotUtf8 => Some("." + "/" + EngineBelow(windows))
    case Dir(d) => Some(d + "/" + EngineBelow(windows))
  }

  /** The corrected version differs from the code as written only for a
      directory name that is not UTF-8. */
  lemma CorrectedAgreesElsewhere(cwd: CurrentDir, windows: bool)
    requires !cwd.NotUtf8?
    ensures CurrentDirEngine(cwd, windows) == CurrentDirEngineAsWritten(cwd, windows)
  {
  }

  /** `TesseractPath`. */
  class TesseractPath {
    var path: Option<string>

    /** `TesseractPath::new`: no location. */
    constructor ()
      ensures path == None
    {
      path := None;
    }

    /** `use_current_dir`: the engine below the working directory; no
        location when the working directory cannot be found. */
    constructor UseCurrentDir(cwd: CurrentDir, windows: bool)
      ensures path == CurrentDirEngine(cwd, windows)
    {
      path := CurrentDirEngine(cwd, windows);
    }

    /** `use_certain_path`: the caller's path. */
    constructor UseCertainPath(s: string)
      ensures path == Some(s)
    {
      path := Some(s);
    }

    /** `use_default`: the bare command name for the platform. */
    constructor UseDefault(windows: bool)
      ensures path == Some(DefaultCommand(windows))
    {
      path := Some(DefaultCommand(windows));
    }

    /** `set_tesseract_path`: overwrites the location, whatever it was. */
    method SetTesseractPath(s: string)
      modifies this
      ensures path == Some(s)
    {
      path := Some(s);
    }
  }
}
