# rs_tesseract_lib, modelled in Dafny

rs_tesseract_lib drives the Tesseract OCR engine as a child process. Its core is
`src/rust_tesseract.rs`. That file does the following:

- It finds the engine (`TesseractPath`).
- It checks an image. The image is a path, a pixel buffer of H x W x C bytes, or both.
- It builds the engine's 13-entry argument list from `Args`.
- It runs the engine and reads the result file the engine writes.
- In box mode it turns that file into a multimap from glyph to coordinate text,
  and into one integer column per glyph.
- `image_to_string`, `image_to_boxes` and `image_to_data` wrap one run, one run,
  and three runs.

This project models that core. It has one module per component:

- `Locator` holds the `TesseractPath` class, its constructors and `set_tesseract_path`.
- `ImageFormat` holds `FORMATS`, `check_image_format` and `is_empty_ndarray`.
- `Invocation` holds `Args`, the argument list and the result-file name.
- `BoxFile` parses box-mode result files.
- `Pipeline` holds `run_tesseract`, its diagnostic text and the three public entry points.

Three modules model the Rust standard library the core relies on:

- `RustStr` models `split`, `split_once`, `lines`, `contains`, `replace` and ASCII case mapping.
- `Decimal` models `i32::to_string` and `str::parse::<i32>`.
- `Utf8` models `String::as_bytes` and a decoder for it.

The engine is not run. The engine, the working directory and the PNG encoder are
inputs, carried by an `Environment`:

- The engine is a function from an argument list to a `Response`: stdout, stderr,
  and the files present after the run.
- `installed` stands for the spawn probe of `check_if_installed`.
- `cwd` is the working directory, or none when `current_dir()` fails.
- `pngSaved` says whether saving the converted buffer succeeds.

A run either returns or panics. Three panics are modelled explicitly:

- `WorkingDirUnavailable` when a path-less buffer is given and the working
  directory cannot be found (`current_dir().unwrap()`).
- `ResultFileUnreadable` when the result file is missing.
- `BadCoordinate` when a box coordinate is not an `i32`.

Four behaviours of the code are easy to miss, and the model keeps each of them:

- The result file keeps the stem unchanged when the stem *contains* `.txt` or
  `.box` anywhere. The code does not check that the stem *ends* with it
  (`Invocation.ResultFileNameContainsNotEndsWith`).
- `image_to_boxes` does not switch box mode on. It is `image_to_string` under
  another name, and box mode comes only from the caller's `boxfile`.
- `image_to_data` ends with `check_image_format` on the path. An image given only
  as a pixel buffer therefore always yields the empty output from
  `image_to_data`, even after three successful engine runs (`Pipeline.ImageToData`).
- A missing result file or a malformed box coordinate panics. Neither gives an
  empty result.

Line splitting follows current Rust `str::lines`: a `'\r'` is removed only when
a `'\n'` follows it. `BufRead::lines` splits the same way, so one `Lines` function
serves both the result file and the engine's output streams.

## Model

| member | source | states |
|---|---|---|
| ImageFormat.CheckImageFormat | src/rust_tesseract.rs:220-233 | a path is accepted exactly when the upper-cased text after its last `.` is one of `FORMATS`; an empty path is never accepted |
| ImageFormat.Extension | src/rust_tesseract.rs:221-222 | the extension is the text after the last `.`: it has no `.`, ends the path, is the whole path exactly when there is no `.`, and otherwise follows a `.` |
| ImageFormat.LowerNeverListed | src/rust_tesseract.rs:224-228 | the lower-cased membership test can never succeed, because every entry of `FORMATS` is upper case |
| ImageFormat.FormatOfExtension | src/rust_tesseract.rs:220-233 | `stem.ext` is accepted exactly when `ext`, upper-cased, is listed, whatever the stem |
| ImageFormat.ListedFormatsAccepted | src/rust_tesseract.rs:19-21 | every listed format is accepted both as written and lower-cased |
| ImageFormat.IsEmptyNdarray | src/rust_tesseract.rs:187-193 | the loop over the elements reports empty exactly when the element count is 0, that is, when some dimension is 0 |
| Invocation.NewArgs | src/rust_tesseract.rs:158-168 | `Args::new` gives the output stem `out`, language `eng`, an empty configuration, 150 DPI and text mode |
| Invocation.DefaultInvocation | src/rust_tesseract.rs:158-168 | `Args::new` gives the argument list `<image> out -l eng --dpi 150 --psm 3 --oem 3 -c tessedit_create_tsv=0 ""` and the result file `out.txt` |
| Invocation.BuildCommandLine | src/rust_tesseract.rs:369-435 | the argument list has 13 entries; each entry is stated, with `psm`, `oem` and `-c` taken from the configuration or defaulted to `3`, `3`, `tessedit_create_tsv=0`; the last entry is `makebox` exactly in box mode; the DPI entry parses back to the DPI; the list equals `CommandLine` of the effective settings |
| Invocation.CommandLineRoundTrip | src/rust_tesseract.rs:417-430 | reading the argument list back in the engine's positional layout recovers every setting |
| Invocation.CommandLineInjective | src/rust_tesseract.rs:417-430 | different effective settings never produce the same argument list |
| Invocation.ResultFileName | src/rust_tesseract.rs:459-474 | the file name always contains the mode's suffix; it equals the stem exactly when the stem already contains the suffix, and is stem plus suffix otherwise |
| Invocation.ResultFileNameIdempotent | src/rust_tesseract.rs:459-474 | naming the result file of a result-file name changes nothing |
| Invocation.ResultFileNameContainsNotEndsWith | src/rust_tesseract.rs:461-469 | `scan.txt.old` is used unchanged; `page.box` becomes `page.box.txt` in text mode and stays `page.box` in box mode |
| BoxFile.Coordinates | src/rust_tesseract.rs:491-494 | on success, one `i32` per token, each token parsing to its value; on failure, the error is a token of the line that does not parse |
| BoxFile.ParseCoordinates | src/rust_tesseract.rs:490-494 | the token loop pushes each parsed token and stops at the first one that does not parse, giving exactly `Coordinates` of the tokens |
| BoxFile.ParseBoxFile | src/rust_tesseract.rs:479-499 | the nested loops give exactly `ParseBox` of the file: the multimap insertions and columns for all lines, or the first bad token |
| BoxFile.CoordinatesErrPersists | src/rust_tesseract.rs:491-494 | once a prefix of a line's tokens fails, the whole line fails on the same token |
| BoxFile.ColumnsErrPersists | src/rust_tesseract.rs:482-498 | once a prefix of the lines fails, the whole file fails on the same token |
| BoxFile.EntriesOfBoxLines | src/rust_tesseract.rs:482-486 | each line containing a space gives one multimap insertion, in file order: a glyph without a space, then the rest, which rejoined with a space give back the line; lines without a space give none |
| BoxFile.ColumnsMatchEntries | src/rust_tesseract.rs:488-496 | when parsing succeeds, there is one column per multimap insertion, named by its glyph and holding the parsed tokens of its coordinate text |
| BoxFile.BadTokenFails | src/rust_tesseract.rs:491-494 | a token that is not an `i32` anywhere in a line makes the line fail |
| BoxFile.EmptyTokenAborts | src/rust_tesseract.rs:491-492 | a box line with two spaces in a row or a trailing space aborts the whole parse, because its empty token does not parse |
| BoxFile.BoxLineParses | src/rust_tesseract.rs:483-494 | a well-formed record's line splits at its first space into glyph and coordinate text, and the coordinate text parses back to the coordinates |
| BoxFile.CoordinatesOfDecimals | src/rust_tesseract.rs:491-494 | coordinates written in decimal parse back to themselves |
| BoxFile.BoxLinesParse | src/rust_tesseract.rs:482-497 | the lines of well-formed records give one insertion and one column per record, in order |
| BoxFile.BoxFileRoundTrip | src/rust_tesseract.rs:479-499 | a box file written from well-formed records parses back into exactly those records, as multimap insertions and as columns |
| BoxFile.TwoGlyphExample | src/rust_tesseract.rs:479-499 | `A 10 20 30 40\nB 11 21 31 41` gives the insertions `A -> "10 20 30 40"`, `B -> "11 21 31 41"` and the columns `A=[10,20,30,40]`, `B=[11,21,31,41]`; the multimap gives `["10 20 30 40"]` for key `A` and `["11 21 31 41"]` for key `B` |
| Pipeline.NewModelOutput | src/rust_tesseract.rs:131-141 | all five fields are empty: no diagnostics, no text, no bytes, no multimap and no columns; its bytes are still the encoding of its text |
| Pipeline.ImageArg | src/rust_tesseract.rs:333-363 | no argument exactly when there is neither a path nor buffer elements, or the path's format is not recognised; a path-less buffer panics exactly when the working directory cannot be found, and otherwise gives `<cwd>/ndarray_converted.png`, or `""` when saving fails; a path gives the path with every `"` removed and every other character kept |
| Pipeline.PathTakesPriority | src/rust_tesseract.rs:336-363 | with a non-empty path the buffer plays no part and nothing panics, and the argument is the path with `"` removed |
| Pipeline.DiagnosticText | src/rust_tesseract.rs:449-456 | the loop builds the chosen stream's lines, each after a `"\n"`; the stream is stderr when stdout is empty, stdout otherwise |
| Pipeline.PrefixedIsJoin | src/rust_tesseract.rs:449-456 | the prefixed lines are a `"\n"` followed by the lines joined by `"\n"` |
| Pipeline.DiagnosticEchoesStream | src/rust_tesseract.rs:449-456 | a stream without `'\r'` and without a final line ending comes back whole in the diagnostic text, behind one `"\n"` |
| Pipeline.Run | src/rust_tesseract.rs:320-510 | returns `None` exactly when the engine is not installed, there is no image, or the path's format is not recognised; panics for want of a working directory exactly when an installed engine is given a path-less buffer and `current_dir()` fails; a returned output's bytes are the encoding of its text; text mode leaves the multimap and columns empty; box mode fills them from the text's lines |
| Pipeline.RunTesseract | src/rust_tesseract.rs:320-510 | the step-by-step run, with mutable locals, returns exactly `Run` |
| Pipeline.RunCallsEngineOnce | src/rust_tesseract.rs:394-507 | the engine receives the argument list of the effective settings, which reads back to them; the run panics with `ResultFileUnreadable` exactly when the named result file is missing, and with `BadCoordinate` exactly when box mode finds a token in that file that is not an `i32`; when the file is present, and in box mode parses, the run returns; a returned output's text is that file and its diagnostics come from that engine call's streams |
| Pipeline.RunBytesDecode | src/rust_tesseract.rs:501-507 | `output_bytes` decodes as UTF-8 back to `output_string` |
| Pipeline.RunBoxTables | src/rust_tesseract.rs:478-507 | in box mode there is one multimap insertion and one column per line containing a space, in order, split at the first space and parsed token by token |
| Pipeline.ImageToString | src/rust_tesseract.rs:312-318 | panics exactly when the run panics, with the run's panic; passes a run's output through unchanged; gives the empty `ModelOutput::new()` when the run returns `None`, for instance when the engine is not installed |
| Pipeline.ImageToBoxes | src/rust_tesseract.rs:304-310 | the same result as `image_to_string` for the same arguments |
| Pipeline.ImageToData | src/rust_tesseract.rs:277-302 | the first pass that panics, in the order text pass, box pass, `tessedit_create_tsv=1` pass, gives the call's panic; the call returns exactly when none of the three passes panics, and the result is the text pass's text, bytes and diagnostics with the box pass's multimap and columns when the path's format is recognised, the empty output otherwise; a path-less image always yields the empty output |
| Pipeline.TsvPassIgnored | src/rust_tesseract.rs:292-294 | the third pass, with `tessedit_create_tsv=1`, never changes what is returned when it does not panic |
| Pipeline.DataTextFromTextPass | src/rust_tesseract.rs:277-290 | for a recognised path, `image_to_data`'s text is the result file that the text pass's argument list names, and its bytes are that text's encoding |
| Locator.TesseractPath.constructor | src/rust_tesseract.rs:28-30 | `new` has no location |
| Locator.TesseractPath.UseCurrentDir | src/rust_tesseract.rs:32-61 | the location is the engine below the working directory, none when the working directory is unavailable (with the corrected fallback, see Findings) |
| Locator.TesseractPath.UseCertainPath | src/rust_tesseract.rs:63-65 | the location is the caller's path |
| Locator.TesseractPath.UseDefault | src/rust_tesseract.rs:67-77 | the location is the bare command `tesseract`, or `tesseract.exe` on Windows |
| Locator.TesseractPath.SetTesseractPath | src/rust_tesseract.rs:79-81 | the location becomes the given path, whatever it was |
| Locator.CurrentDirEngineAsWritten | src/rust_tesseract.rs:35-55 | as written, no location exactly when the working directory is unavailable |
| Locator.AsWrittenDoublesFallback | src/rust_tesseract.rs:37-51 | as written, a non-UTF-8 working directory gives `./tesseract/tesseract.exe/tesseract/tesseract.exe` on Windows and `./tesseract/tesseract/tesseract/tesseract` elsewhere, neither of which is the engine below `.` |
| Locator.CurrentDirEngine | src/rust_tesseract.rs:32-61 | corrected: no location exactly when the working directory is unavailable; otherwise the engine below the directory, or below `.` when its name is not UTF-8 |
| Locator.CorrectedAgreesElsewhere | src/rust_tesseract.rs:35-61 | the correction changes nothing except for a directory name that is not UTF-8 |
| RustStr.Split | src/rust_tesseract.rs:491 | `split` gives at least one piece, and no piece holds the separator |
| RustStr.JoinSplit | src/rust_tesseract.rs:491 | the pieces of `split`, joined by the separator, give back the string |
| RustStr.SplitJoin | src/rust_tesseract.rs:491 | pieces free of the separator, joined and split again, give back the pieces |
| RustStr.AfterLast | src/rust_tesseract.rs:221-222 | the text after the last separator: it holds no separator, ends the string, is shorter than the string exactly when the separator occurs, and then follows a separator |
| RustStr.SplitOnce | src/rust_tesseract.rs:485 | `split_once` gives a head without the separator, and head, separator and tail give back the line |
| RustStr.IndexAfterFree | src/rust_tesseract.rs:485 | in `head + " " + tail` with a space-free head, the first space is the one after the head |
| RustStr.RemoveChar | src/rust_tesseract.rs:362 | `replace('"', "")` leaves no `"` and changes a string without one not at all |
| RustStr.RemoveCharKeepsOthers | src/rust_tesseract.rs:362 | removing `"` keeps every other character, as many times as it occurred |
| RustStr.RemoveCharAppend | src/rust_tesseract.rs:362 | removing `"` from a concatenation removes it from each part, so the kept characters stay in order |
| RustStr.ToUpper | src/rust_tesseract.rs:223 | `to_uppercase` on ASCII maps each character to its upper case, keeping the length |
| RustStr.ToLower | src/rust_tesseract.rs:224 | `to_lowercase` on ASCII maps each character to its lower case, keeping the length |
| RustStr.UpperOfLower | src/rust_tesseract.rs:223-224 | upper-casing ignores the case a string was written in |
| RustStr.ContainsSuffix | src/rust_tesseract.rs:461-462 | a stem with the suffix appended contains the suffix |
| RustStr.Lines | src/rust_tesseract.rs:482 | no line holds a `'\n'`, and there are no lines exactly for the empty text |
| RustStr.CrlfLine | src/rust_tesseract.rs:451-455 | a line ended by `"\r\n"` comes out of `lines` without the `'\r'` and the `'\n'`, followed by the lines of the rest |
| RustStr.LinesOfJoin | src/rust_tesseract.rs:482 | lines without line breaks whose last line is not empty come back from their `'\n'`-join |
| RustStr.JoinOfLines | src/rust_tesseract.rs:451-455 | a text without `'\r'` and without a final line ending is the `'\n'`-join of its lines |
| Decimal.IntToDecimal | src/rust_tesseract.rs:404 | `to_string` gives at least one character and no space or line break |
| Decimal.ParseOfDecimal | src/rust_tesseract.rs:492 | every `i32` written by `to_string` parses back to itself with `parse::<i32>` |
| Decimal.DigitsOfDecimal | src/rust_tesseract.rs:492 | the decimal digits of a natural number read back to it |
| Decimal.ParseI32 | src/rust_tesseract.rs:492 | the empty token is not an `i32` |
| Utf8.DecodeEncode | src/rust_tesseract.rs:503 | `as_bytes` is the UTF-8 encoding: the bytes decode back to the string |
| Utf8.DecodeEncodeChar | src/rust_tesseract.rs:503 | one character's bytes decode back to it, whatever follows them |
| Utf8.EncodeAppend | src/rust_tesseract.rs:503 | the bytes of a concatenation are the concatenated bytes |
| Utf8.EncodeAscii | src/rust_tesseract.rs:503 | an ASCII string's bytes are its character codes |

## Left out

- Spawning processes is left out. It covers `check_if_installed` (a spawn probe), the engine spawn and `wait_with_output`, the exit status and its log line, and the Windows `creation_flags`. An oracle stands in for the engine, keyed by the argument list and deterministic. Windows and other platforms pass the same arguments.
- `get_tesseract_version` runs another process and is not modelled. Its stream handling matches `DiagnosticText`.
- The process-wide `RwLock` location and `get_tesseract_installed_path` / `set_tesseract_installed_path` are left out: locking and poisoning are concurrency. The location itself is the `TesseractPath` class, and its `set_tesseract_path` is modelled.
- Converting the buffer to an RGB image and encoding the PNG are left out. This includes `ndarray_to_image` and its panic for fewer than 3 channels, which comes before the working directory is looked up. Whether saving succeeds is an input.
- `read_to_string` is reduced to a lookup in the engine's files. A result file that is not valid UTF-8 is not modelled, nor is a stream line that is not valid UTF-8 (the `line.unwrap()` on stdout and stderr).
- `println!` logging and the `Display` impls are left out.
- `MultiMap` and polars `Series` are internal to their libraries. The multimap is its sequence of insertions; `BoxFile.Lookup` reads a key's values. A `Series` is a name and a column of `i32`.
- The `type_of` assertions at the start of `run_tesseract` always hold for these types and are not modelled.
- Library crate wrappers outside `src/rust_tesseract.rs` are not part of this model.
- ImageFormat.CheckImageFormat: rejects extensions whose Unicode upper case is a listed format only through a non-ASCII letter. Rust's `to_uppercase` maps `ı` to `I`, `ſ` to `S` and the ligatures `ﬀ ﬁ ﬂ ﬃ ﬄ ﬅ ﬆ` to ASCII letters, so the code accepts `scan.gıf` and `scan.tiﬀ` and the model does not.
- RustStr.ToUpper: covers ASCII letters only. Unicode case mappings, such as `ß` becoming `SS` or `ı` becoming `I`, are left out. That causes the `ImageFormat.CheckImageFormat` difference above.
- RustStr.ToLower: covers ASCII letters only. This cannot change a result: the lower-cased membership test never succeeds, whatever the mapping (`ImageFormat.LowerNeverListed`).
- ImageFormat.Extension: is stated directly as the text after the last `.`. No lemma ties it to the last piece of `RustStr.Split`, whose proofs do not index its last element.
- Decimal.ParseI32: states only the rejection of the empty token. The full grammar is in its definition, and `Decimal.ParseOfDecimal` states the round trip.
- Locator.TesseractPath.UseCurrentDir: models the corrected fallback directory `.`, not the code as written (see Findings).

## Findings

| source | as written | input that shows it | evidently intended | confidence | as-written member | corrected member |
|---|---|---|---|---|---|---|
| src/rust_tesseract.rs:38-51 | when the working directory's name is not valid UTF-8, `unwrap_or` substitutes `./tesseract/tesseract[.exe]` for the directory, and the format string appends `/tesseract/tesseract[.exe]` again | a working directory whose name is not UTF-8. On Windows, the only target the file builds for because line 10 imports `std::os::windows::process::CommandExt`, the location becomes `./tesseract/tesseract.exe/tesseract/tesseract.exe`; the other branch gives `./tesseract/tesseract/tesseract/tesseract` | the fallback directory is `.`, giving `./tesseract/tesseract.exe` (or `./tesseract/tesseract`) | not executed | Locator.AsWrittenDoublesFallback | Locator.CurrentDirEngine |
