/** The image descriptor and its checks: the fixed table of recognised
    formats, the extension test on the path, and the emptiness test on the
    pixel buffer. */
module ImageFormat {
  import opened RustStr

  /** The formats the engine is trusted to read, upper case. */
  const FORMATS: seq<string> := ["JPEG", "JPG", "PNG", "PBM", "PGM", "PPM", "TIFF", "BMP", "GIF", "WEBP"]

  /** An image given by a path, or by an H x W x C buffer of bytes (only its
      dimensions matter to the pipeline), or both. */
  datatype Image = Image(path: string, height: nat, width: nat, channels: nat)

  /** The number of elements of the pixel buffer. */
  function ElementCount(img: Image): nat
  {
    img.height * img.width * img.channels
  }

  /** The extension `check_image_format` takes from `split(".")`: the text
      after the last `.`, or the whole path when it has no `.`. */
  function Extension(path: string): (ext: string)
    ensures '.' !in ext
    ensures |ext| <= |path| && path[|path| - |ext|..] == ext
    ensures '.' !in path <==> ext == path
    ensures '.' in path ==> path[|path| - |ext| - 1] == '.'
  {
    AfterLast(path, '.')
  }

  /** `check_image_format`: the extension, lower-cased or upper-cased, is in
      the table. Only the upper-cased test can ever succeed, so the check is
      a case-insensitive membership test of the extension. */
  function CheckImageFormat(img: Image): (ok: bool)
    ensures ok <==> ToUpper(Extension(img.path)) in FORMATS
    ensures img.path == [] ==> !ok
  {
    var ext := Extension(img.path);
    LowerNeverListed(ext);
    ToLower(ext) in FORMATS || ToUpper(ext) in FORMATS
  }

  /** Every entry of the table starts with an ASCII capital, which a
      lower-cased text never does. */
  lemma LowerNeverListed(ext: string)
    ensures ToLower(ext) !in FORMATS
  {
  }

  /** A path `stem.ext` is accepted exactly when `ext`, in any mix of cases,
      names a listed format; what comes before the last `.` plays no part. */
  lemma {:induction false} FormatOfExtension(stem: string, ext: string)
    requires '.' !in ext
    ensures CheckImageFormat(Image(stem + "." + ext, 0, 0, 0)) <==> ToUpper(ext) in FORMATS
  {
    var path := stem + "." + ext;
    var e := Extension(path);
    assert path[|stem|] == '.';
    assert path[|path| - |ext|..] == ext;
    assert e == ext;
  }

  /** Every listed format is accepted, whatever the case it is written in. */
  lemma ListedFormatsAccepted(stem: string, ext: string)
    requires '.' !in ext
    requires ToUpper(ext) in FORMATS
    ensures CheckImageFormat(Image(stem + "." + ext, 0, 0, 0))
    ensures CheckImageFormat(Image(stem + "." + ToLower(ext), 0, 0, 0))
  {
    FormatOfExtension(stem, ext);
    UpperOfLower(ext);
    assert '.' !in ToLower(ext) by {
      forall k | 0 <= k < |ext| ensures ToLower(ext)[k] != '.' { assert ext[k] in ext; }
    }
    FormatOfExtension(stem, ToLower(ext));
  }

  /** `is_empty_ndarray`: walks the buffer's elements, clearing the flag at
      the first one, so the buffer is empty exactly when a dimension is 0. */
  method IsEmptyNdarray(img: Image) returns (isEmpty: bool)
    ensures isEmpty <==> ElementCount(img) == 0
    ensures isEmpty <==> img.height == 0 || img.width == 0 || img.channels == 0
  {
    isEmpty := true;
    var n := img.height * img.width * img.channels;
    for k := 0 to n
      invariant isEmpty <==> k == 0
    {
      isEmpty := false;
    }
    if img.height > 0 && img.width > 0 && img.channels > 0 {
      assert img.height * img.width >= 1;
      assert n >= img.height * img.width;
    }
  }
}
