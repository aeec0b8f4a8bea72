/** The format registry: the six encodable formats, their canonical file
    extensions, and the lookups in both directions (format.go). */
module Registry {
  import opened Wrappers

  /** A format identifier. Go declares `type Format int`, so any integer is a
      value of the type; only 0..5 name a format. */
  type Format = int

  const JPEG: Format := 0
  const PNG: Format := 1
  const GIF: Format := 2
  const TIFF: Format := 3
  const BMP: Format := 4
  const PDF: Format := 5

  /** The two errors the registry and the dispatcher report. */
  datatype Error =
    | UnsupportedImageFormat  // "unsupported image format"
    | NoSuchFormat            // "no such format"

  /** The fixed table `formatExts`: one lower-case extension per format. */
  const FormatExts: map<Format, string> :=
    map[JPEG := "jpg", PNG := "png", GIF := "gif", TIFF := "tif", BMP := "bmp", PDF := "pdf"]

  /** The encodable formats are exactly 0..5. */
  predicate IsFormat(f: Format) {
    JPEG <= f <= PDF
  }

  /** ASCII lower-casing of one character. */
  function LowerChar(c: char): (r: char)
    ensures 'A' <= c <= 'Z' ==> 'a' <= r <= 'z' && r as int - c as int == 32
    ensures !('A' <= c <= 'Z') ==> r == c
  {
    if 'A' <= c <= 'Z' then (c as int + 32) as char else c
  }

  /** `strings.ToLower`, restricted to ASCII letters. */
  function ToLower(s: string): (r: string)
    ensures |r| == |s|
    ensures forall i :: 0 <= i < |s| ==> r[i] == LowerChar(s[i])
    ensures forall i :: 0 <= i < |r| ==> !('A' <= r[i] <= 'Z')
  {
    seq(|s|, i requires 0 <= i < |s| => LowerChar(s[i]))
  }

  /** Lower-casing twice is lower-casing once. */
  lemma ToLowerIdempotent(s: string)
    ensures ToLower(ToLower(s)) == ToLower(s)
  {
  }

  /** Reference definition of extension parsing: the first format, in
      ordinal order from `from`, whose extension is the lower-cased input. */
  function FindExtension(ext: string, from: nat): (r: Option<Format>)
    requires from <= PDF + 1
    decreases PDF + 1 - from
    ensures r.Some? ==> from <= r.value <= PDF && FormatExts[r.value] == ext
    ensures r.None? ==> forall f :: from <= f <= PDF ==> FormatExts[f] != ext
  {
    if from > PDF then None
    else if FormatExts[from] == ext then Some(from)
    else FindExtension(ext, from + 1)
  }

  /** The format an extension names, if any. */
  function ExtensionFormat(ext: string): Option<Format> {
    FindExtension(ToLower(ext), 0)
  }

  /** No two formats share an extension, so the order in which Go visits the
      map cannot change which format an extension resolves to. */
  lemma FormatExtsInjective(f: Format, g: Format)
    requires f in FormatExts && g in FormatExts
    requires FormatExts[f] == FormatExts[g]
    ensures f == g
  {
  }

  /** `ExtensionFormat(ext)` is `f` exactly when the lower-cased `ext` is the
      table's entry for `f`, and it is absent exactly when the lower-cased
      `ext` is no entry at all. */
  lemma {:induction false} ExtensionFormatSpec(ext: string, f: Format)
    ensures ExtensionFormat(ext) == Some(f) <==> f in FormatExts && FormatExts[f] == ToLower(ext)
    ensures ExtensionFormat(ext).None? <==> ToLower(ext) !in FormatExts.Values
  {
    var r := FindExtension(ToLower(ext), 0);
    if f in FormatExts && FormatExts[f] == ToLower(ext) {
      assert IsFormat(f);
      if r.Some? {
        FormatExtsInjective(f, r.value);
      }
    }
    if ToLower(ext) in FormatExts.Values {
      var g :| g in FormatExts && FormatExts[g] == ToLower(ext);
      assert IsFormat(g);
    }
  }

  /** `FormatFromExtension`: lower-case the input, then walk the table in
      whatever order the map yields its keys (Go leaves it unspecified) and
      return the first format whose extension matches; on no match return
      -1 and an error. */
  method FormatFromExtension(ext: string) returns (f: Format, err: Option<Error>)
    ensures err.None? <==> ExtensionFormat(ext).Some?
    ensures err.None? ==> f == ExtensionFormat(ext).value && FormatExts[f] == ToLower(ext)
    ensures err.Some? ==> f == -1 && err == Some(UnsupportedImageFormat)
  {
    var lower := ToLower(ext);
    var unvisited := FormatExts.Keys;
    while unvisited != {}
      invariant unvisited <= FormatExts.Keys
      invariant forall k :: k in FormatExts && k !in unvisited ==> FormatExts[k] != lower
      decreases unvisited
    {
      var k :| k in unvisited;
      if lower == FormatExts[k] {
        ExtensionFormatSpec(ext, k);
        return k, None;
      }
      unvisited := unvisited - {k};
    }
    ExtensionFormatSpec(ext, 0);
    return -1, Some(UnsupportedImageFormat);
  }

  /** `StringOfFormat`: the canonical extension of a format, or an error for
      a value outside the table. */
  function StringOfFormat(f: Format): (r: Result<string, Error>)
    ensures r.Ok? <==> IsFormat(f)
    ensures r.Ok? ==> r.value == FormatExts[f]
    ensures r.Err? ==> r.error == NoSuchFormat
  {
    if f in FormatExts then Ok(FormatExts[f]) else Err(NoSuchFormat)
  }

  /** Registry round trip: the extension of every format parses back to it. */
  lemma ExtensionRoundTrip(f: Format)
    requires IsFormat(f)
    ensures StringOfFormat(f).Ok?
    ensures ExtensionFormat(StringOfFormat(f).value) == Some(f)
  {
    var e := FormatExts[f];
    assert ToLower(e) == e;
    ExtensionFormatSpec(e, f);
  }

  /** The other direction: an extension that parses to `f` is `f`'s canonical
      extension, up to case. */
  lemma ParsedExtensionRoundTrip(ext: string, f: Format)
    requires ExtensionFormat(ext) == Some(f)
    ensures StringOfFormat(f) == Ok(ToLower(ext))
  {
    ExtensionFormatSpec(ext, f);
  }

  /** Matching ignores case: "Jpg" and "JPG" parse as "jpg" does. */
  lemma ExtensionCaseInsensitive(ext: string)
    ensures ExtensionFormat(ext) == ExtensionFormat(ToLower(ext))
  {
    ToLowerIdempotent(ext);
  }

  /** Concrete cases: "Jpg" is JPEG; "txt" is rejected, and so are the long
      forms "jpeg" and "tiff", which the table does not hold. */
  lemma ExtensionExamples()
    ensures ExtensionFormat("Jpg") == Some(JPEG)
    ensures ExtensionFormat("txt").None?
    ensures ExtensionFormat("jpeg").None?
    ensures ExtensionFormat("tiff").None?
  {
    assert ToLower("Jpg") == "jpg";
    assert ToLower("txt") == "txt";
    assert ToLower("jpeg") == "jpeg";
    assert ToLower("tiff") == "tiff";
  }
}
