/** The encode dispatcher: a format and a list of options select one codec
    and the part of the configuration it is given (format.go). The codecs
    themselves are not modelled; the dispatcher's result is the call it
    would make. */
module Dispatch {
  import opened Wrappers
  import opened Registry
  import Tiff
  import opened Config
  import opened Images

  /** `FormatOption`: a format and the caller's options. */
  datatype FormatOption = FormatOption(format: Format, encodeOption: seq<EncodeOption>)

  /** The one codec call an encode makes, with the arguments it passes. */
  datatype CodecCall =
    | JpegEncode(img: Image, quality: int)
    | PngEncode(img: Image, compressionLevel: CompressionLevel)
    | GifEncode(img: Image, numColors: int, quantizer: Option<Quantizer>, drawer: Option<Drawer>)
    | TiffEncode(img: Image, compression: Tiff.CompressionType, predictor: bool)
    | BmpEncode(img: Image)
    | PdfEncode(imgs: seq<Image>, quality: int)

  /** The format whose codec a call invokes. */
  function CodecFormat(call: CodecCall): (f: Format)
    ensures IsFormat(f)
  {
    match call
    case JpegEncode(_, _) => JPEG
    case PngEncode(_, _) => PNG
    case GifEncode(_, _, _, _) => GIF
    case TiffEncode(_, _, _) => TIFF
    case BmpEncode(_) => BMP
    case PdfEncode(_, _) => PDF
  }

  /** The configuration fields each format's codec is given. */
  function RelevantFields(f: Format): set<Field> {
    if f == JPEG || f == PDF then {QualityField}
    else if f == PNG then {PngCompressionLevelField}
    else if f == GIF then {GifNumColorsField, GifQuantizerField, GifDrawerField}
    else if f == TIFF then {TiffCompressionTypeField}
    else {}
  }

  /** The settings a codec call carries, by the configuration field they
      come from. The TIFF codec's constant is named back in the library's
      own terms. */
  function Settings(call: CodecCall): map<Field, FieldValue> {
    match call
    case JpegEncode(_, q) => map[QualityField := IntValue(q)]
    case PngEncode(_, l) => map[PngCompressionLevelField := IntValue(l)]
    case GifEncode(_, n, q, d) =>
      map[GifNumColorsField := IntValue(n), GifQuantizerField := QuantizerValue(q), GifDrawerField := DrawerValue(d)]
    case TiffEncode(_, c, _) => map[TiffCompressionTypeField := IntValue(Tiff.Code(c))]
    case BmpEncode(_) => map[]
    case PdfEncode(_, q) => map[QualityField := IntValue(q)]
  }

  /** The images a codec call encodes. */
  function EncodedImages(call: CodecCall): seq<Image> {
    match call
    case JpegEncode(img, _) => [img]
    case PngEncode(img, _) => [img]
    case GifEncode(img, _, _, _) => [img]
    case TiffEncode(img, _, _) => [img]
    case BmpEncode(img) => [img]
    case PdfEncode(imgs, _) => imgs
  }

  /** The format switch of `FormatOption.Encode`, given the built
      configuration: exactly one codec per format, or an error for any other
      format value. */
  function Dispatch(f: Format, cfg: ConfigValue, img: Image): (r: Result<CodecCall, Error>)
    reads img.Buffer()
    ensures r.Ok? <==> IsFormat(f)
    ensures r.Ok? ==> CodecFormat(r.value) == f
    ensures r.Err? ==> r.error == UnsupportedImageFormat
  {
    if f == JPEG then Ok(JpegEncode(JpegView(img), cfg.quality))
    else if f == PNG then Ok(PngEncode(img, cfg.pngCompressionLevel))
    else if f == GIF then Ok(GifEncode(img, cfg.gifNumColors, cfg.gifQuantizer, cfg.gifDrawer))
    else if f == TIFF then Ok(TiffEncode(img, Tiff.Value(cfg.tiffCompressionType), true))
    else if f == BMP then Ok(BmpEncode(img))
    else if f == PDF then Ok(PdfEncode([img], cfg.quality))
    else Err(UnsupportedImageFormat)
  }

  /** What `fo.Encode(w, img)` does: build the configuration from the
      defaults and `fo`'s options, then dispatch. */
  function EncodeResult(fo: FormatOption, img: Image): Result<CodecCall, Error>
    reads img.Buffer()
  {
    Dispatch(fo.format, BuildConfig(fo.encodeOption), img)
  }

  /** Each codec is given exactly its own format's fields, with the values
      the configuration holds; TIFF's compression goes through `Value` with
      the predictor on. */
  lemma DispatchForwardsRelevantFields(f: Format, cfg: ConfigValue, img: Image)
    requires IsFormat(f)
    ensures Dispatch(f, cfg, img).Ok?
    ensures Settings(Dispatch(f, cfg, img).value).Keys == RelevantFields(f)
    ensures forall fd :: fd in RelevantFields(f) && fd != TiffCompressionTypeField ==>
      Settings(Dispatch(f, cfg, img).value)[fd] == Get(cfg, fd)
    ensures f == TIFF ==>
      Dispatch(f, cfg, img).value.compression == Tiff.Value(cfg.tiffCompressionType) &&
      Dispatch(f, cfg, img).value.predictor
  {
  }

  /** The codec encodes the caller's image, except that JPEG may receive the
      no-copy RGBA view of it and PDF receives it as a one-element list. */
  lemma DispatchForwardsImage(f: Format, cfg: ConfigValue, img: Image)
    requires IsFormat(f)
    ensures Dispatch(f, cfg, img).Ok?
    ensures EncodedImages(Dispatch(f, cfg, img).value) == if f == JPEG then [JpegView(img)] else [img]
  {
  }

  /** The dispatcher reads nothing else from the configuration: two
      configurations that agree on a format's fields yield the same call. */
  lemma DispatchReadsOnlyRelevantFields(f: Format, cfg1: ConfigValue, cfg2: ConfigValue, img: Image)
    requires forall fd :: fd in RelevantFields(f) ==> Get(cfg1, fd) == Get(cfg2, fd)
    ensures Dispatch(f, cfg1, img) == Dispatch(f, cfg2, img)
  {
    if f == JPEG || f == PDF {
      assert Get(cfg1, QualityField) == Get(cfg2, QualityField);
    } else if f == PNG {
      assert Get(cfg1, PngCompressionLevelField) == Get(cfg2, PngCompressionLevelField);
    } else if f == GIF {
      assert Get(cfg1, GifNumColorsField) == Get(cfg2, GifNumColorsField);
      assert Get(cfg1, GifQuantizerField) == Get(cfg2, GifQuantizerField);
      assert Get(cfg1, GifDrawerField) == Get(cfg2, GifDrawerField);
    } else if f == TIFF {
      assert Get(cfg1, TiffCompressionTypeField) == Get(cfg2, TiffCompressionTypeField);
    }
  }

  /** An option on a field the format does not use, inserted anywhere in
      the option list, leaves the encode call unchanged. */
  lemma IrrelevantOptionIgnored(f: Format, pre: seq<EncodeOption>, o: EncodeOption, post: seq<EncodeOption>, img: Image)
    requires Target(o) !in RelevantFields(f)
    ensures EncodeResult(FormatOption(f, pre + [o] + post), img) == EncodeResult(FormatOption(f, pre + post), img)
  {
    var before := BuildConfig(pre);
    ApplyOptionsAppend(DefaultEncodeConfig, pre + [o], post);
    ApplyOptionsAppend(DefaultEncodeConfig, pre, post);
    assert (pre + [o])[..|pre + [o]| - 1] == pre;
    var withO := ApplyOptions(ApplyOption(before, o), post);
    var without := ApplyOptions(before, post);
    forall fd | fd in RelevantFields(f) ensures Get(withO, fd) == Get(without, fd) {
      SameFieldAfterOptions(ApplyOption(before, o), before, post, fd);
    }
    DispatchReadsOnlyRelevantFields(f, withO, without, img);
  }

  /** A zero `FormatOption` encodes as JPEG at the default quality 75. */
  lemma ZeroFormatOptionIsJpeg75(img: Image)
    ensures EncodeResult(FormatOption(JPEG, []), img) == Ok(JpegEncode(JpegView(img), 75))
  {
  }

  /** Every format value outside 0..5 (-1 included) is an error, whatever
      the options. */
  lemma UnknownFormatRejected(fo: FormatOption, img: Image)
    requires !IsFormat(fo.format)
    ensures EncodeResult(fo, img) == Err(UnsupportedImageFormat)
  {
  }

  /** A one-pixel opaque white NRGBA image goes to the JPEG codec as an RGBA
      view of the same buffer. */
  lemma OpaquePixelEncodesAsRgbaView(pix: array<Byte>)
    requires pix.Length == 4 && forall i :: 0 <= i < 4 ==> pix[i] == 0xff
    ensures
      var rect := Rectangle(Point(0, 0), Point(1, 1));
      EncodeResult(FormatOption(JPEG, []), NRGBA(pix, 4, rect)) == Ok(JpegEncode(RGBA(pix, 4, rect), 75))
  {
    var img := NRGBA(pix, 4, Rectangle(Point(0, 0), Point(1, 1)));
    assert forall row, col :: 0 <= row < 1 && 0 <= col < 1 ==> AlphaOffset(4, row, col) == 3;
    assert Opaque(img);
  }

  /** `FormatOption.Encode`: copy the defaults, call each option on the copy
      in order, then switch on the format. */
  method Encode(fo: FormatOption, img: Image) returns (r: Result<CodecCall, Error>)
    ensures r == EncodeResult(fo, img)
  {
    var cfg := new EncodeConfig.CopyOfDefaults();
    for i := 0 to |fo.encodeOption|
      invariant cfg.Current() == ApplyOptions(DefaultEncodeConfig, fo.encodeOption[..i])
    {
      cfg.Apply(fo.encodeOption[i]);
      assert fo.encodeOption[..i + 1][..i] == fo.encodeOption[..i];
    }
    assert fo.encodeOption[..|fo.encodeOption|] == fo.encodeOption;

    if fo.format == JPEG {
      if img.NRGBA? && Opaque(img) {
        var rgba := RGBA(img.pix, img.stride, img.rect);
        return Ok(JpegEncode(rgba, cfg.quality));
      }
      return Ok(JpegEncode(img, cfg.quality));
    } else if fo.format == PNG {
      return Ok(PngEncode(img, cfg.pngCompressionLevel));
    } else if fo.format == GIF {
      return Ok(GifEncode(img, cfg.gifNumColors, cfg.gifQuantizer, cfg.gifDrawer));
    } else if fo.format == TIFF {
      return Ok(TiffEncode(img, Tiff.Value(cfg.tiffCompressionType), true));
    } else if fo.format == BMP {
      return Ok(BmpEncode(img));
    } else if fo.format == PDF {
      return Ok(PdfEncode([img], cfg.quality));
    }
    return Err(UnsupportedImageFormat);
  }

  /** `setFormat`: parse the extension and pair the format with the options
      unchanged. On failure Go's named result is still the zero
      `FormatOption` (format 0, no options). */
  method SetFormat(filename: string, options: seq<EncodeOption>) returns (fo: FormatOption, err: Option<Error>)
    ensures err.None? <==> ExtensionFormat(filename).Some?
    ensures err.None? ==> fo == FormatOption(ExtensionFormat(filename).value, options)
    ensures err.Some? ==> err == Some(UnsupportedImageFormat) && fo == FormatOption(JPEG, [])
  {
    fo := FormatOption(JPEG, []);
    var format;
    format, err := FormatFromExtension(filename);
    if err.Some? {
      return;
    }
    fo := fo.(format := format, encodeOption := options);
  }
}
