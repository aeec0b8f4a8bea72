/** The encode configuration: six knobs, a fixed default, and the option
    constructors that each overwrite one knob (format.go). */
module Config {
  import opened Wrappers
  import opened Tiff

  /** A `draw.Quantizer` supplied by the caller, kept opaque. */
  datatype Quantizer = Quantizer(id: nat)

  /** A `draw.Drawer` supplied by the caller (for example Floyd-Steinberg),
      kept opaque. */
  datatype Drawer = Drawer(id: nat)

  /** `png.CompressionLevel`, and the PNG codec's default level. */
  type CompressionLevel = int
  const DefaultCompression: CompressionLevel := 0

  /** The value of an `encodeConfig` record. A nil quantizer or drawer is
      `None`. */
  datatype ConfigValue = ConfigValue(
    quality: int,
    gifNumColors: int,
    gifQuantizer: Option<Quantizer>,
    gifDrawer: Option<Drawer>,
    pngCompressionLevel: CompressionLevel,
    tiffCompressionType: TIFFCompression)

  /** `defaultEncodeConfig`. */
  const DefaultEncodeConfig := ConfigValue(75, 256, None, None, DefaultCompression, TIFFLZW)

  /** The six option constructors. Go returns a closure that assigns one
      field through a pointer; here each closure is a tagged record of its
      argument, and `ApplyOption` is what calling it does. */
  datatype EncodeOption =
    | Quality(quality: int)
    | GIFNumColors(numColors: int)
    | GIFQuantizer(quantizer: Option<Quantizer>)
    | GIFDrawer(drawer: Option<Drawer>)
    | PNGCompressionLevel(level: CompressionLevel)
    | TIFFCompressionType(compressionType: TIFFCompression)

  /** The fields of a configuration, to speak of them one at a time. */
  datatype Field =
    | QualityField
    | GifNumColorsField
    | GifQuantizerField
    | GifDrawerField
    | PngCompressionLevelField
    | TiffCompressionTypeField

  /** The content of one field. */
  datatype FieldValue =
    | IntValue(n: int)
    | QuantizerValue(q: Option<Quantizer>)
    | DrawerValue(d: Option<Drawer>)

  /** The content of field `fd` of `c`. */
  function Get(c: ConfigValue, fd: Field): FieldValue {
    match fd
    case QualityField => IntValue(c.quality)
    case GifNumColorsField => IntValue(c.gifNumColors)
    case GifQuantizerField => QuantizerValue(c.gifQuantizer)
    case GifDrawerField => DrawerValue(c.gifDrawer)
    case PngCompressionLevelField => IntValue(c.pngCompressionLevel)
    case TiffCompressionTypeField => IntValue(c.tiffCompressionType)
  }

  /** The field an option writes. */
  function Target(o: EncodeOption): Field {
    match o
    case Quality(_) => QualityField
    case GIFNumColors(_) => GifNumColorsField
    case GIFQuantizer(_) => GifQuantizerField
    case GIFDrawer(_) => GifDrawerField
    case PNGCompressionLevel(_) => PngCompressionLevelField
    case TIFFCompressionType(_) => TiffCompressionTypeField
  }

  /** The value an option writes into its field. */
  function Written(o: EncodeOption): FieldValue {
    match o
    case Quality(q) => IntValue(q)
    case GIFNumColors(n) => IntValue(n)
    case GIFQuantizer(q) => QuantizerValue(q)
    case GIFDrawer(d) => DrawerValue(d)
    case PNGCompressionLevel(l) => IntValue(l)
    case TIFFCompressionType(t) => IntValue(t)
  }

  /** Two configurations are the same when every field is. */
  lemma ConfigExtensionality(c: ConfigValue, d: ConfigValue)
    requires forall fd :: Get(c, fd) == Get(d, fd)
    ensures c == d
  {
    assert Get(c, QualityField) == Get(d, QualityField);
    assert Get(c, GifNumColorsField) == Get(d, GifNumColorsField);
    assert Get(c, GifQuantizerField) == Get(d, GifQuantizerField);
    assert Get(c, GifDrawerField) == Get(d, GifDrawerField);
    assert Get(c, PngCompressionLevelField) == Get(d, PngCompressionLevelField);
    assert Get(c, TiffCompressionTypeField) == Get(d, TiffCompressionTypeField);
  }

  /** Calling one option on a configuration: it writes its argument into
      its own field and leaves every other field unchanged. Options do no
      validation: an out-of-range quality or colour count is stored as is. */
  function ApplyOption(c: ConfigValue, o: EncodeOption): (r: ConfigValue)
    ensures Get(r, Target(o)) == Written(o)
    ensures forall fd :: fd != Target(o) ==> Get(r, fd) == Get(c, fd)
  {
    match o
    case Quality(q) => c.(quality := q)
    case GIFNumColors(n) => c.(gifNumColors := n)
    case GIFQuantizer(q) => c.(gifQuantizer := q)
    case GIFDrawer(d) => c.(gifDrawer := d)
    case PNGCompressionLevel(l) => c.(pngCompressionLevel := l)
    case TIFFCompressionType(t) => c.(tiffCompressionType := t)
  }

  /** Calling a list of options left to right. */
  function ApplyOptions(c: ConfigValue, opts: seq<EncodeOption>): ConfigValue
    decreases |opts|
  {
    if opts == [] then c
    else ApplyOption(ApplyOptions(c, opts[..|opts| - 1]), opts[|opts| - 1])
  }

  /** The configuration an encode call uses: the defaults, then the caller's
      options in order. */
  function BuildConfig(opts: seq<EncodeOption>): ConfigValue {
    ApplyOptions(DefaultEncodeConfig, opts)
  }

  /** The position of the last option in `opts` that writes field `fd`. */
  function LastWriter(opts: seq<EncodeOption>, fd: Field): (r: Option<nat>)
    decreases |opts|
    ensures r.Some? ==> r.value < |opts| && Target(opts[r.value]) == fd
    ensures r.Some? ==> forall j :: r.value < j < |opts| ==> Target(opts[j]) != fd
    ensures r.None? ==> forall j :: 0 <= j < |opts| ==> Target(opts[j]) != fd
  {
    if opts == [] then None
    else if Target(opts[|opts| - 1]) == fd then Some(|opts| - 1)
    else LastWriter(opts[..|opts| - 1], fd)
  }

  /** Last write wins: each field ends holding what the last option that
      writes it wrote, or its starting value if no option writes it. */
  lemma {:induction false} LastWriteWins(c: ConfigValue, opts: seq<EncodeOption>, fd: Field)
    decreases |opts|
    ensures Get(ApplyOptions(c, opts), fd) ==
      match LastWriter(opts, fd)
      case Some(i) => Written(opts[i])
      case None => Get(c, fd)
  {
    if opts != [] {
      var init := opts[..|opts| - 1];
      LastWriteWins(c, init, fd);
      if Target(opts[|opts| - 1]) != fd {
        assert LastWriter(opts, fd) == LastWriter(init, fd);
        match LastWriter(init, fd)
        case Some(i) => assert opts[i] == init[i];
        case None =>
      }
    }
  }

  /** Two configurations that agree on a field still agree on it after the
      same options. */
  lemma SameFieldAfterOptions(c: ConfigValue, d: ConfigValue, opts: seq<EncodeOption>, fd: Field)
    requires Get(c, fd) == Get(d, fd)
    ensures Get(ApplyOptions(c, opts), fd) == Get(ApplyOptions(d, opts), fd)
  {
    LastWriteWins(c, opts, fd);
    LastWriteWins(d, opts, fd);
  }

  /** Applying `a` and then `b` is applying `a + b`. */
  lemma {:induction false} ApplyOptionsAppend(c: ConfigValue, a: seq<EncodeOption>, b: seq<EncodeOption>)
    decreases |b|
    ensures ApplyOptions(c, a + b) == ApplyOptions(ApplyOptions(c, a), b)
  {
    if b == [] {
      assert a + b == a;
    } else {
      var init := b[..|b| - 1];
      ApplyOptionsAppend(c, a, init);
      assert (a + b)[..|a + b| - 1] == a + init;
    }
  }

  /** An option overwritten later by an option on the same field has no
      effect, wherever the pair sits in the list. */
  lemma OverwrittenOptionIsDead(
    c: ConfigValue, pre: seq<EncodeOption>, o1: EncodeOption, o2: EncodeOption, post: seq<EncodeOption>)
    requires Target(o1) == Target(o2)
    ensures ApplyOptions(c, pre + [o1, o2] + post) == ApplyOptions(c, pre + [o2] + post)
  {
    var mid := ApplyOptions(c, pre);
    ApplyOptionsAppend(c, pre, [o1, o2]);
    ApplyOptionsAppend(c, pre, [o2]);
    assert [o1, o2][..1] == [o1];
    assert [o2][..0] == [];
    var x := ApplyOption(ApplyOption(mid, o1), o2);
    var y := ApplyOption(mid, o2);
    forall fd ensures Get(x, fd) == Get(y, fd) { }
    ConfigExtensionality(x, y);
    ApplyOptionsAppend(c, pre + [o1, o2], post);
    ApplyOptionsAppend(c, pre + [o2], post);
  }

  /** Options on different fields commute, wherever the pair sits in the
      list. */
  lemma IndependentOptionsCommute(
    c: ConfigValue, pre: seq<EncodeOption>, o1: EncodeOption, o2: EncodeOption, post: seq<EncodeOption>)
    requires Target(o1) != Target(o2)
    ensures ApplyOptions(c, pre + [o1, o2] + post) == ApplyOptions(c, pre + [o2, o1] + post)
  {
    var mid := ApplyOptions(c, pre);
    ApplyOptionsAppend(c, pre, [o1, o2]);
    ApplyOptionsAppend(c, pre, [o2, o1]);
    assert [o1, o2][..1] == [o1];
    assert [o2, o1][..1] == [o2];
    var x := ApplyOption(ApplyOption(mid, o1), o2);
    var y := ApplyOption(ApplyOption(mid, o2), o1);
    forall fd ensures Get(x, fd) == Get(y, fd) { }
    ConfigExtensionality(x, y);
    ApplyOptionsAppend(c, pre + [o1, o2], post);
    ApplyOptionsAppend(c, pre + [o2, o1], post);
  }

  /** `Quality(a)` then `Quality(b)` leaves quality `b`, after any prefix. */
  lemma QualityLastWins(c: ConfigValue, pre: seq<EncodeOption>, a: int, b: int)
    ensures ApplyOptions(c, pre + [Quality(a), Quality(b)]).quality == b
  {
    LastWriteWins(c, pre + [Quality(a), Quality(b)], QualityField);
  }

  /** With no options, an encode call sees the documented defaults: quality
      75, 256 GIF colours, no quantizer, no drawer, the PNG default level and
      LZW for TIFF. */
  lemma DefaultsWithoutOptions()
    ensures BuildConfig([]) == ConfigValue(75, 256, None, None, DefaultCompression, TIFFLZW)
    ensures Value(BuildConfig([]).tiffCompressionType) == LZW
  {
  }

  /** The mutable `encodeConfig` record that an encode call builds: a copy of
      the defaults that each option then updates in place. */
  class EncodeConfig {
    var quality: int
    var gifNumColors: int
    var gifQuantizer: Option<Quantizer>
    var gifDrawer: Option<Drawer>
    var pngCompressionLevel: CompressionLevel
    var tiffCompressionType: TIFFCompression

    /** The record's current value. */
    function Current(): ConfigValue
      reads this
    {
      ConfigValue(quality, gifNumColors, gifQuantizer, gifDrawer, pngCompressionLevel, tiffCompressionType)
    }

    /** `cfg := defaultEncodeConfig`: a fresh copy, so nothing done to it can
        reach the defaults. */
    constructor CopyOfDefaults()
      ensures Current() == DefaultEncodeConfig
    {
      quality := DefaultEncodeConfig.quality;
      gifNumColors := DefaultEncodeConfig.gifNumColors;
      gifQuantizer := DefaultEncodeConfig.gifQuantizer;
      gifDrawer := DefaultEncodeConfig.gifDrawer;
      pngCompressionLevel := DefaultEncodeConfig.pngCompressionLevel;
      tiffCompressionType := DefaultEncodeConfig.tiffCompressionType;
    }

    /** `option(&cfg)`: the option's closure assigns its one field. */
    method Apply(o: EncodeOption)
      modifies this
      ensures Current() == ApplyOption(old(Current()), o)
      ensures Get(Current(), Target(o)) == Written(o)
      ensures forall fd :: fd != Target(o) ==> Get(Current(), fd) == Get(old(Current()), fd)
    {
      match o
      case Quality(q) => quality := q;
      case GIFNumColors(n) => gifNumColors := n;
      case GIFQuantizer(q) => gifQuantizer := q;
      case GIFDrawer(d) => gifDrawer := d;
      case PNGCompressionLevel(l) => pngCompressionLevel := l;
      case TIFFCompressionType(t) => tiffCompressionType := t;
    }
  }
}
