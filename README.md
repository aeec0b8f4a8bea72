# imgconv format layer, modelled in Dafny

This project models the format layer of the `imgconv` image conversion
library (`format.go`). That layer sits between a caller and the pixel codecs
(JPEG, PNG, GIF, TIFF, BMP, PDF). It has four parts:

- **Format registry.** A `Format` is an integer. The values 0..5 name JPEG,
  PNG, GIF, TIFF, BMP and PDF. A fixed table gives each format one
  lower-case extension: `jpg png gif tif bmp pdf`. `FormatFromExtension`
  lower-cases its input and looks it up in that table. `StringOfFormat` looks
  up the other way. `setFormat` pairs the parsed format with the caller's
  options.
- **Encode configuration.** There are six knobs: quality, GIF colour count,
  GIF quantizer, GIF drawer, PNG compression level and TIFF compression. Each
  encode starts from a copy of the defaults (75, 256, nil, nil, PNG default,
  LZW). The caller's options then run in order. Each option overwrites its
  one field.
- **TIFF compression mapping.** `TIFFCompression.value` translates the
  library's TIFF compression names onto the codec's constants.
- **Encode dispatcher.** `FormatOption.Encode` picks exactly one codec and
  passes it only that format's fields. For JPEG, an opaque NRGBA image is
  first reinterpreted as an RGBA image over the same buffer, without a copy.
  Any other format value is an error.

The codecs are not modelled. `Encode` returns the codec call it would make
(a `CodecCall` value), or the error.

Modules, one per component:

- `Wrappers`: `Option` and `Result`.
- `Registry`: formats, the extension table, and the two lookups.
- `Tiff`: the TIFF compression names and `Value`.
- `Config`: the options, the configuration value, the mutable `EncodeConfig`
  record, and the fold of options over a configuration.
- `Images`: images over a shared pixel array, `Opaque`, and the JPEG view.
- `Dispatch`: `FormatOption`, the format switch, `Encode` and `SetFormat`.

Where the code and its own comments disagree, the model follows the code:

- The doc comment on `FormatFromExtension` promises "jpeg" and "tiff". The
  code only matches the table entries, so both are rejected. See
  `Registry.ExtensionExamples`.
- The comment on `TIFFCompressionType` says the TIFF default is Deflate. The
  default record holds LZW. See `Config.DefaultsWithoutOptions`.

Go's map iteration order is unspecified. `FormatFromExtension` is therefore a
loop that takes the table's keys in an arbitrary order (`:|`). Because the
table is injective, its result is still determined, and its contract pins it
to the ordinal-order reference `ExtensionFormat`.

## Model

| member | source | states |
|---|---|---|
| `Registry.ToLower` | format.go:149 | The result has the input's length, and each character is the ASCII lower case of the input's. No ASCII upper-case letter is left. |
| `Registry.ToLowerIdempotent` | format.go:149 | Lower-casing twice equals lower-casing once. |
| `Registry.FormatExtsInjective` | format.go:32-39 | No two formats share an extension, so map iteration order cannot change the parse. |
| `Registry.ExtensionFormatSpec` | format.go:148-156 | The parse gives `f` exactly when the lower-cased input is `f`'s table entry. It gives nothing exactly when the lower-cased input is no entry. |
| `Registry.FormatFromExtension` | format.go:148-157 | The loop over the map, in any key order. Success iff the lower-cased input is an entry, and then the format is that entry's. Otherwise it returns -1 and "unsupported image format". |
| `Registry.StringOfFormat` | format.go:159-166 | Succeeds iff 0 <= f <= 5, with the table's extension. Otherwise it returns "no such format". |
| `Registry.ExtensionRoundTrip` | format.go:32-39 | For every format, parsing its extension gives the format back. |
| `Registry.ParsedExtensionRoundTrip` | format.go:148-166 | An input that parses to `f` is, lower-cased, `f`'s extension. |
| `Registry.ExtensionCaseInsensitive` | format.go:149 | Parsing an input equals parsing its lower-cased form. |
| `Registry.ExtensionExamples` | format_test.go:12-19 | "Jpg" parses to JPEG. "txt", "jpeg" and "tiff" are rejected. |
| `Tiff.Value` | format.go:54-68 | The result is `Uncompressed` exactly when the input is not one of the five named compressions 1..5. |
| `Tiff.ValueOfCode` | format.go:54-68 | Each codec constant comes from its namesake, so each name maps to its namesake. |
| `Tiff.CodeOfValue` | format.go:54-68 | `Value` is one-to-one on 0..5. Every other value is treated as `TIFFUncompressed`. |
| `Config.ApplyOption` | format.go:100-144 | An option writes its argument into its own field and leaves the other five unchanged. There is no validation. |
| `Config.LastWriteWins` | format.go:182-185 | After a list of options, each field holds the value of the last option that writes it. If no option writes it, the field keeps its starting value. |
| `Config.SameFieldAfterOptions` | format.go:182-185 | Two configurations that agree on a field still agree on it after the same options. |
| `Config.ApplyOptionsAppend` | format.go:183-185 | Options apply left to right: applying `a + b` equals applying `a`, then `b`. |
| `Config.OverwrittenOptionIsDead` | format.go:183-185 | An option that a later option on the same field overwrites has no effect, at any position in the list. |
| `Config.IndependentOptionsCommute` | format.go:100-144 | Adjacent options on different fields commute, at any position in the list. |
| `Config.QualityLastWins` | format.go:100-104 | `Quality(a)` then `Quality(b)` leaves quality `b`. |
| `Config.DefaultsWithoutOptions` | format.go:85-92 | With no options the configuration is 75, 256, nil, nil, the PNG default and LZW. |
| `Config.EncodeConfig.CopyOfDefaults` | format.go:182 | `cfg` starts as a fresh copy of the defaults. |
| `Config.EncodeConfig.Apply` | format.go:184 | Calling an option on `&cfg` updates the record as `ApplyOption` does: one field changes and the others stay. |
| `Images.JpegView` | format.go:189-197 | The JPEG codec gets a different image exactly when the input is an opaque NRGBA. That image is an RGBA with the same buffer (same array), stride and rectangle. |
| `Images.OpaqueViewSameColors` | format.go:189-195 | At every pixel, the RGBA view has the colour the opaque NRGBA image has. So the no-copy view equals a full conversion. |
| `Images.TranslucentPixelKeepsImage` | format.go:189-197 | One pixel with alpha below 0xff makes the image not opaque, and the JPEG codec gets the original image. |
| `Images.OtherImagesUnchanged` | format.go:189-197 | Images that are not NRGBA reach the JPEG codec unchanged. |
| `Dispatch.Dispatch` | format.go:187-220 | Success iff 0 <= f <= 5, and then the call goes to that format's codec. Any other value gives "unsupported image format". |
| `Dispatch.DispatchForwardsRelevantFields` | format.go:199-217 | Each codec gets exactly its format's fields, holding the configuration's values: JPEG and PDF quality; PNG level; GIF colours, quantizer and drawer; TIFF `Value(compression)` with the predictor on; BMP nothing. |
| `Dispatch.DispatchForwardsImage` | format.go:188-217 | Each codec encodes the caller's image. JPEG gets its view instead, and PDF gets it as a one-element list. |
| `Dispatch.DispatchReadsOnlyRelevantFields` | format.go:187-220 | Two configurations that agree on a format's fields produce the same call. |
| `Dispatch.IrrelevantOptionIgnored` | format.go:181-220 | An option on a field the format does not use can be inserted anywhere without changing the encode. |
| `Dispatch.ZeroFormatOptionIsJpeg75` | format_test.go:61-70 | A zero `FormatOption` encodes as JPEG at quality 75. |
| `Dispatch.UnknownFormatRejected` | format_test.go:72-74 | Every format value outside 0..5, -1 included, gives "unsupported image format" whatever the options. |
| `Dispatch.OpaquePixelEncodesAsRgbaView` | format_test.go:61-70 | A 1x1 opaque white NRGBA goes to JPEG as an RGBA over the same array. |
| `Dispatch.Encode` | format.go:181-221 | The copy-then-mutate loop followed by the switch. It returns exactly the dispatch of the defaults with the options applied in order. |
| `Dispatch.SetFormat` | format.go:168-178 | Succeeds iff the extension parses, and then pairs that format with the options unchanged. On failure it returns "unsupported image format" and the zero `FormatOption` (format 0, no options). |

## Left out

- The pixel codecs are left out: `jpeg.Encode`, `png.Encoder`, `gif.Encode`, `tiff.Encode`, `bmp.Encode` and `pdf.Encode`. They are foreign libraries, so the model returns the call it would make, not bytes.
- The `io.Writer` sink and errors returned by a codec are I/O. `Encode` passes any codec error through unchanged, and that is not modelled.
- The WebP decoder, which is registered by a blank import, is left out. So are `Open`, `Decode` and the decode-and-compare-bounds part of the encode test. They live outside `format.go` and depend on the real codecs.
- `draw.Quantizer` and `draw.Drawer` are opaque tokens, and nil is `None`. Their behaviour belongs to the standard library.
- `png.CompressionLevel` is an integer. Only `DefaultCompression` (0) is named.
- `Registry.ToLower`: only ASCII letters are lower-cased. Go's `strings.ToLower` also folds other Unicode letters.
- `Images.Opaque`: for a buffer too short for its rectangle, the model answers "not opaque". Go panics there only when its scan runs past the end of the buffer before it meets an alpha byte that is not 0xff; otherwise it also answers "not opaque". Images built by the standard library never have such a buffer.
- `Config.EncodeOption`: a nil option cannot be represented. In Go, `EncodeOption` is a function type, so nil is a legal element of the option list, and `Encode` calls it without a check, so it panics before the format switch (even for an unsupported format). The model covers only options made by the six constructors.
- `Registry.StringOfFormat`: on error it returns only the error, not also Go's empty string.
- Pointer identity of the `*image.NRGBA` struct is not modelled. "No copy" is stated for the pixel buffer, which is the shared array.
