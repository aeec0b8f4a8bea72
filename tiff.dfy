/** The library's TIFF compression choices and their translation onto the
    TIFF codec's own compression constants (format.go). */
module Tiff {

  /** Go declares `type TIFFCompression int`: any integer is a value, and
      0..5 are the named ones. */
  type TIFFCompression = int

  const TIFFUncompressed: TIFFCompression := 0
  const TIFFDeflate: TIFFCompression := 1
  const TIFFLZW: TIFFCompression := 2
  const TIFFCCITTGroup3: TIFFCompression := 3
  const TIFFCCITTGroup4: TIFFCompression := 4
  const TIFFJPEG: TIFFCompression := 5

  /** The TIFF codec's compression constants, kept opaque. */
  datatype CompressionType = Uncompressed | Deflate | LZW | CCITTGroup3 | CCITTGroup4 | JPEG

  /** `TIFFCompression.value`: each named compression maps to its namesake,
      and `TIFFUncompressed` and every unnamed value fall back to
      `Uncompressed`. */
  function Value(c: TIFFCompression): (r: CompressionType)
    ensures r == Uncompressed <==> !(TIFFDeflate <= c <= TIFFJPEG)
  {
    if c == TIFFLZW then LZW
    else if c == TIFFDeflate then Deflate
    else if c == TIFFCCITTGroup3 then CCITTGroup3
    else if c == TIFFCCITTGroup4 then CCITTGroup4
    else if c == TIFFJPEG then JPEG
    else Uncompressed
  }

  /** The library's name for a codec constant: the inverse of `Value` on the
      named compressions. */
  function Code(t: CompressionType): (c: TIFFCompression)
    ensures TIFFUncompressed <= c <= TIFFJPEG
  {
    match t
    case Uncompressed => TIFFUncompressed
    case Deflate => TIFFDeflate
    case LZW => TIFFLZW
    case CCITTGroup3 => TIFFCCITTGroup3
    case CCITTGroup4 => TIFFCCITTGroup4
    case JPEG => TIFFJPEG
  }

  /** Every codec constant is reached, by the compression of the same name. */
  lemma ValueOfCode(t: CompressionType)
    ensures Value(Code(t)) == t
  {
  }

  /** `Value` is one-to-one on the named compressions and collapses every
      other value onto `TIFFUncompressed`'s result. */
  lemma CodeOfValue(c: TIFFCompression)
    ensures Code(Value(c)) == if TIFFUncompressed <= c <= TIFFJPEG then c else TIFFUncompressed
  {
  }
}
