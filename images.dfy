/** The decoded images the dispatcher sees, and the reinterpretation of an
    opaque NRGBA image as an RGBA image over the same pixel buffer that
    `FormatOption.Encode` performs before JPEG encoding (format.go). */
module Images {

  type Byte = b: int | 0 <= b < 0x100

  datatype Point = Point(x: int, y: int)

  /** `image.Rectangle`: the half-open box [min, max). */
  datatype Rectangle = Rectangle(min: Point, max: Point) {
    predicate Empty() {
      min.x >= max.x || min.y >= max.y
    }

    function Dx(): int {
      max.x - min.x
    }

    function Dy(): int {
      max.y - min.y
    }

    /** `image.Point.In`. */
    predicate Contains(x: int, y: int) {
      min.x <= x < max.x && min.y <= y < max.y
    }
  }

  /** A decoded image. `NRGBA` and `RGBA` hold four bytes per pixel in `pix`
      (non-premultiplied and premultiplied alpha respectively), rows `stride`
      bytes apart, the first byte being the pixel at `rect.min`. Any other
      image type is opaque to the dispatcher. The buffer is an array, so two
      images that share one are two views of the same memory. */
  datatype Image =
    | NRGBA(pix: array<Byte>, stride: int, rect: Rectangle)
    | RGBA(pix: array<Byte>, stride: int, rect: Rectangle)
    | OtherImage(id: nat)
  {
    /** The memory the image's pixels live in. */
    function Buffer(): set<object> {
      if OtherImage? then {} else {pix}
    }
  }

  /** Offset in `pix` of the first byte of pixel (x, y): `PixOffset`. */
  function PixOffset(img: Image, x: int, y: int): int
    requires !img.OtherImage?
  {
    (y - img.rect.min.y) * img.stride + (x - img.rect.min.x) * 4
  }

  /** Offset of the alpha byte of the pixel in column `col` of row `row`,
      both counted from the rectangle's corner. */
  function AlphaOffset(stride: int, row: int, col: int): int {
    row * stride + 4 * col + 3
  }

  /** `(*image.NRGBA).Opaque`: an empty image is opaque; otherwise every
      alpha byte of every row inside the rectangle must be 0xff. A buffer too
      short for its rectangle counts as not opaque. */
  predicate Opaque(img: Image)
    requires img.NRGBA?
    reads img.pix
  {
    img.rect.Empty() ||
    forall row, col :: 0 <= row < img.rect.Dy() && 0 <= col < img.rect.Dx() ==>
      0 <= AlphaOffset(img.stride, row, col) < img.pix.Length &&
      img.pix[AlphaOffset(img.stride, row, col)] == 0xff
  }

  /** The image `FormatOption.Encode` hands to the JPEG codec: an opaque
      NRGBA image is reinterpreted as an RGBA image with the same buffer,
      stride and rectangle (no copy); any other image is passed unchanged. */
  function JpegView(img: Image): (r: Image)
    reads img.Buffer()
    ensures r.Buffer() == img.Buffer()
    ensures r != img <==> img.NRGBA? && Opaque(img)
    ensures r != img ==> r.RGBA? && r.pix == img.pix && r.stride == img.stride && r.rect == img.rect
  {
    if img.NRGBA? && Opaque(img) then RGBA(img.pix, img.stride, img.rect) else img
  }

  /** A colour with 16-bit channels, as `color.Color.RGBA` returns it. */
  datatype Color64 = Color64(r: int, g: int, b: int, a: int)

  /** The pixel (x, y) lies in the rectangle and its four bytes in the
      buffer. */
  predicate PixelInBuffer(img: Image, x: int, y: int)
    requires !img.OtherImage?
    reads img.pix
  {
    img.rect.Contains(x, y) &&
    0 <= PixOffset(img, x, y) && PixOffset(img, x, y) + 4 <= img.pix.Length
  }

  /** `img.At(x, y).RGBA()`: an RGBA pixel widens each byte to 16 bits; an
      NRGBA pixel also multiplies each colour channel by its alpha. */
  function ColorAt(img: Image, x: int, y: int): Color64
    requires !img.OtherImage? && PixelInBuffer(img, x, y)
    reads img.pix
  {
    var i := PixOffset(img, x, y);
    var r: int, g: int, b: int, a: int := img.pix[i], img.pix[i + 1], img.pix[i + 2], img.pix[i + 3];
    if img.RGBA? then Color64(r * 0x101, g * 0x101, b * 0x101, a * 0x101)
    else Color64(r * 0x101 * a / 0xff, g * 0x101 * a / 0xff, b * 0x101 * a / 0xff, a * 0x101)
  }

  /** Premultiplying by a full alpha changes nothing. */
  lemma FullAlphaPremultiply(v: int)
    ensures v * 0x101 * 0xff / 0xff == v * 0x101
  {
  }

  /** The reinterpretation loses nothing: every pixel of the RGBA view has
      the colour the NRGBA image has at the same point, so the JPEG encoder
      sees the same picture as if the image had been converted. */
  lemma OpaqueViewSameColors(img: Image, x: int, y: int)
    requires img.NRGBA? && Opaque(img) && PixelInBuffer(img, x, y)
    ensures JpegView(img).RGBA? && PixelInBuffer(JpegView(img), x, y)
    ensures ColorAt(JpegView(img), x, y) == ColorAt(img, x, y)
  {
    var view := JpegView(img);
    var i := PixOffset(img, x, y);
    var row, col := y - img.rect.min.y, x - img.rect.min.x;
    assert AlphaOffset(img.stride, row, col) == i + 3;
    assert img.pix[i + 3] == 0xff;
    assert PixOffset(view, x, y) == i;
    FullAlphaPremultiply(img.pix[i]);
    FullAlphaPremultiply(img.pix[i + 1]);
    FullAlphaPremultiply(img.pix[i + 2]);
  }

  /** A single pixel whose alpha is not 0xff forbids the reinterpretation:
      the JPEG codec then gets the original image. */
  lemma TranslucentPixelKeepsImage(img: Image, x: int, y: int)
    requires img.NRGBA? && PixelInBuffer(img, x, y)
    requires img.pix[PixOffset(img, x, y) + 3] != 0xff
    ensures !Opaque(img)
    ensures JpegView(img) == img
  {
    var row, col := y - img.rect.min.y, x - img.rect.min.x;
    assert AlphaOffset(img.stride, row, col) == PixOffset(img, x, y) + 3;
  }

  /** Images other than NRGBA, opaque or not, go to the JPEG codec as they
      are. */
  lemma OtherImagesUnchanged(img: Image)
    requires !img.NRGBA?
    ensures JpegView(img) == img
  {
  }
}
