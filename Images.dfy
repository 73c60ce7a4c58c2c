/** Images as the resize core sees them: only their dimensions and how they
    were derived. Pixels, colour models and resampling are not modelled. */
module Images {

  /** Width and height in pixels. */
  datatype Dims = Dims(width: int, height: int)

  /** A rectangle at offset (x, y) of an image. */
  datatype Rect = Rect(x: int, y: int, width: int, height: int)

  /** An image: one read from the request's source (identified by an opaque
      handle), a scaled copy of another image, or a sub-image of another. */
  datatype Image =
    | Decoded(handle: nat, width: int, height: int)
    | Scaled(original: Image, width: int, height: int)
    | Subimage(original: Image, x: int, y: int, width: int, height: int)

  /** One operation in the derivation of an image. */
  datatype Step = ScaleStep(width: int, height: int) | CropStep(window: Rect)

  /** The operations that turned the originally read image into img, oldest first. */
  function History(img: Image): (steps: seq<Step>)
    ensures img.Decoded? <==> steps == []
  {
    match img
    case Decoded(_, _, _) => []
    case Scaled(original, w, h) => History(original) + [ScaleStep(w, h)]
    case Subimage(original, x, y, w, h) => History(original) + [CropStep(Rect(x, y, w, h))]
  }

  /** The originally read image img was derived from. */
  function Root(img: Image): (r: Image)
    ensures r.Decoded?
    ensures img.Decoded? ==> r == img
  {
    match img
    case Decoded(_, _, _) => img
    case Scaled(original, _, _) => Root(original)
    case Subimage(original, _, _, _, _) => Root(original)
  }

  function SizeOf(img: Image): Dims {
    Dims(img.width, img.height)
  }

  /** Both dimensions positive, as every buffered image has. */
  predicate Positive(d: Dims) {
    d.width > 0 && d.height > 0
  }

  /** A non-empty rectangle lying entirely inside an image of size d: what
      `BufferedImage.getSubimage` demands of its arguments. */
  predicate Within(r: Rect, d: Dims) {
    && 0 <= r.x && 0 <= r.y
    && r.width > 0 && r.height > 0
    && r.x + r.width <= d.width
    && r.y + r.height <= d.height
  }

  /** The opaque scaling primitive (`doResize`): a new image of exactly the
      requested size. The scaler refuses a zero dimension, so callers must
      rule that out. */
  function DoResize(newWidth: int, newHeight: int, source: Image): (r: Image)
    requires newWidth > 0 && newHeight > 0
    ensures SizeOf(r) == Dims(newWidth, newHeight)
    ensures r.Scaled? && r.original == source
  {
    Scaled(source, newWidth, newHeight)
  }

  /** `getSubimage`: the part of img covered by the window. */
  function GetSubimage(img: Image, window: Rect): (r: Image)
    requires Within(window, SizeOf(img))
    ensures SizeOf(r) == Dims(window.width, window.height)
    ensures r.Subimage? && r.original == img
  {
    Subimage(img, window.x, window.y, window.width, window.height)
  }
}
