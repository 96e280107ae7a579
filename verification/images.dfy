/** Images with the pixels abstracted away: a size, a PIL mode and the list
    of operations applied so far. The imaging library's resampling is an
    abstract `Thumbnailer` about which only "fits the box, never enlarges"
    is known. */
module Images {

  /** PIL image modes the application distinguishes; an upload may carry any. */
  datatype Mode = L | RGB | RGBA | P | OtherMode(name: string)

  datatype Size = Size(width: nat, height: nat)

  /** One recorded operation on an image. */
  datatype Op =
    | Grayscale                                   // to luminance, back to RGBA
    | Contrast(factor: real)                      // contrast scaled by `factor`
    | GaussianBlur(radius: real)                  // Gaussian blur of `radius`
    | Watermark(text: string, x: int, y: int)     // text layer alpha-composited at (x, y)
    | Thumbnail(box: Size)                        // shrunk to fit `box`
    | ConvertTo(mode: Mode)                       // converted to `mode`
    | Paste(layer: Image, x: int, y: int, masked: bool)  // `layer` pasted at (x, y), masked by its alpha or not

  datatype Image = Image(width: nat, height: nat, mode: Mode, ops: seq<Op>) {
    function Dims(): Size {
      Size(width, height)
    }
  }

  /** A fresh RGBA canvas filled with transparent white (255, 255, 255, 0). */
  function Canvas(size: Size): (c: Image)
    ensures c.Dims() == size && c.mode == RGBA && c.ops == []
  {
    Image(size.width, size.height, RGBA, [])
  }

  /** The size the imaging library picks for a thumbnail of an image of size
      `src` inside `box`. */
  type Thumbnailer = (Size, Size) -> Size

  /** `r` lies inside `box` and is no larger than `src` in either direction. */
  predicate FitsWithin(r: Size, src: Size, box: Size) {
    && r.width <= box.width && r.height <= box.height
    && r.width <= src.width && r.height <= src.height
  }

  /** What PIL's `thumbnail` guarantees for a non-empty box. */
  ghost predicate IsThumbnailer(t: Thumbnailer) {
    forall src: Size, box: Size :: box.width > 0 && box.height > 0 ==> FitsWithin(t(src, box), src, box)
  }

  /** A resized copy that fits `box`; the mode is kept. */
  function ThumbnailOf(img: Image, box: Size, t: Thumbnailer): (r: Image)
    ensures r.mode == img.mode
    ensures r.ops == img.ops + [Thumbnail(box)]
    ensures IsThumbnailer(t) && box.width > 0 && box.height > 0 ==>
              FitsWithin(r.Dims(), img.Dims(), box)
  {
    var s := t(img.Dims(), box);
    Image(s.width, s.height, img.mode, img.ops + [Thumbnail(box)])
  }

  /** Mode conversion; an image already in that mode is returned as is. */
  function Convert(img: Image, mode: Mode): (r: Image)
    ensures r.Dims() == img.Dims() && r.mode == mode
    ensures img.mode == mode ==> r == img
    ensures img.mode != mode ==> r.ops == img.ops + [ConvertTo(mode)]
  {
    if img.mode == mode then img
    else Image(img.width, img.height, mode, img.ops + [ConvertTo(mode)])
  }
}
