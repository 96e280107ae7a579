/** `preprocess_image`: up to four optional steps, always in the order
    grayscale, contrast, blur, watermark. */
module Preprocessing {
  import opened Common
  import opened Images

  const ContrastFactor: real := 1.5
  const DefaultBlurRadius: real := 2.0
  /** Gap between the watermark text and the right and bottom edges. */
  const WatermarkMargin: nat := 20

  /** The preprocessing options dictionary. An absent `blur_radius` is `None`;
      an absent `watermark_text` behaves like the empty text. The watermark
      opacity is not modelled. */
  datatype Options = Options(
    grayscale: bool,
    enhanceContrast: bool,
    applyBlur: bool,
    blurRadius: Option<real>,
    addWatermark: bool,
    watermarkText: string)

  /** Both halves of the watermark guard: the flag and a non-empty text. */
  predicate WatermarkEnabled(o: Options) {
    o.addWatermark && o.watermarkText != ""
  }

  /** Top-left corner of the text, whose measured box is `text`, such that its
      bottom-right corner sits `WatermarkMargin` pixels in from the image's. */
  function WatermarkPosition(image: Size, text: Size): (pos: (int, int))
    ensures pos.0 + text.width + WatermarkMargin == image.width
    ensures pos.1 + text.height + WatermarkMargin == image.height
  {
    (image.width - text.width - WatermarkMargin, image.height - text.height - WatermarkMargin)
  }

  /** Position of a preprocessing operation in the fixed order. */
  function Rank(op: Op): nat {
    match op
    case Grayscale => 0
    case Contrast(_) => 1
    case GaussianBlur(_) => 2
    case Watermark(_, _, _) => 3
    case _ => 4
  }

  /** `op` is the operation the options ask for at its rank. */
  predicate StepEnabled(o: Options, image: Size, text: Size, op: Op) {
    match op
    case Grayscale => o.grayscale
    case Contrast(f) => o.enhanceContrast && f == ContrastFactor
    case GaussianBlur(r) => o.applyBlur && r == o.blurRadius.GetOr(DefaultBlurRadius)
    case Watermark(s, x, y) =>
      WatermarkEnabled(o) && s == o.watermarkText && (x, y) == WatermarkPosition(image, text)
    case _ => false
  }

  /** The operations the options select, for an image of size `image` and a
      watermark text measuring `text`: exactly the enabled ones, each once,
      in rank order. */
  function Plan(o: Options, image: Size, text: Size): (steps: seq<Op>)
    ensures forall op :: op in steps <==> StepEnabled(o, image, text, op)
    ensures forall i, j :: 0 <= i < j < |steps| ==> Rank(steps[i]) < Rank(steps[j])
  {
    var pos := WatermarkPosition(image, text);
    (if o.grayscale then [Grayscale] else [])
    + (if o.enhanceContrast then [Contrast(ContrastFactor)] else [])
    + (if o.applyBlur then [GaussianBlur(o.blurRadius.GetOr(DefaultBlurRadius))] else [])
    + (if WatermarkEnabled(o) then [Watermark(o.watermarkText, pos.0, pos.1)] else [])
  }

  /** Grayscale, kept as an RGBA image. */
  function ToGrayscale(img: Image): (r: Image)
    ensures r.Dims() == img.Dims() && r.mode == RGBA
    ensures r.ops == img.ops + [Grayscale]
  {
    Image(img.width, img.height, RGBA, img.ops + [Grayscale])
  }

  /** Operations that keep size and mode. */
  function Enhance(img: Image, op: Op): (r: Image)
    ensures r.Dims() == img.Dims() && r.mode == img.mode
    ensures r.ops == img.ops + [op]
  {
    img.(ops := img.ops + [op])
  }

  /** The text layer is composited over the image converted to RGBA. */
  function AddWatermark(img: Image, caption: string, text: Size): (r: Image)
    ensures r.Dims() == img.Dims() && r.mode == RGBA
    ensures |r.ops| == |img.ops| + 1 && r.ops[..|img.ops|] == img.ops
    ensures var w := r.ops[|img.ops|];
      && w.Watermark? && w.text == caption
      && w.x + text.width + WatermarkMargin == img.width
      && w.y + text.height + WatermarkMargin == img.height
  {
    var pos := WatermarkPosition(img.Dims(), text);
    Image(img.width, img.height, RGBA, img.ops + [Watermark(caption, pos.0, pos.1)])
  }

  /** `preprocess_image`; `text` is the measured size of the
      watermark text in the chosen font. */
  function Preprocess(img: Image, o: Options, text: Size): (r: Image)
    ensures r.Dims() == img.Dims()
    ensures r.mode == if o.grayscale || WatermarkEnabled(o) then RGBA else img.mode
    ensures r.ops == img.ops + Plan(o, img.Dims(), text)
  {
    var gray := if o.grayscale then ToGrayscale(img) else img;
    var contrasted := if o.enhanceContrast then Enhance(gray, Contrast(ContrastFactor)) else gray;
    var blurred :=
      if o.applyBlur then Enhance(contrasted, GaussianBlur(o.blurRadius.GetOr(DefaultBlurRadius)))
      else contrasted;
    if WatermarkEnabled(o) then AddWatermark(blurred, o.watermarkText, text) else blurred
  }

  /** With every step switched off the image comes back untouched. */
  lemma AllOffIsIdentity(img: Image, o: Options, text: Size)
    requires !o.grayscale && !o.enhanceContrast && !o.applyBlur && !WatermarkEnabled(o)
    ensures Preprocess(img, o, text) == img
  {
  }

  /** Blur without a radius option uses radius 2, and the watermark is placed
      only when both its flag and its text are set. */
  lemma BlurAndWatermarkDefaults(img: Image, o: Options, text: Size)
    ensures o.applyBlur && o.blurRadius.None? ==>
              GaussianBlur(DefaultBlurRadius) in Preprocess(img, o, text).ops[|img.ops|..]
    ensures (exists s, x, y :: Watermark(s, x, y) in Preprocess(img, o, text).ops[|img.ops|..])
              <==> o.addWatermark && o.watermarkText != ""
  {
  }
}
