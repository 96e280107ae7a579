/** `create_favicon`: three thumbnails of the processed image; the smallest
    is handed to the ICO encoder together with the dimensions of all three
    as its sizes list. */
module Favicon {
  import opened Text
  import opened Images
  import opened Storage

  /** The boxes rendered, in this order. */
  const FaviconBoxes: seq<nat> := [16, 32, 48]

  /** One thumbnail per box, in box order. */
  function Renditions(img: Image, boxes: seq<nat>, t: Thumbnailer): (rs: seq<Image>)
    ensures |rs| == |boxes|
    ensures forall i :: 0 <= i < |boxes| ==> rs[i] == ThumbnailOf(img, Size(boxes[i], boxes[i]), t)
  {
    if boxes == [] then []
    else [ThumbnailOf(img, Size(boxes[0], boxes[0]), t)] + Renditions(img, boxes[1..], t)
  }

  /** The `sizes` argument: each rendition's (width, height). */
  function SizesOf(rs: seq<Image>): (sizes: seq<Size>)
    ensures |sizes| == |rs|
    ensures forall i :: 0 <= i < |rs| ==> sizes[i] == rs[i].Dims()
  {
    if rs == [] then [] else [rs[0].Dims()] + SizesOf(rs[1..])
  }

  /** `<prefix>_favicon.ico` in the upload folder. */
  function FaviconRef(prefix: string): (ref: FileRef)
    ensures ref.url == "/" + UploadFolder + "/" + prefix + "_favicon.ico"
    ensures '/' !in prefix ==> Basename(ref.path) == prefix + "_favicon.ico"
  {
    RefFor(prefix + "_favicon.ico")
  }

  /** The result dictionary and the ICO write of `create_favicon`: the
      16-pixel thumbnail is the image saved, and the sizes list holds the
      dimensions of the 16, 32 and 48 pixel thumbnails, in that order. */
  function CreateFavicon(img: Image, prefix: string, t: Thumbnailer): (fav: (FileRef, FileWrite))
    ensures fav.0 == FaviconRef(prefix)
    ensures fav.1.WriteIco? && fav.1.path == fav.0.path
    ensures fav.1.image == ThumbnailOf(img, Size(16, 16), t)
    ensures |fav.1.sizes| == 3
    ensures fav.1.sizes[0] == ThumbnailOf(img, Size(16, 16), t).Dims()
    ensures fav.1.sizes[1] == ThumbnailOf(img, Size(32, 32), t).Dims()
    ensures fav.1.sizes[2] == ThumbnailOf(img, Size(48, 48), t).Dims()
    ensures IsThumbnailer(t) ==>
      forall i :: 0 <= i < 3 ==>
        fav.1.sizes[i].width <= FaviconBoxes[i] && fav.1.sizes[i].height <= FaviconBoxes[i]
  {
    var rs := Renditions(img, FaviconBoxes, t);
    (FaviconRef(prefix), WriteIco(FaviconRef(prefix).path, rs[0], SizesOf(rs)))
  }
}
