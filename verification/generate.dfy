/** `generate_formats`: the result dictionary and the files written for one
    upload. */
module Generate {
  import opened Common
  import opened Text
  import opened Dicts
  import opened Images
  import opened Preprocessing
  import opened Layout
  import opened Storage
  import opened Favicon

  /** Result key of the multi-resolution icon. */
  const FaviconKey: string := "favicon_ico"
  const SaveQuality: nat := 95

  /** How one requested output format of one format is handled. */
  datatype Branch = Skip | SaveJpeg | SaveWebp | SaveByExtension

  /** The per-output branch, with its tests in the order the code makes them:
      `ico` for other formats, then JPEG, WebP, `ico` for `favicon`, and
      last the default save, whose encoder the path's extension names. */
  function Dispatch(outputFormat: string, formatName: string): Branch {
    var ext := Lower(outputFormat);
    if ext == "ico" && formatName != "favicon" then Skip
    else if ext == "jpg" || ext == "jpeg" then SaveJpeg
    else if ext == "webp" then SaveWebp
    else if ext == "ico" && formatName == "favicon" then Skip
    else SaveByExtension
  }

  /** The encoder chosen from the lower-cased extension alone. */
  function BranchFor(ext: string): Branch {
    match ext
    case "ico" => Skip
    case "jpg" => SaveJpeg
    case "jpeg" => SaveJpeg
    case "webp" => SaveWebp
    case _ => SaveByExtension
  }

  /** The format name never matters: both `ico` guards skip, whatever it is. */
  lemma DispatchIgnoresFormatName(outputFormat: string, formatName: string)
    ensures Dispatch(outputFormat, formatName) == BranchFor(Lower(outputFormat))
    ensures Dispatch(outputFormat, formatName).Skip? <==> Lower(outputFormat) == "ico"
  {
  }

  /** The write performed by a saving branch. */
  function Save(canvas: Image, b: Branch, path: string): (w: FileWrite)
    requires !b.Skip?
    ensures w.WriteImage? && w.path == path && w.image.Dims() == canvas.Dims()
    ensures b.SaveJpeg? ==> w.image.mode == RGB && w.quality == Some(SaveQuality)
    ensures b.SaveWebp? ==> w.image.mode == RGBA && w.quality == Some(SaveQuality)
    ensures b.SaveByExtension? ==> w.image == canvas && w.quality == None
  {
    match b
    case SaveJpeg => WriteImage(path, Convert(canvas, RGB), Some(SaveQuality))
    case SaveWebp => WriteImage(path, Convert(canvas, RGBA), Some(SaveQuality))
    case SaveByExtension => WriteImage(path, canvas, None)
  }

  /** `<prefix>_<format>.<output_format>`, the output format spelled as given. */
  function OutputFilename(prefix: string, formatName: string, outputFormat: string): string {
    prefix + "_" + formatName + "." + outputFormat
  }

  function OutputRef(prefix: string, formatName: string, outputFormat: string): (ref: FileRef)
    ensures ref.url == "/" + UploadFolder + "/" + prefix + "_" + formatName + "." + outputFormat
    ensures '/' !in prefix + formatName + outputFormat ==>
      Basename(ref.path) == prefix + "_" + formatName + "." + outputFormat
  {
    RefFor(OutputFilename(prefix, formatName, outputFormat))
  }

  /** The write for one requested output format that is not skipped. */
  function SaveOutput(canvas: Image, prefix: string, formatName: string, outputFormat: string): FileWrite
    requires Lower(outputFormat) != "ico"
  {
    Save(canvas, Dispatch(outputFormat, formatName), OutputRef(prefix, formatName, outputFormat).path)
  }

  /** The `outputs` dictionary of one format and its writes. */
  function RenderOutputs(canvas: Image, prefix: string, formatName: string, outs: seq<string>)
    : (r: (Dict<FileRef>, seq<FileWrite>))
    ensures UniqueKeys(r.0)
    ensures forall o :: o in Keys(r.0) <==> o in outs && Lower(o) != "ico"
    ensures forall o :: o in Keys(r.0) ==> Get(r.0, o) == Some(OutputRef(prefix, formatName, o))
    ensures forall w :: w in r.1 <==>
      exists o :: o in outs && Lower(o) != "ico" && w == SaveOutput(canvas, prefix, formatName, o)
    decreases |outs|
  {
    if outs == [] then ([], [])
    else
      var init := outs[..|outs| - 1];
      var o := outs[|outs| - 1];
      assert outs == init + [o];
      var (d, ws) := RenderOutputs(canvas, prefix, formatName, init);
      if Dispatch(o, formatName).Skip? then (d, ws)
      else
        (Put(d, o, OutputRef(prefix, formatName, o)), ws + [SaveOutput(canvas, prefix, formatName, o)])
  }

  /** One value of the result dictionary. */
  datatype Entry =
    | FileEntry(ref: FileRef)
    | FormatEntry(outputs: Dict<FileRef>, dimensions: Size, description: string)

  /** The entry and the writes of one kept format. */
  function RenderFormat(processed: Image, f: Format, prefix: string, outs: seq<string>, t: Thumbnailer)
    : (r: (Entry, seq<FileWrite>))
    ensures r.0.FormatEntry? && UniqueKeys(r.0.outputs)
    ensures r.0.dimensions == f.Box() && r.0.description == f.description.GetOr("")
    ensures forall o :: o in Keys(r.0.outputs) <==> o in outs && Lower(o) != "ico"
    ensures forall o :: o in Keys(r.0.outputs) ==> Get(r.0.outputs, o) == Some(OutputRef(prefix, f.name, o))
    ensures forall w :: w in r.1 <==>
      exists o :: o in outs && Lower(o) != "ico" && w == SaveOutput(LayoutFormat(processed, f, t), prefix, f.name, o)
  {
    var canvas := LayoutFormat(processed, f, t);
    var (outputs, ws) := RenderOutputs(canvas, prefix, f.name, outs);
    (FormatEntry(outputs, f.Box(), f.description.GetOr("")), ws)
  }

  /** The `(format_name, entry)` assignments of the format loop,
      in loop order. */
  function FormatItems(kept: Config, processed: Image, prefix: string, outs: seq<string>, t: Thumbnailer)
    : (items: Dict<Entry>)
    ensures Keys(items) == Names(kept)
    ensures forall i :: 0 <= i < |kept| ==> items[i] == (kept[i].name, RenderFormat(processed, kept[i], prefix, outs, t).0)
  {
    if kept == [] then []
    else
      var rest := FormatItems(kept[1..], processed, prefix, outs, t);
      assert Names(kept) == [kept[0].name] + Names(kept[1..]);
      [(kept[0].name, RenderFormat(processed, kept[0], prefix, outs, t).0)] + rest
  }

  /** The files written by the format loop, in loop order. */
  function FormatWrites(kept: Config, processed: Image, prefix: string, outs: seq<string>, t: Thumbnailer)
    : (ws: seq<FileWrite>)
    ensures forall w :: w in ws <==>
      exists f :: f in kept && (exists o ::
        o in outs && Lower(o) != "ico" && w == SaveOutput(LayoutFormat(processed, f, t), prefix, f.name, o))
  {
    if kept == [] then []
    else
      assert forall f :: f in kept <==> f == kept[0] || f in kept[1..];
      RenderFormat(processed, kept[0], prefix, outs, t).1 + FormatWrites(kept[1..], processed, prefix, outs, t)
  }

  /** The icon is made when `favicon` is selected and the exact
      string `ico` is requested. */
  predicate FaviconRequested(selected: seq<string>, outs: seq<string>) {
    "favicon" in selected && "ico" in outs
  }

  datatype Generation = Generation(results: Dict<Entry>, writes: seq<FileWrite>)

  /** `generate_formats`, with the configuration, the decoded upload, the
      thumbnail sizing and the watermark text's measured size as inputs. */
  function GenerateFormats(config: Config, original: Image, prefix: string, selected: seq<string>,
                           outs: seq<string>, options: Options, t: Thumbnailer, text: Size)
    : (g: Generation)
  {
    var kept := FilterFormats(config, selected);
    var processed := Preprocess(original, options, text);
    var fav := CreateFavicon(processed, prefix, t);
    var start: (Dict<Entry>, seq<FileWrite>) :=
      if FaviconRequested(selected, outs) then ([(FaviconKey, FileEntry(fav.0))], [fav.1]) else ([], []);
    Generation(PutAll(start.0, FormatItems(kept, processed, prefix, outs, t)),
               start.1 + FormatWrites(kept, processed, prefix, outs, t))
  }
}
