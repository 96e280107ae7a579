/** What `generate_formats` promises about its result dictionary and the
    files it writes, for any configuration, selection and options. */
module GenerateFacts {
  import opened Common
  import opened Text
  import opened Dicts
  import opened Images
  import opened Preprocessing
  import opened Layout
  import opened Storage
  import opened Favicon
  import opened Generate

  /** The dictionary the loop starts from: the icon entry or nothing. */
  lemma StartFacts(selected: seq<string>, outs: seq<string>, fav: FileRef, w: FileWrite)
    ensures var start: Dict<Entry> := if FaviconRequested(selected, outs) then [(FaviconKey, FileEntry(fav))] else [];
      && UniqueKeys(start)
      && Keys(start) == (if FaviconRequested(selected, outs) then [FaviconKey] else [])
  {
  }

  /** Kept formats come from the configuration. */
  lemma KeptNamesConfigured(config: Config, selected: seq<string>, k: string)
    requires k in Names(FilterFormats(config, selected))
    ensures k in Names(config)
  {
  }

  /** The result keys are the icon key when requested, then the kept formats
      in configuration order. */
  lemma ResultKeys(config: Config, original: Image, prefix: string, selected: seq<string>,
                   outs: seq<string>, options: Options, t: Thumbnailer, text: Size)
    requires UniqueNames(config) && FaviconKey !in Names(config)
    ensures Keys(GenerateFormats(config, original, prefix, selected, outs, options, t, text).results)
            == (if FaviconRequested(selected, outs) then [FaviconKey] else [])
               + Names(FilterFormats(config, selected))
  {
    var kept := FilterFormats(config, selected);
    var processed := Preprocess(original, options, text);
    var fav := CreateFavicon(processed, prefix, t);
    var start: Dict<Entry> := if FaviconRequested(selected, outs) then [(FaviconKey, FileEntry(fav.0))] else [];
    var items := FormatItems(kept, processed, prefix, outs, t);
    FilterKeepsUnique(config, selected);
    StartFacts(selected, outs, fav.0, fav.1);
    forall k | k in Keys(items)
      ensures k !in Keys(start)
    {
      KeptNamesConfigured(config, selected, k);
    }
    PutAllAppendsFresh(start, items);
    KeysAppend(start, items);
  }

  /** The `favicon_ico` entry exists exactly when the icon is requested,
      whether or not `favicon` is a configured format. */
  lemma FaviconEntry(config: Config, original: Image, prefix: string, selected: seq<string>,
                     outs: seq<string>, options: Options, t: Thumbnailer, text: Size)
    requires FaviconKey !in Names(config)
    ensures Get(GenerateFormats(config, original, prefix, selected, outs, options, t, text).results, FaviconKey)
            == if "favicon" in selected && "ico" in outs then Some(FileEntry(FaviconRef(prefix))) else None
  {
    var kept := FilterFormats(config, selected);
    var processed := Preprocess(original, options, text);
    var items := FormatItems(kept, processed, prefix, outs, t);
    if FaviconKey in Keys(items) {
      KeptNamesConfigured(config, selected, FaviconKey);
    }
  }

  /** The loop stores each kept format's own entry under its name. */
  lemma LoopEntry(start: Dict<Entry>, kept: Config, processed: Image, prefix: string,
                  outs: seq<string>, t: Thumbnailer, f: Format)
    requires UniqueNames(kept) && f in kept
    ensures Get(PutAll(start, FormatItems(kept, processed, prefix, outs, t)), f.name)
            == Some(RenderFormat(processed, f, prefix, outs, t).0)
  {
    var items := FormatItems(kept, processed, prefix, outs, t);
    var entry := RenderFormat(processed, f, prefix, outs, t).0;
    var i :| 0 <= i < |kept| && kept[i] == f;
    assert items[i] == (f.name, entry);
    assert UniqueKeys(items) by {
      assert Keys(items) == Names(kept);
    }
    GetIffStored(items, f.name, entry);
    assert f.name in Keys(items) by {
      assert Keys(items)[i] == Names(kept)[i] == f.name;
    }
  }

  /** A selected configured format (or any, when the selection is empty)
      has an entry carrying its dimensions and description, and one output
      per requested output format that is not `ico` in any case, spelled as
      given, stored as `<prefix>_<format>.<output_format>`. */
  lemma SelectedFormatEntry(config: Config, original: Image, prefix: string, selected: seq<string>,
                            outs: seq<string>, options: Options, t: Thumbnailer, text: Size, f: Format)
    requires UniqueNames(config) && f in config
    requires selected == [] || f.name in selected
    ensures var e := Get(GenerateFormats(config, original, prefix, selected, outs, options, t, text).results, f.name);
      && e.Some? && e.value.FormatEntry?
      && e.value.dimensions == Size(f.width, f.height)
      && e.value.description == f.description.GetOr("")
      && (forall o :: o in Keys(e.value.outputs) <==> o in outs && Lower(o) != "ico")
      && (forall o :: o in Keys(e.value.outputs) ==>
            Get(e.value.outputs, o) == Some(RefFor(prefix + "_" + f.name + "." + o)))
  {
    var kept := FilterFormats(config, selected);
    var processed := Preprocess(original, options, text);
    var fav := CreateFavicon(processed, prefix, t);
    var start: Dict<Entry> := if FaviconRequested(selected, outs) then [(FaviconKey, FileEntry(fav.0))] else [];
    FilterKeepsUnique(config, selected);
    LoopEntry(start, kept, processed, prefix, outs, t, f);
  }

  /** A configured format that is not selected has no entry (unless its name
      is the icon key). */
  lemma UnselectedFormatAbsent(config: Config, original: Image, prefix: string, selected: seq<string>,
                               outs: seq<string>, options: Options, t: Thumbnailer, text: Size, f: Format)
    requires f in config && selected != [] && f.name !in selected && f.name != FaviconKey
    ensures f.name !in Keys(GenerateFormats(config, original, prefix, selected, outs, options, t, text).results)
  {
    var kept := FilterFormats(config, selected);
    var processed := Preprocess(original, options, text);
    var items := FormatItems(kept, processed, prefix, outs, t);
    assert f.name !in Names(kept);
    assert f.name !in Keys(items);
  }

  /** The files written: the icon when requested, and one file per kept
      format and per requested output format that is not `ico` in any case. */
  lemma WrittenFiles(config: Config, original: Image, prefix: string, selected: seq<string>,
                     outs: seq<string>, options: Options, t: Thumbnailer, text: Size)
    ensures var processed := Preprocess(original, options, text);
      var kept := FilterFormats(config, selected);
      forall w :: w in GenerateFormats(config, original, prefix, selected, outs, options, t, text).writes <==>
        || (FaviconRequested(selected, outs) && w == CreateFavicon(processed, prefix, t).1)
        || exists f :: f in kept && (exists o ::
             o in outs && Lower(o) != "ico" && w == SaveOutput(LayoutFormat(processed, f, t), prefix, f.name, o))
  {
  }

  /** An ICO file is written exactly when the icon is requested: requesting
      `ICO` in upper case yields no icon at all, since the loop skips every
      case of `ico`. */
  lemma IcoWrittenIffRequested(config: Config, original: Image, prefix: string, selected: seq<string>,
                               outs: seq<string>, options: Options, t: Thumbnailer, text: Size)
    ensures (exists w :: w in GenerateFormats(config, original, prefix, selected, outs, options, t, text).writes
                         && w.WriteIco?)
            <==> "favicon" in selected && "ico" in outs
  {
  }
}
