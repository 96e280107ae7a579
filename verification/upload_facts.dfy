/** What an accepted upload yields: whether the archive can be built, and
    which members it holds. */
module UploadFacts {
  import opened Common
  import opened Text
  import opened Dicts
  import opened Images
  import opened Preprocessing
  import opened Layout
  import opened Storage
  import opened Favicon
  import opened Generate
  import opened Archive
  import opened Upload
  import GenerateFacts

  /** Every key `generate_formats` returns is the icon key or a configured
      format name. */
  lemma GeneratedKeysConfigured(config: Config, original: Image, prefix: string, selected: seq<string>,
                                outs: seq<string>, options: Options, t: Thumbnailer, text: Size, k: string)
    ensures k in Keys(GenerateFormats(config, original, prefix, selected, outs, options, t, text).results) ==>
            k == FaviconKey || k in Names(config)
  {
    var kept := FilterFormats(config, selected);
    var processed := Preprocess(original, options, text);
    var fav := CreateFavicon(processed, prefix, t);
    GenerateFacts.StartFacts(selected, outs, fav.0, fav.1);
    if k != FaviconKey && k in Names(kept) {
      GenerateFacts.KeptNamesConfigured(config, selected, k);
    }
  }

  /** The archive sees `favicon_ico` exactly as `generate_formats` left it. */
  lemma ArchivedIcon(config: Config, filename: string, s: Selection, options: Options,
                     prefix: string, original: Image, t: Thumbnailer, text: Size)
    requires '.' in filename && FaviconKey !in Names(config)
    ensures Get(ArchivedResults(config, filename, s, options, prefix, original, t, text), FaviconKey)
            == if FaviconRequested(s.formats, s.outputFormats) then Some(FileEntry(FaviconRef(prefix))) else None
  {
    GenerateFacts.FaviconEntry(config, original, prefix, s.formats, s.outputFormats, options, t, text);
  }

  /** An accepted upload returns the archive of `ArchivedResults`, or its
      error, and adds the archive's own entry under `zip`. */
  lemma AcceptedUpload(config: Config, filename: string, formats: seq<string>, outputFormats: seq<string>,
                       options: Options, prefix: string, timestamp: string,
                       original: Image, t: Thumbnailer, text: Size)
    requires filename != "" && AllowedFile(filename)
    ensures var r := HandleUpload(config, Some(filename), formats, outputFormats, options, prefix, timestamp, original, t, text);
      var results := ArchivedResults(config, filename, ApplyDefaults(formats, outputFormats, config), options,
                                     prefix, original, t, text);
      var z := ZipManifest(results);
      && (r.Success? <==> z.Success?)
      && (z.Failure? ==> r == Failure(ArchiveFailed(z.error)))
      && (z.Success? ==> r.value.archive == z.value
                         && r.value.results == Put(results, "zip", FileEntry(ZipRef(prefix, timestamp))))
  {
  }

  /** An accepted upload is archived without error when no configured
      format is named `favicon_ico`. */
  lemma AcceptedUploadSucceeds(config: Config, filename: string, formats: seq<string>, outputFormats: seq<string>,
                               options: Options, prefix: string, timestamp: string,
                               original: Image, t: Thumbnailer, text: Size)
    requires filename != "" && AllowedFile(filename)
    requires FaviconKey !in Names(config)
    ensures HandleUpload(config, Some(filename), formats, outputFormats, options, prefix, timestamp, original, t, text).Success?
  {
    ArchivedIcon(config, filename, ApplyDefaults(formats, outputFormats, config), options, prefix, original, t, text);
  }

  /** A selected format named `favicon_ico` leaves a format entry under the
      icon key, and reading its path fails the upload. */
  lemma IconKeyAsFormatNameFails(config: Config, filename: string, formats: seq<string>, outputFormats: seq<string>,
                                 options: Options, prefix: string, timestamp: string,
                                 original: Image, t: Thumbnailer, text: Size, f: Format)
    requires filename != "" && AllowedFile(filename)
    requires UniqueNames(config) && f in config && f.name == FaviconKey
    requires formats == [] || f.name in formats
    ensures HandleUpload(config, Some(filename), formats, outputFormats, options, prefix, timestamp, original, t, text)
            == Failure(ArchiveFailed(NoPath(FaviconKey)))
  {
    var s := ApplyDefaults(formats, outputFormats, config);
    assert f.name in s.formats;
    var g := GenerateFormats(config, original, prefix, s.formats, s.outputFormats, options, t, text);
    var results := ArchivedResults(config, filename, s, options, prefix, original, t, text);
    AcceptedUpload(config, filename, formats, outputFormats, options, prefix, timestamp, original, t, text);
    GenerateFacts.SelectedFormatEntry(config, original, prefix, s.formats, s.outputFormats, options, t, text, f);
    assert Get(results, FaviconKey) == Get(g.results, FaviconKey);
    assert ZipManifest(results) == Failure(NoPath(FaviconKey));
  }

  /** The stored name of an accepted upload is the base name of its path. */
  lemma StoredNameIsBase(filename: string, prefix: string)
    requires AllowedFile(filename) && '/' !in prefix
    ensures Basename(RefFor(StoredName(filename, prefix)).path) == StoredName(filename, prefix)
  {
    var name := StoredName(filename, prefix);
    var ext :| ext in AllowedExtensions && name == prefix + "." + ext;
    NoSlashInExtension(ext);
    assert '/' !in "." + ext;
  }

  /** No accepted extension contains a path separator. */
  lemma NoSlashInExtension(ext: string)
    requires ext in AllowedExtensions
    ensures '/' !in ext
  {
    assert ext == "png" || ext == "jpg" || ext == "jpeg" || ext == "gif";
  }

  /** The archive holds the original under its stored name, then the icon
      under `favicon.ico` exactly when it was requested, then the
      outputs of the returned dictionary; the archive itself is not among
      them. */
  lemma ArchiveLayout(config: Config, filename: string, formats: seq<string>, outputFormats: seq<string>,
                      options: Options, prefix: string, timestamp: string,
                      original: Image, t: Thumbnailer, text: Size)
    requires filename != "" && AllowedFile(filename) && '/' !in prefix
    requires FaviconKey !in Names(config) && "zip" !in Names(config)
    ensures var r := HandleUpload(config, Some(filename), formats, outputFormats, options, prefix, timestamp, original, t, text);
      var s := ApplyDefaults(formats, outputFormats, config);
      var name := StoredName(filename, prefix);
      && r.Success?
      && r.value.archive
         == [ZipEntry(RefFor(name).path, name)]
            + (if FaviconRequested(s.formats, s.outputFormats) then [ZipEntry(FaviconRef(prefix).path, FaviconArcname)] else [])
            + OutputEntries(r.value.results)
  {
    var s := ApplyDefaults(formats, outputFormats, config);
    var name := StoredName(filename, prefix);
    var g := GenerateFormats(config, original, prefix, s.formats, s.outputFormats, options, t, text);
    var results := ArchivedResults(config, filename, s, options, prefix, original, t, text);
    AcceptedUpload(config, filename, formats, outputFormats, options, prefix, timestamp, original, t, text);
    ArchivedIcon(config, filename, s, options, prefix, original, t, text);
    StoredNameIsBase(filename, prefix);
    var icon := if FaviconRequested(s.formats, s.outputFormats) then Some(FaviconRef(prefix)) else None;
    ManifestLayout(results, RefFor(name), icon);
    assert "zip" !in Keys(results) by {
      GeneratedKeysConfigured(config, original, prefix, s.formats, s.outputFormats, options, t, text, "zip");
    }
    OutputEntriesIgnoreFile(results, "zip", ZipRef(prefix, timestamp));
  }

  /** Each selected format that is not a reserved key contributes
      `<format>.<output_format>` for every requested output format that is
      not `ico` in any case, read from the file it was saved to. */
  lemma SelectedOutputArchived(config: Config, filename: string, formats: seq<string>, outputFormats: seq<string>,
                               options: Options, prefix: string, timestamp: string,
                               original: Image, t: Thumbnailer, text: Size, f: Format, o: string)
    requires filename != "" && AllowedFile(filename)
    requires UniqueNames(config) && FaviconKey !in Names(config) && f in config && !Reserved(f.name)
    requires formats == [] || f.name in formats
    requires o in ApplyDefaults(formats, outputFormats, config).outputFormats && Lower(o) != "ico"
    ensures var r := HandleUpload(config, Some(filename), formats, outputFormats, options, prefix, timestamp, original, t, text);
      r.Success? && ZipEntry(RefFor(prefix + "_" + f.name + "." + o).path, f.name + "." + o) in r.value.archive
  {
    var s := ApplyDefaults(formats, outputFormats, config);
    assert f.name in s.formats;
    var g := GenerateFormats(config, original, prefix, s.formats, s.outputFormats, options, t, text);
    var results := ArchivedResults(config, filename, s, options, prefix, original, t, text);
    AcceptedUpload(config, filename, formats, outputFormats, options, prefix, timestamp, original, t, text);
    AcceptedUploadSucceeds(config, filename, formats, outputFormats, options, prefix, timestamp, original, t, text);
    GenerateFacts.SelectedFormatEntry(config, original, prefix, s.formats, s.outputFormats, options, t, text, f);
    assert Get(results, f.name) == Get(g.results, f.name);
    StoredOutputArchived(results, f.name, Get(results, f.name).value, o, RefFor(prefix + "_" + f.name + "." + o));
  }
}
