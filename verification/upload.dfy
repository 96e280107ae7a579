/** The request-level logic of `upload_file`: the extension check, the
    defaults for empty selections, and the composition of generation and
    archiving. Form parsing, the uploaded bytes and the HTTP responses are
    not modelled. */
module Upload {
  import opened Common
  import opened Text
  import opened Dicts
  import opened Images
  import opened Preprocessing
  import opened Layout
  import opened Storage
  import opened Generate
  import opened Archive

  /** The configured set of accepted extensions. */
  const AllowedExtensions: set<string> := {"png", "jpg", "jpeg", "gif"}

  /** Output list used when none is selected. */
  const DefaultOutputFormats: seq<string> := ["png"]

  /** `allowed_file`: a dot, and an accepted lower-cased last extension. */
  predicate AllowedFile(filename: string) {
    '.' in filename && Lower(RSplitOnce(filename, '.')[1]) in AllowedExtensions
  }

  /** A name is allowed exactly when it has a dot and the text after its
      last dot, lower-cased, is an allowed extension. */
  lemma AllowedFileIff(filename: string)
    ensures AllowedFile(filename) <==>
      exists i :: 0 <= i < |filename| && filename[i] == '.' && '.' !in filename[i + 1..]
                  && Lower(filename[i + 1..]) in AllowedExtensions
  {
  }

  /** With a dot-free extension, only the extension decides. */
  lemma {:induction false} AllowedByExtension(stem: string, ext: string)
    requires '.' !in ext
    ensures AllowedFile(stem + "." + ext) <==> Lower(ext) in AllowedExtensions
  {
    var name := stem + "." + ext;
    assert name[|stem|] == '.';
    assert name[|stem| + 1..] == ext;
    LastIndexOfUnique(name, '.', |stem|);
  }

  /** An upper-case extension passes. */
  lemma UpperCaseExtensionAllowed(stem: string)
    ensures AllowedFile(stem + ".PNG")
  {
    assert stem + ".PNG" == stem + "." + "PNG";
    AllowedByExtension(stem, "PNG");
    assert Lower("PNG") == "png" by {
      assert Lower("G") == "g";
      assert Lower("NG") == "n" + Lower("G");
    }
  }

  /** A double extension passes when the last one is allowed. */
  lemma DoubleExtensionAllowed(stem: string)
    ensures AllowedFile(stem + ".tar.gif")
  {
    assert stem + ".tar.gif" == (stem + ".tar") + "." + "gif";
    AllowedByExtension(stem + ".tar", "gif");
    assert Lower("gif") == "gif";
  }

  /** An allowed inner extension does not rescue a disallowed last one. */
  lemma InnerExtensionIgnored(stem: string)
    ensures !AllowedFile(stem + ".png.exe")
  {
  }

  /** A name without a dot is refused, even if it spells an extension. */
  lemma NoDotRefused(filename: string)
    requires '.' !in filename
    ensures !AllowedFile(filename)
  {
  }

  /** The selections once the defaults are applied. */
  datatype Selection = Selection(formats: seq<string>, outputFormats: seq<string>)

  /** No format selected means every configured one; no
      output format selected means PNG only. */
  function ApplyDefaults(formats: seq<string>, outputFormats: seq<string>, config: Config): (s: Selection)
    ensures formats != [] ==> s.formats == formats
    ensures formats == [] ==> s.formats == Names(config)
    ensures outputFormats != [] ==> s.outputFormats == outputFormats
    ensures outputFormats == [] ==> s.outputFormats == DefaultOutputFormats
    ensures s.outputFormats != []
  {
    Selection(if formats == [] then Names(config) else formats,
              if outputFormats == [] then DefaultOutputFormats else outputFormats)
  }

  /** Either way, an empty format selection ends up keeping the whole table. */
  lemma EmptySelectionKeepsAll(config: Config, outputFormats: seq<string>)
    ensures FilterFormats(config, ApplyDefaults([], outputFormats, config).formats) == config
  {
    SelectingAllKeepsAll(config);
  }

  /** Applying the defaults twice changes nothing more. */
  lemma DefaultsIdempotent(formats: seq<string>, outputFormats: seq<string>, config: Config)
    ensures var s := ApplyDefaults(formats, outputFormats, config);
      ApplyDefaults(s.formats, s.outputFormats, config) == s
  {
  }

  datatype UploadError =
    | NoFilePart                   // 'No file part'
    | NoSelectedFile               // 'No selected file'
    | FileTypeNotAllowed           // 'File type not allowed'
    | ArchiveFailed(e: ArchiveError)

  /** The `results` dictionary of the response, the files written and the
      archive's members. */
  datatype Response = Response(results: Dict<Entry>, writes: seq<FileWrite>, archive: seq<ZipEntry>)

  /** `<prefix>.<ext>`, the stored name of the upload. */
  function StoredName(filename: string, prefix: string): (name: string)
    requires '.' in filename
    ensures AllowedFile(filename) ==>
      exists ext :: ext in AllowedExtensions && name == prefix + "." + ext
  {
    prefix + "." + Lower(RSplitOnce(filename, '.')[1])
  }

  /** The stored name keeps the upload's own last extension, lower-cased. */
  lemma StoredNameKeepsExtension(stem: string, ext: string, prefix: string)
    requires '.' !in ext
    ensures StoredName(stem + "." + ext, prefix) == prefix + "." + Lower(ext)
  {
    var name := stem + "." + ext;
    assert name[|stem|] == '.';
    assert name[|stem| + 1..] == ext;
    LastIndexOfUnique(name, '.', |stem|);
  }

  /** The generated formats plus the `original` entry: the
      dictionary the archive is built from. */
  function ArchivedResults(config: Config, filename: string, s: Selection, options: Options,
                           prefix: string, original: Image, t: Thumbnailer, text: Size): (results: Dict<Entry>)
    requires '.' in filename
    ensures Get(results, OriginalKey) == Some(FileEntry(RefFor(StoredName(filename, prefix))))
    ensures forall k :: k != OriginalKey ==>
      Get(results, k) == Get(GenerateFormats(config, original, prefix, s.formats, s.outputFormats, options, t, text).results, k)
  {
    var g := GenerateFormats(config, original, prefix, s.formats, s.outputFormats, options, t, text);
    Put(g.results, OriginalKey, FileEntry(RefFor(StoredName(filename, prefix))))
  }

  /** Where the archive is stored. */
  function ZipRef(prefix: string, timestamp: string): (ref: FileRef)
    ensures ref.url == "/" + UploadFolder + "/" + prefix + "_brandkit_" + timestamp + ".zip"
    ensures '/' !in prefix + timestamp ==> Basename(ref.path) == prefix + "_brandkit_" + timestamp + ".zip"
  {
    RefFor(prefix + "_brandkit_" + timestamp + ".zip")
  }

  /** `upload_file`: `file` is the name of the uploaded file part, if there
      is one; `prefix` stands for the random hex name, `timestamp` for the
      clock reading in the archive name, and `original` for the decoded
      upload. */
  function HandleUpload(config: Config, file: Option<string>, formats: seq<string>, outputFormats: seq<string>,
                        options: Options, prefix: string, timestamp: string,
                        original: Image, t: Thumbnailer, text: Size)
    : (r: Result<Response, UploadError>)
    ensures r == Failure(NoFilePart) <==> file.None?
    ensures r == Failure(NoSelectedFile) <==> file == Some("")
    ensures r == Failure(FileTypeNotAllowed) <==> file.Some? && file.value != "" && !AllowedFile(file.value)
  {
    match file
    case None => Failure(NoFilePart)
    case Some(filename) =>
      if filename == "" then Failure(NoSelectedFile)
      else if !AllowedFile(filename) then Failure(FileTypeNotAllowed)
      else
        var s := ApplyDefaults(formats, outputFormats, config);
        var g := GenerateFormats(config, original, prefix, s.formats, s.outputFormats, options, t, text);
        var results := ArchivedResults(config, filename, s, options, prefix, original, t, text);
        match ZipManifest(results)
        case Failure(e) => Failure(ArchiveFailed(e))
        case Success(members) =>
          Success(Response(Put(results, "zip", FileEntry(ZipRef(prefix, timestamp))), g.writes, members))
  }
}
