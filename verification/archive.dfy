/** The entry names of `create_zip_file`; writing and copying the archive
    are not modelled. */
module Archive {
  import opened Common
  import opened Text
  import opened Dicts
  import opened Storage
  import opened Generate

  const OriginalKey: string := "original"
  const FaviconArcname: string := "favicon.ico"

  /** One member of the archive: the file read and the name stored. */
  datatype ZipEntry = ZipEntry(source: string, arcname: string)

  /** Reading the path stored under `key` failed: the value under `key` is a
      format entry, which has no path. */
  datatype ArchiveError = NoPath(key: string)

  /** The path stored under `key` can be read, or `key` is absent. */
  predicate PathReadable(results: Dict<Entry>, key: string) {
    Get(results, key).None? || Get(results, key).value.FileEntry?
  }

  /** Keys the archiving loop passes over. */
  predicate Reserved(key: string) {
    key == OriginalKey || key == FaviconKey
  }

  /** `(output_format, ref)` is among the outputs of the format entry stored
      under `key`. */
  ghost predicate StoredOutput(results: Dict<Entry>, key: string, outputFormat: string, ref: FileRef) {
    exists e :: (key, e) in results && e.FormatEntry? && (outputFormat, ref) in e.outputs
  }

  /** The members for one format: `<format>.<output_format>` per output. */
  function NamedOutputs(key: string, outputs: Dict<FileRef>): (es: seq<ZipEntry>)
    ensures forall z :: z in es <==>
      exists o, ref :: (o, ref) in outputs && z == ZipEntry(ref.path, key + "." + o)
  {
    if outputs == [] then []
    else
      assert forall p :: p in outputs <==> p == outputs[0] || p in outputs[1..];
      [ZipEntry(outputs[0].1.path, key + "." + outputs[0].0)] + NamedOutputs(key, outputs[1..])
  }

  /** The archiving loop: every output of every non-reserved key holding outputs,
      in dictionary order. */
  function OutputEntries(results: Dict<Entry>): (es: seq<ZipEntry>)
    ensures forall z :: z in es <==>
      exists k, o, ref :: !Reserved(k) && StoredOutput(results, k, o, ref) && z == ZipEntry(ref.path, k + "." + o)
  {
    if results == [] then []
    else
      var (k, v) := results[0];
      var head := if Reserved(k) || v.FileEntry? then [] else NamedOutputs(k, v.outputs);
      var rest := OutputEntries(results[1..]);
      assert forall p :: p in results <==> p == results[0] || p in results[1..];
      assert forall k', o, ref :: StoredOutput(results, k', o, ref) <==>
        (k' == k && v.FormatEntry? && (o, ref) in v.outputs) || StoredOutput(results[1..], k', o, ref);
      head + rest
  }

  /** A file entry appended at the end adds no member to the loop's part. */
  lemma {:induction false} OutputEntriesIgnoreFile(d: Dict<Entry>, k: string, ref: FileRef)
    ensures OutputEntries(d + [(k, FileEntry(ref))]) == OutputEntries(d)
  {
    if d != [] {
      assert (d + [(k, FileEntry(ref))])[1..] == d[1..] + [(k, FileEntry(ref))];
      OutputEntriesIgnoreFile(d[1..], k, ref);
    }
  }

  /** The original under its base name. */
  function OriginalEntry(results: Dict<Entry>): (r: Result<seq<ZipEntry>, ArchiveError>)
    ensures r.Success? <==> PathReadable(results, OriginalKey)
    ensures OriginalKey !in Keys(results) ==> r == Success([])
    ensures forall ref :: Get(results, OriginalKey) == Some(FileEntry(ref)) ==>
      r == Success([ZipEntry(ref.path, Basename(ref.path))])
  {
    var stored: Option<Entry> := Get(results, OriginalKey);
    match stored
    case None => Success([])
    case Some(FileEntry(ref)) => Success([ZipEntry(ref.path, Basename(ref.path))])
    case Some(FormatEntry(_, _, _)) => Failure(NoPath(OriginalKey))
  }

  /** The icon under the fixed name `favicon.ico`. */
  function FaviconEntry(results: Dict<Entry>): (r: Result<seq<ZipEntry>, ArchiveError>)
    ensures r.Success? <==> PathReadable(results, FaviconKey)
    ensures FaviconKey !in Keys(results) ==> r == Success([])
    ensures forall ref :: Get(results, FaviconKey) == Some(FileEntry(ref)) ==>
      r == Success([ZipEntry(ref.path, FaviconArcname)])
  {
    var stored: Option<Entry> := Get(results, FaviconKey);
    match stored
    case None => Success([])
    case Some(FileEntry(ref)) => Success([ZipEntry(ref.path, FaviconArcname)])
    case Some(FormatEntry(_, _, _)) => Failure(NoPath(FaviconKey))
  }

  /** The members of the archive, in the order they are written; an error
      when a reserved key holds a format entry. */
  function ZipManifest(results: Dict<Entry>): (r: Result<seq<ZipEntry>, ArchiveError>)
    ensures r.Success? <==> PathReadable(results, OriginalKey) && PathReadable(results, FaviconKey)
    ensures r.Success? ==>
      r.value == OriginalEntry(results).value + FaviconEntry(results).value + OutputEntries(results)
  {
    match OriginalEntry(results)
    case Failure(e) => Failure(e)
    case Success(first) =>
      match FaviconEntry(results)
      case Failure(e) => Failure(e)
      case Success(second) => Success(first + second + OutputEntries(results))
  }

  /** With file entries under both reserved keys (or none under the icon
      key), the archive is the original, the icon, then the loop's part. */
  lemma ManifestLayout(results: Dict<Entry>, original: FileRef, icon: Option<FileRef>)
    requires Get(results, OriginalKey) == Some(FileEntry(original))
    requires Get(results, FaviconKey) == if icon.Some? then Some(FileEntry(icon.value)) else None
    ensures ZipManifest(results)
            == Success([ZipEntry(original.path, Basename(original.path))]
                       + (if icon.Some? then [ZipEntry(icon.value.path, FaviconArcname)] else [])
                       + OutputEntries(results))
  {
  }

  /** Every output stored under a non-reserved key is archived under
      `<key>.<output_format>`. */
  lemma StoredOutputArchived(results: Dict<Entry>, key: string, e: Entry, o: string, ref: FileRef)
    requires Get(results, key) == Some(e) && e.FormatEntry? && Get(e.outputs, o) == Some(ref)
    requires !Reserved(key) && ZipManifest(results).Success?
    ensures ZipEntry(ref.path, key + "." + o) in ZipManifest(results).value
  {
    GetStored(results, key, e);
    GetStored(e.outputs, o, ref);
    var z := ZipEntry(ref.path, key + "." + o);
    assert z in OutputEntries(results) by {
      assert StoredOutput(results, key, o, ref);
    }
    var m := ZipManifest(results).value;
    assert m == OriginalEntry(results).value + FaviconEntry(results).value + OutputEntries(results);
  }
}
