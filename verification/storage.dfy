/** Where generated files go and how the application refers to them. The
    writes themselves are recorded, not performed. */
module Storage {
  import opened Common
  import opened Text
  import opened Images

  /** The configured upload folder. */
  const UploadFolder: string := "static/uploads"

  /** The path-and-URL dictionary describing one file. */
  datatype FileRef = FileRef(path: string, url: string)

  /** A file the application asks the imaging library to write. */
  datatype FileWrite =
    | WriteImage(path: string, image: Image, quality: Option<nat>)
    | WriteIco(path: string, image: Image, sizes: seq<Size>)  // one image saved with a list of icon sizes

  /** Path and URL of a file named `filename` inside the upload folder. */
  function RefFor(filename: string): (ref: FileRef)
    ensures '/' !in filename ==> Basename(ref.path) == filename
    ensures ref.url == "/" + UploadFolder + "/" + filename
  {
    var ref := FileRef(JoinPath(UploadFolder, filename), "/" + UploadFolder + "/" + filename);
    if '/' in filename then ref
    else
      BasenameOfJoin(UploadFolder, filename);
      ref
  }
}
