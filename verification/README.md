# brandkit asset pipeline, modelled in Dafny

brandkit turns one uploaded logo into a kit of brand assets. The user picks
formats from a configuration table (for example social-media avatars and
banners, each with a width, height and description) and output encodings
(`png`, `jpg`, `webp`, `ico`, ...). The application does the following:

- it optionally preprocesses the image: grayscale, contrast, blur, then a watermark;
- it fits a thumbnail of the image centred on a transparent canvas of each format's exact size;
- it saves one file per format and encoding and, on request, a `favicon.ico`: the 16-pixel thumbnail handed to the ICO encoder with a list of 16, 32 and 48 pixel sizes;
- it answers with a dictionary describing every file;
- it bundles everything into a ZIP archive.

This project models the decisions and the geometry of that pipeline. It covers:

- which uploads are accepted;
- which preprocessing steps run, in which order, and where the watermark goes;
- which formats are kept and where the image sits on each canvas;
- which encoder is chosen and which files are written under which names;
- what the result dictionary holds;
- which archive members exist and what they are called.

Pixels are abstract. An image is a record of width, height, mode and the list of operations applied to it. The thumbnail operation is a parameter, constrained only by the predicate `IsThumbnailer`: the result fits the box and is never enlarged. The watermark text's measured size is an input.

Modules follow the source's functions:

| file | module | models |
|---|---|---|
| common.dfy | `Common` | `Option`, `Result` |
| text.dfy | `Text` | ASCII `str.lower`, `rsplit('.', 1)`, `os.path.join`, `os.path.basename` |
| dicts.dfy | `Dicts` | Python's insertion-ordered `dict` as an association list |
| images.dfy | `Images` | abstract images, canvases, thumbnails, mode conversion |
| preprocess.dfy | `Preprocessing` | `preprocess_image` |
| layout.dfy | `Layout` | format filtering, canvas and centring in `generate_formats` |
| storage.dfy | `Storage` | upload-folder paths and URLs, recorded file writes |
| favicon.dfy | `Favicon` | `create_favicon` |
| generate.dfy | `Generate` | `generate_formats`: dispatch, naming, result entries |
| generate_facts.dfy | `GenerateFacts` | properties of `generate_formats` as a whole |
| archive.dfy | `Archive` | member names of `create_zip_file` |
| upload.dfy | `Upload` | `allowed_file` and `upload_file` |
| upload_facts.dfy | `UploadFacts` | properties of a whole accepted upload |

The model follows this revision of `app.py`. Where it differs from later revisions of brandkit, the code is what is modelled:

- A format named `favicon` is laid out and saved like any other. Only the `ico` encoding is diverted, and it is skipped for every format.
- The icon is made when the exact string `ico` is requested (line 109). The loop skips `ico` in any case (lines 139 and 153), so a request for `ICO` yields no icon at all.
- Apart from the font fallback (app.py:48-51), nothing is caught. A failing save ends the request; there is no per-artifact recovery.
- A selected format named `favicon_ico` also ends the request: its entry replaces the icon entry, which then has no `path` for the archive. A format named `original` does not: its files are written, but the upload's own entry replaces it before archiving, so it is neither archived nor returned.
- Results are file paths and URLs in the upload folder, not in-memory bytes.
- The only preprocessing steps are grayscale, contrast, blur and watermark. There are no presets, analysis, smart fill, hue or temperature filters, and no caching.

## Model

| member | source | states |
|---|---|---|
| Text.Lower | app.py:27 | `str.lower()` keeps the length and folds each character independently (ASCII A-Z only) |
| Text.LastIndexOf | app.py:27 | the index found holds the separator with none after it; absent exactly when the separator does not occur |
| Text.LastIndexOfUnique | app.py:27 | the last occurrence is the only position holding the separator with none after it |
| Text.RSplitOnce | app.py:27 | `rsplit(sep, 1)`: one part without a separator, otherwise two parts that rejoin around the separator, the second free of it |
| Text.JoinPath | app.py:72 | `os.path.join` of two components, for absolute, empty and slash-terminated operands |
| Text.Basename | app.py:183 | `os.path.basename` contains no '/' and is the whole path when there is none, otherwise a suffix after some '/' |
| Text.BasenameOfJoin | app.py:182-183 | the base name of a file name joined onto a directory is that file name |
| Dicts.Get | app.py:181 | a lookup misses exactly when the key is absent |
| Dicts.GetIffStored | app.py:164 | with unique keys, a lookup finds exactly the stored pairs |
| Dicts.GetStored | app.py:164 | whatever a lookup finds is stored under that key |
| Dicts.Put | app.py:164 | assignment keeps the key order when the key is present and appends otherwise; the key then maps to the new value, every other key is unaffected, and keys stay unique |
| Dicts.PutAll | app.py:112-168 | a sequence of assignments: the key set is the union, untouched keys keep their values, and assigned keys take the assigned value |
| Dicts.PutAllAppendsFresh | app.py:102-168 | assigning fresh, distinct keys appends them in order |
| Images.ThumbnailOf | app.py:78 | a thumbnail keeps the mode, records the box, and fits the box whenever the sizing function is a thumbnailer |
| Preprocessing.WatermarkPosition | app.py:57 | the text's bottom-right corner sits 20 pixels in from the image's bottom-right corner |
| Preprocessing.Plan | app.py:31-64 | an operation is planned exactly when its option is on (contrast 1.5, blur radius defaulting to 2, watermark only with flag and text, at the computed position), and planned steps are strictly in the order grayscale, contrast, blur, watermark |
| Preprocessing.Preprocess | app.py:29-66 | the image keeps its size; it becomes RGBA when grayscale or the watermark runs, and keeps its mode otherwise; its history grows by exactly the planned steps |
| Preprocessing.AllOffIsIdentity | app.py:29-66 | with every step off the image is returned unchanged |
| Preprocessing.BlurAndWatermarkDefaults | app.py:38-42 | blur without a radius uses 2; a watermark is drawn if and only if both its flag and its text are set |
| Preprocessing.ToGrayscale | app.py:31-32 | grayscale keeps the size and leaves an RGBA image |
| Preprocessing.Enhance | app.py:34-40 | contrast and blur keep the size and the mode |
| Preprocessing.AddWatermark | app.py:42-64 | the watermark keeps the size, leaves an RGBA image, and places the text 20 pixels in from the bottom-right corner |
| Images.Canvas | app.py:122 | a new canvas has exactly the requested size, is RGBA, and has nothing drawn on it |
| Images.Convert | app.py:148-151 | conversion keeps the size and sets the mode; an image already in that mode is returned unchanged |
| Layout.KeepSelected | app.py:100 | the kept formats are an order-preserving subsequence of the table holding exactly the selected entries |
| Layout.FilterFormats | app.py:99-100 | a non-empty selection keeps exactly the configured formats whose name is selected, in table order, ignoring unknown names; an empty selection keeps the whole table |
| Layout.SelectingAllKeepsAll | app.py:99-100 | selecting every configured name keeps the whole table |
| Layout.KeepAllOf | app.py:100 | when every configured name is selected, nothing is dropped |
| Layout.FilterKeepsUnique | app.py:99-100 | filtering keeps format names distinct |
| Layout.KeepSelectedUnique | app.py:100 | the selected subtable has distinct names when the table does |
| Layout.CenterOffset | app.py:125-126 | each offset is half the leftover space rounded down: twice the offset is at most the leftover and at least the leftover minus one |
| Layout.CenteredInside | app.py:125-126 | an image no larger than the canvas lies wholly inside it, and each trailing margin equals the leading margin or exceeds it by one |
| Layout.Compose | app.py:122-132 | the canvas is RGBA of exactly the box size, with one centred paste of the resized image, masked exactly when that image is RGBA |
| Layout.LayoutFormat | app.py:113-132 | each format's canvas has exactly the configured size and holds the thumbnail of the processed image, placed inside the canvas whenever the sizing function is a thumbnailer |
| Storage.RefFor | app.py:143-144 | a stored file's URL is `/static/uploads/<name>`, and the base name of its path is the file name |
| Favicon.Renditions | app.py:75-79 | one thumbnail per box, in box order |
| Favicon.SizesOf | app.py:85 | the sizes list is each rendition's own width and height |
| Favicon.FaviconRef | app.py:71-72 | the icon's URL is `/static/uploads/<prefix>_favicon.ico`, and its path's base name is `<prefix>_favicon.ico` |
| Favicon.CreateFavicon | app.py:68-91 | the icon is written to `<prefix>_favicon.ico`; the image handed to the encoder is the 16-pixel thumbnail alone, and the sizes list holds the dimensions of the 16, 32 and 48 pixel thumbnails in that order, each within its box |
| Generate.Dispatch | app.py:139-157 | the per-output branch, tests in source order; its meaning is stated by Generate.DispatchIgnoresFormatName |
| Generate.DispatchIgnoresFormatName | app.py:139-157 | the branch depends on the lower-cased output format alone: `ico` skips, `jpg`/`jpeg` and `webp` pick their encoders, anything else goes to the default branch, and the format name never matters |
| Generate.Save | app.py:147-157 | JPEG converts to RGB at quality 95, WebP converts to RGBA at quality 95, and the default branch saves the canvas unconverted, without a quality setting, in the encoding its extension names |
| Generate.OutputFilename | app.py:143 | an output file is named `<prefix>_<format>.<output_format>`, the output format spelled as requested; Generate.OutputRef and GenerateFacts.SelectedFormatEntry state where it is used |
| Generate.SaveOutput | app.py:142-157 | the write for an output that is not skipped: the branch Generate.Dispatch picks, applied at the output's path; Generate.Save states each branch |
| Generate.OutputRef | app.py:143-144 | an output's URL is `/static/uploads/<prefix>_<format>.<output_format>`, and a slash-free name is its path's base name |
| Generate.RenderOutputs | app.py:134-162 | a format's outputs have one key per requested output format that is not `ico` in any case, spelled as given and stored as `<prefix>_<format>.<output_format>`, with a write for exactly those |
| Generate.RenderFormat | app.py:113-168 | a format entry carries the box, the description (empty when absent), and the outputs and writes of its canvas |
| Generate.FormatItems | app.py:112-168 | the loop assigns one entry per kept format, in kept order |
| Generate.FormatWrites | app.py:112-162 | the loop writes a file exactly for each kept format and each requested output format that is not `ico` in any case |
| Generate.GenerateFormats | app.py:93-170 | `generate_formats`; its contract is carried by GenerateFacts.ResultKeys, GenerateFacts.FaviconEntry, GenerateFacts.SelectedFormatEntry, GenerateFacts.UnselectedFormatAbsent, GenerateFacts.WrittenFiles and GenerateFacts.IcoWrittenIffRequested |
| GenerateFacts.KeptNamesConfigured | app.py:99-100 | every kept name is a configured name |
| GenerateFacts.ResultKeys | app.py:102-168 | the result keys are `favicon_ico` when requested, followed by the kept format names in table order |
| GenerateFacts.FaviconEntry | app.py:108-110 | `favicon_ico` is present, pointing at the icon file, exactly when `favicon` is selected and the exact string `ico` is requested, whether or not `favicon` is configured |
| GenerateFacts.LoopEntry | app.py:164-168 | the entry stored under a kept format's name is that format's own entry |
| GenerateFacts.SelectedFormatEntry | app.py:112-168 | a selected format's entry has its dimensions and description, and one output per requested output format that is not `ico` in any case, stored as `<prefix>_<format>.<output_format>` |
| GenerateFacts.UnselectedFormatAbsent | app.py:99-100 | a configured format left out of a non-empty selection gets no entry |
| GenerateFacts.WrittenFiles | app.py:108-162 | the files written are the icon when requested, and one file for each kept format and each requested output format that is not `ico` in any case |
| GenerateFacts.IcoWrittenIffRequested | app.py:109 | an ICO file is written exactly when `favicon` is selected and the exact string `ico` is requested; an upper-case `ICO` yields none |
| Archive.NamedOutputs | app.py:196-200 | one member per output, named `<format>.<output_format>` and read from that output's path |
| Archive.OutputEntries | app.py:191-200 | the loop archives exactly the outputs of non-reserved keys holding format entries, named `<format>.<output_format>` |
| Archive.OutputEntriesIgnoreFile | app.py:194-195 | an entry without outputs contributes no member |
| Archive.OriginalEntry | app.py:181-183 | the original is archived under the base name of its path, nothing is added when it is absent, and it fails when the entry has no path |
| Archive.FaviconEntry | app.py:186-188 | the icon is archived as `favicon.ico`, nothing is added when it is absent, and it fails when the entry has no path |
| Archive.ZipManifest | app.py:179-200 | the archive succeeds exactly when both reserved keys are absent or hold files; its members are the original, then the icon, then the loop's members |
| Archive.ManifestLayout | app.py:179-200 | with file entries under both reserved keys, the members are the original under its base name, then the icon under `favicon.ico` if present, then the outputs |
| Archive.StoredOutputArchived | app.py:191-200 | every output stored under a non-reserved key is archived as `<key>.<output_format>` |
| Upload.AllowedFile | app.py:25-27 | `allowed_file`; its meaning is stated by Upload.AllowedFileIff and Upload.AllowedByExtension |
| Upload.AllowedFileIff | app.py:25-27 | a name is accepted exactly when it contains a dot and the lower-cased text after its last dot is `png`, `jpg`, `jpeg` or `gif` |
| Upload.AllowedByExtension | app.py:14 | for `<stem>.<ext>` with a dot-free extension, only the lower-cased extension decides |
| Upload.UpperCaseExtensionAllowed | app.py:25-27 | any `<stem>.PNG` is accepted |
| Upload.DoubleExtensionAllowed | app.py:25-27 | any `<stem>.tar.gif` is accepted |
| Upload.InnerExtensionIgnored | app.py:25-27 | any `<stem>.png.exe` is refused |
| Upload.NoDotRefused | app.py:26 | every name without a dot is refused, whatever it spells |
| Upload.ApplyDefaults | app.py:241-247 | a non-empty selection is kept as given; an empty format selection becomes every configured name; an empty output selection becomes `png` alone |
| Upload.EmptySelectionKeepsAll | app.py:241-244 | an empty format selection keeps the whole table |
| Upload.DefaultsIdempotent | app.py:241-247 | applying the defaults a second time changes nothing |
| Upload.StoredName | app.py:261-263 | an accepted upload is stored as `<prefix>.<ext>` with `ext` one of the accepted extensions |
| Upload.StoredNameKeepsExtension | app.py:261-263 | an upload `<stem>.<ext>` with a dot-free `ext` is stored as `<prefix>.<lower-cased ext>`: the upload's own last extension, never another accepted one |
| Upload.ArchivedResults | app.py:270-282 | the dictionary handed to the archive holds the original's file entry under `original` and is the generated dictionary under every other key |
| Upload.ZipRef | app.py:203-206 | the archive's URL is `/static/uploads/<prefix>_brandkit_<timestamp>.zip`, and that file name is its path's base name |
| Upload.HandleUpload | app.py:226-294 | a missing file part, an empty name and a disallowed extension each give their own error, and only they do |
| UploadFacts.GeneratedKeysConfigured | app.py:102-168 | every generated key is `favicon_ico` or a configured format name |
| UploadFacts.ArchivedIcon | app.py:108-110 | after the original is added, `favicon_ico` still holds the icon exactly when it was requested |
| UploadFacts.AcceptedUpload | app.py:270-292 | an accepted upload answers with the archive of the generated results plus `original`, or with the archive's error, and adds `zip` only after archiving |
| UploadFacts.AcceptedUploadSucceeds | app.py:235-292 | an accepted upload is archived without error when no format is named `favicon_ico` |
| UploadFacts.IconKeyAsFormatNameFails | app.py:186-187 | a selected format named `favicon_ico` makes the archive fail on that key |
| UploadFacts.NoSlashInExtension | app.py:14 | no accepted extension contains a path separator |
| UploadFacts.StoredNameIsBase | app.py:261-266 | the stored upload's base name is `<prefix>.<lower-cased extension>` |
| UploadFacts.ArchiveLayout | app.py:179-200 | the archive holds the original under `<prefix>.<ext>`, then `favicon.ico` exactly when requested, then the outputs of the returned dictionary |
| UploadFacts.SelectedOutputArchived | app.py:191-200 | every selected format that is not a reserved key is archived as `<format>.<output_format>` for each requested output format that is not `ico` in any case, read from its saved file |

## Left out

- HTTP and Flask: routes, the index page, `download_zip`, JSON encoding and status codes. `HandleUpload` returns the values the responses carry.
- Form parsing of the preprocessing options (app.py:250-258): `float(...)` parsing and its `ValueError`. Options arrive already parsed.
- Watermark opacity (app.py:60): floating point that changes no decision or geometry.
- File system, clock and randomness:
  - directory creation and `config.json` loading (the table is a parameter, one for both reads);
  - the `uuid` hex name (`prefix`) and the timestamp, which are parameters;
  - temporary files and the ZIP bytes, and the copy of the archive.
  - File writes are recorded as `FileWrite` values and not performed.
- PIL internals: LANCZOS resampling, contrast, blur, text rendering, font fallback and every encoder are abstract.
  - Thumbnail sizes and the text box are parameters.
  - Exceptions PIL may raise are not modelled: an unknown output extension in the default branch, a JPEG save of an RGBA canvas there (`jpe`, `jfif`), a blur on a palette image, an undecodable upload.
- Images.ThumbnailOf: the exact rounding of PIL's `thumbnail` is not derived. Only "fits the box, never enlarged" is assumed, through `IsThumbnailer`.
- Favicon.CreateFavicon: the model records the 16-pixel image and the sizes list handed to the ICO writer. The writer itself is not modelled; PIL drops sizes larger than the image it is given, so the file may hold fewer sizes than the list names.
- Generate.Save: the default branch passes no format, so the image library picks the encoder from the path's extension (`gif`, `bmp`, `tiff`, `png`, …). The model records the path and the unconverted canvas; the encoding is implied by the path, not modelled.
- Text.Lower: case folding covers ASCII letters only, not Unicode.
- `MAX_CONTENT_LENGTH` (app.py:15) is enforced by Flask before this code runs.
- Layout.Format: widths and heights are natural numbers. A zero or negative size in the configuration would make PIL fail in `thumbnail`; the model instead produces a canvas and writes for a zero size.
- Generate.GenerateFormats: the format table is a sequence. A configuration file that repeats a format name (the loaded dictionary keeps one entry per name) is not modelled; for such a table the model would write files for the shadowed duplicate too. The lemmas that depend on it require `UniqueNames`.
- Archive.ZipEntry: the member name recorded is the name passed to the archive writer. `zipfile` normalises it and strips a leading '/', so an output format containing '/' or '..' would be stored under a different name.
- Upload.HandleUpload: `Response.writes` holds the generated files only, not the saving of the upload itself (app.py:267).
- `secure_filename` is imported but never used by this code.
