/** The geometry half of `generate_formats`: which configured formats are
    kept, and where the resized image sits on each format's canvas. */
module Layout {
  import opened Common
  import opened Dicts
  import opened Images

  /** One entry of the `formats` table of the configuration file. */
  datatype Format = Format(name: string, width: nat, height: nat, description: Option<string>) {
    function Box(): Size {
      Size(width, height)
    }
  }

  /** The `formats` table in file order. */
  type Config = seq<Format>

  function Names(config: Config): (ns: seq<string>)
    ensures |ns| == |config|
    ensures forall i :: 0 <= i < |config| ==> ns[i] == config[i].name
  {
    seq(|config|, i requires 0 <= i < |config| => config[i].name)
  }

  /** The loaded `formats` dictionary has distinct keys. */
  predicate UniqueNames(config: Config) {
    Distinct(Names(config))
  }

  /** `a` is `b` with some elements left out and the rest in the same order. */
  predicate Subsequence<T(==)>(a: seq<T>, b: seq<T>)
    decreases |b|
  {
    a == [] || (b != [] && if a[0] == b[0] then Subsequence(a[1..], b[1..]) else Subsequence(a, b[1..]))
  }

  /** The configured formats whose name is selected, in configuration order. */
  function KeepSelected(config: Config, selected: seq<string>): (kept: Config)
    ensures Subsequence(kept, config)
    ensures forall f :: f in kept <==> f in config && f.name in selected
  {
    if config == [] then []
    else
      var rest := KeepSelected(config[1..], selected);
      assert forall f :: f in config <==> f == config[0] || f in config[1..];
      if config[0].name in selected then [config[0]] + rest else rest
  }

  /** A non-empty selection restricts the table, an empty one
      keeps all of it. */
  function FilterFormats(config: Config, selected: seq<string>): (kept: Config)
    ensures Subsequence(kept, config)
    ensures forall f :: f in kept <==> f in config && (selected == [] || f.name in selected)
    ensures selected == [] ==> kept == config
  {
    if selected != [] then KeepSelected(config, selected)
    else
      SubsequenceRefl(config);
      config
  }

  lemma {:induction false} SubsequenceRefl<T>(a: seq<T>)
    ensures Subsequence(a, a)
  {
    if a != [] {
      SubsequenceRefl(a[1..]);
    }
  }

  /** Selecting every configured name keeps the whole table. */
  lemma {:induction false} SelectingAllKeepsAll(config: Config)
    ensures FilterFormats(config, Names(config)) == config
  {
    if config != [] {
      KeepAllOf(config, Names(config));
    }
  }

  lemma {:induction false} KeepAllOf(config: Config, selected: seq<string>)
    requires forall f :: f in config ==> f.name in selected
    ensures KeepSelected(config, selected) == config
  {
    if config != [] {
      assert config[0] in config;
      KeepAllOf(config[1..], selected);
      assert [config[0]] + config[1..] == config;
    }
  }

  /** Filtering keeps names distinct. */
  lemma {:induction false} FilterKeepsUnique(config: Config, selected: seq<string>)
    requires UniqueNames(config)
    ensures UniqueNames(FilterFormats(config, selected))
  {
    if selected != [] {
      KeepSelectedUnique(config, selected);
    }
  }

  lemma {:induction false} KeepSelectedUnique(config: Config, selected: seq<string>)
    requires UniqueNames(config)
    ensures UniqueNames(KeepSelected(config, selected))
  {
    if config != [] {
      assert Names(config) == [config[0].name] + Names(config[1..]);
      KeepSelectedUnique(config[1..], selected);
      var rest := KeepSelected(config[1..], selected);
      if config[0].name in selected {
        assert Names([config[0]] + rest) == [config[0].name] + Names(rest);
      }
    }
  }

  /** The paste position: half of each leftover, rounded down (Python's `//`,
      which agrees with Dafny's `/` for the divisor 2). */
  function CenterOffset(canvas: Size, image: Size): (pos: (int, int))
    ensures 2 * pos.0 <= canvas.width - image.width < 2 * pos.0 + 2
    ensures 2 * pos.1 <= canvas.height - image.height < 2 * pos.1 + 2
  {
    ((canvas.width - image.width) / 2, (canvas.height - image.height) / 2)
  }

  /** An image no larger than the canvas is pasted inside it, and the margin
      after it equals the margin before it or is one pixel wider. */
  lemma CenteredInside(canvas: Size, image: Size)
    requires image.width <= canvas.width && image.height <= canvas.height
    ensures var pos := CenterOffset(canvas, image);
      && 0 <= pos.0 && pos.0 + image.width <= canvas.width
      && 0 <= pos.1 && pos.1 + image.height <= canvas.height
      && canvas.width - (pos.0 + image.width) - pos.0 in {0, 1}
      && canvas.height - (pos.1 + image.height) - pos.1 in {0, 1}
  {
  }

  /** A transparent canvas of exactly the box size with the
      resized image pasted centred, using the image itself as mask when it
      has an alpha channel. */
  function Compose(resized: Image, box: Size): (canvas: Image)
    ensures canvas.Dims() == box && canvas.mode == RGBA
    ensures |canvas.ops| == 1 && canvas.ops[0].Paste? && canvas.ops[0].layer == resized
    ensures canvas.ops[0].masked <==> resized.mode == RGBA
    ensures (canvas.ops[0].x, canvas.ops[0].y) == CenterOffset(box, resized.Dims())
  {
    var pos := CenterOffset(box, resized.Dims());
    Canvas(box).(ops := [Paste(resized, pos.0, pos.1, resized.mode == RGBA)])
  }

  /** The canvas of one format: thumbnail into the format's box, then
      compose onto its canvas. */
  function LayoutFormat(processed: Image, f: Format, t: Thumbnailer): (canvas: Image)
    ensures canvas.Dims() == f.Box() && canvas.mode == RGBA
    ensures |canvas.ops| == 1 && canvas.ops[0].Paste?
    ensures canvas.ops[0].layer == ThumbnailOf(processed, f.Box(), t)
    ensures IsThumbnailer(t) && f.width > 0 && f.height > 0 ==>
      var p := canvas.ops[0];
      && 0 <= p.x && p.x + p.layer.width <= f.width
      && 0 <= p.y && p.y + p.layer.height <= f.height
  {
    var resized := ThumbnailOf(processed, f.Box(), t);
    Compose(resized, f.Box())
  }
}
