/** Clipboard items and their wire form: the `proto` conversions. */
module ClipboardCodec {
  import opened Prelude

  type Bytes = seq<int>

  const I32_LIMIT: nat := 0x8000_0000

  datatype Image = Rgba(width: nat, height: nat, pixels: Bytes) | Png(png: Bytes) | Svg(svg: Bytes)

  /** Texts are their UTF-8 bytes. */
  datatype Item =
    | Text(text: Bytes)
    | Rtf(text: Bytes)
    | Html(text: Bytes)
    | Picture(image: Image)
    | Special(name: string, data: Bytes)
    | FileUrl(urls: seq<string>)
    | NoItem

  datatype Format = FormatText | FormatRtf | FormatHtml | FormatRgba | FormatPng | FormatSvg | FormatSpecial | FormatOther

  datatype Clipboard = Clipboard(compressed: bool, content: Bytes, format: Format, width: int, height: int, specialName: string)

  /** The foreign functions: compression and UTF-8 validation. */
  datatype Library = Library(compress: Bytes -> Bytes, decompress: Bytes -> Bytes, isUtf8: Bytes -> bool)

  ghost predicate Lossless(lib: Library) {
    forall b: Bytes :: lib.decompress(lib.compress(b)) == b
  }

  /** `as i32`: the low word, read with a sign. */
  function ToI32(x: nat): int {
    var low := x % U32_LIMIT;
    if low < I32_LIMIT then low else low - U32_LIMIT
  }

  function Pack(lib: Library, b: Bytes, format: Format): Clipboard {
    var small := lib.compress(b);
    var better := |small| < |b|;
    Clipboard(better, if better then small else b, format, 0, 0, "")
  }

  function Unpack(lib: Library, c: Clipboard): Bytes {
    if c.compressed then lib.decompress(c.content) else c.content
  }

  /** `clipboard_data_to_proto`. */
  function Encode(lib: Library, item: Item): Option<Clipboard> {
    match item
    case Text(text) => Some(Pack(lib, text, FormatText))
    case Rtf(text) => Some(Pack(lib, text, FormatRtf))
    case Html(text) => Some(Pack(lib, text, FormatHtml))
    case Picture(Rgba(width, height, pixels)) =>
      Some(Pack(lib, pixels, FormatRgba).(width := ToI32(width), height := ToI32(height)))
    case Picture(Png(png)) => Some(Clipboard(false, png, FormatPng, 0, 0, ""))
    case Picture(Svg(svg)) => Some(Pack(lib, svg, FormatSvg))
    case Special(name, data) => Some(Pack(lib, data, FormatSpecial).(specialName := name))
    case FileUrl(_) | NoItem => None
  }

  /** `valid_rgba_dimensions`. */
  function RgbaDimensions(width: int, height: int, len: nat): Option<(nat, nat)> {
    if width <= 0 || height <= 0 then None
    else if width * height > USIZE_MAX || width * height * 4 > USIZE_MAX then None
    else if len == width * height * 4 then Some((width, height))
    else None
  }

  /** `from_clipboard`. */
  function Decode(lib: Library, c: Clipboard): Option<Item> {
    var data := Unpack(lib, c);
    match c.format
    case FormatText => if lib.isUtf8(data) then Some(Text(data)) else None
    case FormatRtf => if lib.isUtf8(data) then Some(Rtf(data)) else None
    case FormatHtml => if lib.isUtf8(data) then Some(Html(data)) else None
    case FormatRgba =>
      var dims := RgbaDimensions(c.width, c.height, |data|);
      if dims.None? then None else Some(Picture(Rgba(dims.value.0, dims.value.1, data)))
    case FormatPng => Some(Picture(Png(data)))
    case FormatSvg => Some(Picture(Svg(if lib.isUtf8(data) then data else [])))
    case FormatSpecial => Some(Special(c.specialName, data))
    case FormatOther => None
  }

  function EncodeAll(lib: Library, items: seq<Item>): seq<Clipboard> {
    if items == [] then []
    else
      var rest := EncodeAll(lib, items[1..]);
      match Encode(lib, items[0])
      case None => rest
      case Some(c) => [c] + rest
  }

  function DecodeAll(lib: Library, clipboards: seq<Clipboard>): seq<Item> {
    if clipboards == [] then []
    else
      var rest := DecodeAll(lib, clipboards[1..]);
      match Decode(lib, clipboards[0])
      case None => rest
      case Some(item) => [item] + rest
  }

  /** The items that have a wire form. */
  function Supported(items: seq<Item>): seq<Item> {
    if items == [] then []
    else if items[0].FileUrl? || items[0].NoItem? then Supported(items[1..])
    else [items[0]] + Supported(items[1..])
  }

  predicate FitsWire(width: nat, height: nat, pixels: Bytes) {
    && 0 < width < I32_LIMIT && 0 < height < I32_LIMIT
    && |pixels| == width * height * 4 <= USIZE_MAX
  }

  /** What the original can hand over: strings are UTF-8, pictures as wide and high as they say. */
  predicate WellFormed(lib: Library, item: Item) {
    match item
    case Text(text) => lib.isUtf8(text)
    case Rtf(text) => lib.isUtf8(text)
    case Html(text) => lib.isUtf8(text)
    case Picture(Rgba(width, height, pixels)) => FitsWire(width, height, pixels)
    case Picture(Svg(svg)) => lib.isUtf8(svg)
    case _ => true
  }

  /** What is sent is never larger than the plain or the compressed bytes. */
  lemma PackIsSmallest(lib: Library, b: Bytes, format: Format)
    ensures var c := Pack(lib, b, format);
            && |c.content| <= |b| && |c.content| <= |lib.compress(b)|
            && (c.compressed <==> |lib.compress(b)| < |b|)
  {}

  lemma UnpackPack(lib: Library, b: Bytes, format: Format)
    requires Lossless(lib)
    ensures Unpack(lib, Pack(lib, b, format)) == b
  {}

  /** Pixels come back exactly when their dimensions are positive, fit an i32 and match the data. */
  lemma RgbaRoundTripIff(lib: Library, width: nat, height: nat, pixels: Bytes)
    requires Lossless(lib)
    ensures var item := Picture(Rgba(width, height, pixels));
            Decode(lib, Encode(lib, item).value) == Some(item) <==> FitsWire(width, height, pixels)
    ensures FitsWire(width, height, pixels) ==>
              var wire := Encode(lib, Picture(Rgba(width, height, pixels))).value;
              wire.width == width && wire.height == height && wire.format == FormatRgba
  {
    UnpackPack(lib, pixels, FormatRgba);
    I32RoundTrip(width);
    I32RoundTrip(height);
    var w, h := ToI32(width), ToI32(height);
    if w > 0 && h > 0 {
      assert w * h <= w * h * 4;
    }
  }

  lemma I32RoundTrip(x: nat)
    ensures ToI32(x) == x <==> x < I32_LIMIT
    ensures ToI32(x) < I32_LIMIT
  {}

  lemma ItemRoundTrip(lib: Library, item: Item)
    requires Lossless(lib) && WellFormed(lib, item) && !item.FileUrl? && !item.NoItem?
    ensures Encode(lib, item).Some? && Decode(lib, Encode(lib, item).value) == Some(item)
  {
    match item
    case Picture(Rgba(width, height, pixels)) => RgbaRoundTripIff(lib, width, height, pixels);
    case _ =>
  }

  /** Decoding what was encoded gives the supported items back, in order. */
  lemma {:induction false} ItemsRoundTrip(lib: Library, items: seq<Item>)
    requires Lossless(lib) && forall i | 0 <= i < |items| :: WellFormed(lib, items[i])
    ensures DecodeAll(lib, EncodeAll(lib, items)) == Supported(items)
  {
    if items != [] {
      ItemsRoundTrip(lib, items[1..]);
      var rest := EncodeAll(lib, items[1..]);
      if !items[0].FileUrl? && !items[0].NoItem? {
        ItemRoundTrip(lib, items[0]);
        assert ([Encode(lib, items[0]).value] + rest)[1..] == rest;
      }
    }
  }
}
