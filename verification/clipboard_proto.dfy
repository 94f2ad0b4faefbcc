/** Converting clipboard contents to and from their wire form.  A string is its UTF-8 bytes. */
module ClipboardProto {
  import opened ByteData
  import opened Common

  datatype ImageData = Rgba(width: nat, height: nat, pixels: Bytes) | Png(png: Bytes) | Svg(svg: Bytes)

  datatype ClipboardData =
    | Text(text: Bytes)
    | Rtf(rtf: Bytes)
    | Html(html: Bytes)
    | Image(image: ImageData)
    | Special(name: string, data: Bytes)
    | FileUrl(urls: seq<Bytes>)
    | NoData

  datatype Format = TextFormat | RtfFormat | HtmlFormat | ImageRgba | ImagePng | ImageSvg | SpecialFormat | UnknownFormat

  /** The protobuf message; width and height are 32-bit signed. */
  datatype Clipboard = Clipboard(compress: bool, content: Bytes, format: Format,
                                 width: int, height: int, specialName: string)

  /** The compression library and the UTF-8 test. */
  datatype Codec = Codec(compress: Bytes -> Bytes, decompress: Bytes -> Bytes, utf8: Bytes -> bool)

  ghost predicate Lawful(c: Codec) {
    forall b: Bytes :: c.decompress(c.compress(b)) == b
  }

  const I32_LIMIT: nat := 0x8000_0000
  const USIZE_LIMIT: nat := 0x1_0000_0000_0000_0000

  /** `n as i32` */
  function AsI32(n: nat): (i: int) {
    var m := n % (2 * I32_LIMIT);
    if m >= I32_LIMIT then m - 2 * I32_LIMIT else m
  }

  /** Dimensions are accepted when they are positive and four bytes a pixel fill the data exactly; each
      multiplication is checked for overflow of a 64-bit `usize`. */
  function ValidRgbaDimensions(width: int, height: int, len: nat): (r: Option<(nat, nat)>) {
    if width <= 0 || height <= 0 then None
    else if width * height >= USIZE_LIMIT || width * height * 4 >= USIZE_LIMIT then None
    else if len == width * height * 4 then Some((width, height))
    else None
  }

  // ----- encoding

  function Packed(c: Codec, raw: Bytes, format: Format, width: int, height: int, name: string): (p: Clipboard) {
    var compressed := c.compress(raw);
    if |compressed| < |raw| then Clipboard(true, compressed, format, width, height, name)
    else Clipboard(false, raw, format, width, height, name)
  }

  function ToProto(c: Codec, d: ClipboardData): (p: Option<Clipboard>) {
    match d
    case Text(s) => Some(Packed(c, s, TextFormat, 0, 0, ""))
    case Rtf(s) => Some(Packed(c, s, RtfFormat, 0, 0, ""))
    case Html(s) => Some(Packed(c, s, HtmlFormat, 0, 0, ""))
    case Image(Rgba(w, h, pixels)) => Some(Packed(c, pixels, ImageRgba, AsI32(w), AsI32(h), ""))
    case Image(Png(png)) => Some(Clipboard(false, png, ImagePng, 0, 0, ""))
    case Image(Svg(svg)) => Some(Packed(c, svg, ImageSvg, 0, 0, ""))
    case Special(name, data) => Some(Packed(c, data, SpecialFormat, 0, 0, name))
    case FileUrl(_) => None
    case NoData => None
  }

  function CreateMultiClipboards(c: Codec, items: seq<ClipboardData>): (m: seq<Clipboard>) {
    if items == [] then []
    else
      var head := ToProto(c, items[0]);
      (if head.Some? then [head.value] else []) + CreateMultiClipboards(c, items[1..])
  }

  // ----- decoding

  function FromProto(c: Codec, p: Clipboard): (d: Option<ClipboardData>) {
    var data := if p.compress then c.decompress(p.content) else p.content;
    match p.format
    case TextFormat => if c.utf8(data) then Some(Text(data)) else None
    case RtfFormat => if c.utf8(data) then Some(Rtf(data)) else None
    case HtmlFormat => if c.utf8(data) then Some(Html(data)) else None
    case ImageRgba =>
      var dims := ValidRgbaDimensions(p.width, p.height, |data|);
      if dims.Some? then Some(Image(Rgba(dims.value.0, dims.value.1, data))) else None
    case ImagePng => Some(Image(Png(data)))
    case ImageSvg => Some(Image(Svg(if c.utf8(data) then data else [])))
    case SpecialFormat => Some(Special(p.specialName, data))
    case UnknownFormat => None
  }

  function FromMultiClipboards(c: Codec, m: seq<Clipboard>): (items: seq<ClipboardData>) {
    if m == [] then []
    else
      var head := FromProto(c, m[0]);
      (if head.Some? then [head.value] else []) + FromMultiClipboards(c, m[1..])
  }

  // ----- round trips

  predicate Supported(d: ClipboardData) {
    !d.FileUrl? && !d.NoData?
  }

  function SupportedItems(items: seq<ClipboardData>): (s: seq<ClipboardData>) {
    if items == [] then []
    else (if Supported(items[0]) then [items[0]] else []) + SupportedItems(items[1..])
  }

  /** The strings of an item are valid, as those of the language always are. */
  predicate ValidStrings(c: Codec, d: ClipboardData) {
    match d
    case Text(s) => c.utf8(s)
    case Rtf(s) => c.utf8(s)
    case Html(s) => c.utf8(s)
    case Image(Svg(s)) => c.utf8(s)
    case _ => true
  }

  /** An image whose dimensions are positive, fit 32 bits and match its bytes. */
  predicate SoundImage(d: ClipboardData) {
    d.Image? && d.image.Rgba? ==>
      && 0 < d.image.width < I32_LIMIT
      && 0 < d.image.height < I32_LIMIT
      && |d.image.pixels| == d.image.width * d.image.height * 4
  }

  lemma AreaFits(w: nat, h: nat)
    requires w < I32_LIMIT && h < I32_LIMIT
    ensures w * h * 4 < USIZE_LIMIT
  {
    assert w * h <= w * I32_LIMIT <= I32_LIMIT * I32_LIMIT - I32_LIMIT by {
      MulMono(h, I32_LIMIT, w);
      MulMono(w, I32_LIMIT - 1, I32_LIMIT);
    }
  }

  /** The cast is the value modulo 2^32 in the signed range. */
  lemma AsI32Wraps(n: nat)
    ensures -0x8000_0000 <= AsI32(n) < 0x8000_0000 && (n - AsI32(n)) % 0x1_0000_0000 == 0
  {
    var m := n % (2 * I32_LIMIT);
    var q := n / (2 * I32_LIMIT);
    assert n - AsI32(n) == 0x1_0000_0000 * (if m >= I32_LIMIT then q + 1 else q);
  }

  /** Which dimensions are accepted for how many bytes: the product may not overflow 64 bits. */
  lemma AcceptedDimensions(width: int, height: int, len: nat)
    ensures ValidRgbaDimensions(width, height, len).Some? <==>
            width > 0 && height > 0 && len == width * height * 4 && len < 0x1_0000_0000_0000_0000
    ensures ValidRgbaDimensions(width, height, len).Some? ==>
            ValidRgbaDimensions(width, height, len).value == (width, height)
  {
  }

  lemma AsI32Keeps(n: nat)
    ensures AsI32(n) == n <==> n < I32_LIMIT
    ensures AsI32(n) < I32_LIMIT
  {
  }

  lemma DimensionsRoundTrip(w: nat, h: nat, len: nat)
    ensures ValidRgbaDimensions(AsI32(w), AsI32(h), len) == Some((w, h))
            <==> 0 < w < I32_LIMIT && 0 < h < I32_LIMIT && len == w * h * 4
  {
    AsI32Keeps(w);
    AsI32Keeps(h);
    if w < I32_LIMIT && h < I32_LIMIT {
      AreaFits(w, h);
    }
  }

  /** A supported item survives the wire exactly when it is not an image with unsound dimensions. */
  lemma ItemRoundTrip(c: Codec, d: ClipboardData)
    requires Lawful(c) && ValidStrings(c, d) && Supported(d)
    ensures ToProto(c, d).Some?
    ensures FromProto(c, ToProto(c, d).value) == Some(d) <==> SoundImage(d)
  {
    if d.Image? && d.image.Rgba? {
      DimensionsRoundTrip(d.image.width, d.image.height, |d.image.pixels|);
    }
  }

  /** Decoding goes item by item. */
  lemma DecodedHeadFirst(c: Codec, p: Clipboard, rest: seq<Clipboard>)
    ensures var head := FromProto(c, p);
            FromMultiClipboards(c, [p] + rest)
            == (if head.Some? then [head.value] else []) + FromMultiClipboards(c, rest)
  {
    assert ([p] + rest)[0] == p && ([p] + rest)[1..] == rest;
  }

  lemma {:induction false} NeverLonger(c: Codec, items: seq<ClipboardData>)
    ensures |FromMultiClipboards(c, CreateMultiClipboards(c, items))| <= |SupportedItems(items)|
  {
    if items != [] {
      NeverLonger(c, items[1..]);
      if Supported(items[0]) {
        DecodedHeadFirst(c, ToProto(c, items[0]).value, CreateMultiClipboards(c, items[1..]));
      } else {
        assert [] + CreateMultiClipboards(c, items[1..]) == CreateMultiClipboards(c, items[1..]);
      }
    }
  }

  /** Decoding an encoded list gives back exactly its supported items in order, exactly when all its
      images are sound. */
  lemma {:induction false} ListRoundTrip(c: Codec, items: seq<ClipboardData>)
    requires Lawful(c) && forall d | d in items :: ValidStrings(c, d)
    ensures FromMultiClipboards(c, CreateMultiClipboards(c, items)) == SupportedItems(items)
            <==> forall d | d in items :: SoundImage(d)
  {
    if items != [] {
      var d, rest := items[0], items[1..];
      ListRoundTrip(c, rest);
      NeverLonger(c, rest);
      assert forall x :: x in items <==> x == d || x in rest;
      var m := CreateMultiClipboards(c, rest);
      if Supported(d) {
        ItemRoundTrip(c, d);
        var p := ToProto(c, d).value;
        DecodedHeadFirst(c, p, m);
        HeadMatters(FromProto(c, p), d, FromMultiClipboards(c, m), SupportedItems(rest));
      } else {
        assert [] + m == m && [] + SupportedItems(rest) == SupportedItems(rest);
      }
    }
  }

  lemma HeadMatters<T>(head: Option<T>, x: T, s: seq<T>, t: seq<T>)
    requires |s| <= |t|
    ensures (if head.Some? then [head.value] else []) + s == [x] + t <==> head == Some(x) && s == t
  {
    var left, right := (if head.Some? then [head.value] else []) + s, [x] + t;
    if left == right {
      assert |left| == |right|;
      assert left[0] == x && left[1..] == t;
    }
  }

  function Raw(d: ClipboardData): (raw: Bytes) {
    match d
    case Text(s) => s
    case Rtf(s) => s
    case Html(s) => s
    case Image(Rgba(_, _, pixels)) => pixels
    case Image(Png(png)) => png
    case Image(Svg(svg)) => svg
    case Special(_, data) => data
    case FileUrl(_) => []
    case NoData => []
  }

  /** The wire never carries more than the raw content, and is flagged compressed only when smaller. */
  lemma WireIsNeverLonger(c: Codec, d: ClipboardData)
    requires Supported(d)
    ensures var p := ToProto(c, d).value;
            |p.content| <= |Raw(d)| && (p.compress <==> |p.content| < |Raw(d)|)
    ensures (d.Image? && d.image.Png?) || |ToProto(c, d).value.content| == Min(|c.compress(Raw(d))|, |Raw(d)|)
  {
  }

  /** The wire form of each item: its format, and whatever else the receiver needs to rebuild it. */
  lemma WireForm(c: Codec, d: ClipboardData)
    ensures match d
            case Text(_) => ToProto(c, d).Some? && ToProto(c, d).value.format == TextFormat
            case Rtf(_) => ToProto(c, d).Some? && ToProto(c, d).value.format == RtfFormat
            case Html(_) => ToProto(c, d).Some? && ToProto(c, d).value.format == HtmlFormat
            case Image(Rgba(w, h, _)) =>
              && ToProto(c, d).Some? && ToProto(c, d).value.format == ImageRgba
              && (w < 0x8000_0000 && h < 0x8000_0000 ==>
                    ToProto(c, d).value.width == w && ToProto(c, d).value.height == h)
            case Image(Png(png)) => ToProto(c, d) == Some(Clipboard(false, png, ImagePng, 0, 0, ""))
            case Image(Svg(_)) => ToProto(c, d).Some? && ToProto(c, d).value.format == ImageSvg
            case Special(name, _) =>
              && ToProto(c, d).Some? && ToProto(c, d).value.format == SpecialFormat
              && ToProto(c, d).value.specialName == name
            case FileUrl(_) => ToProto(c, d) == None
            case NoData => ToProto(c, d) == None
  {
  }

  /** What the receiver rejects, whoever sent it: text that is no UTF-8, images whose dimensions do not
      match, and unknown formats. */
  lemma WhatIsRejected(c: Codec, p: Clipboard)
    ensures var data := if p.compress then c.decompress(p.content) else p.content;
            FromProto(c, p) == None <==>
            || (p.format in {TextFormat, RtfFormat, HtmlFormat} && !c.utf8(data))
            || (p.format == ImageRgba
                && !(p.width > 0 && p.height > 0 && |data| == p.width * p.height * 4 < 0x1_0000_0000_0000_0000))
            || p.format == UnknownFormat
  {
    AcceptedDimensions(p.width, p.height, |if p.compress then c.decompress(p.content) else p.content|);
  }
}
