/** What basic Tight rectangles paint: every filter's loop over the inflated data, and
    that it shows the image that was encoded. */
module TightImage {
  import opened Bytes
  import opened Tiles
  import opened RectSteps
  import opened Painting
  import T = Tight
  import ZrleEncoding

  /** The palette's buffer. */
  const PALETTE_BYTES: nat := 1024

  /** The samples of an image of palette indices. Where there are no data, the colour is
      black: the buffer takes undefined values as zero. */
  function PaletteImage(data: seq<byte>, palette: seq<byte>, pixels: nat): (img: seq<byte>)
    requires |palette| == PALETTE_BYTES
    ensures |img| == 3 * pixels
  {
    seq(3 * pixels, k requires 0 <= k < 3 * pixels => if k / 3 < |data| then palette[3 * data[k / 3] + k % 3] else 0)
  }

  /** The samples that a filter makes of a body's data. */
  function Samples(filter: nat, numColors: nat, palette: seq<byte>, data: seq<byte>, w: nat, pixels: nat): seq<byte>
    requires |palette| == PALETTE_BYTES && w > 0
  {
    if filter == 0 then data
    else if filter == 1 then
      if numColors == 2 then T.MonoImage(data, palette, w, pixels) else PaletteImage(data, palette, pixels)
    else T.GradientDecode(data, w)
  }

  // The loops

  lemma DataSamples(img: seq<byte>, p: nat)
    requires 3 * p + 3 <= |img|
    ensures T.Samples([img[3 * p], img[3 * p + 1], img[3 * p + 2]], img, false, 3 * p)
  {
    var s := [img[3 * p], img[3 * p + 1], img[3 * p + 2]];
    forall c | 0 <= c < 3
      ensures s[c] == T.Sample(img, false, 3 * p + c)
    {
    }
  }

  method CopyFilter(data: seq<byte>, w: nat, h: nat) returns (rgbx: array<byte>)
    requires |data| == 3 * (w * h)
    ensures fresh(rgbx) && rgbx.Length == 4 * (w * h)
    ensures T.Opaque(rgbx[..], data, w * h)
  {
    hide T.Opaque, T.Samples;
    var pixels := w * h;
    rgbx := new byte[4 * pixels](_ => 0);
    T.NothingOpaque(rgbx[..], data);
    for p := 0 to pixels
      invariant T.Opaque(rgbx[..], data, p)
    {
      DataSamples(data, p);
      T.StorePixel(rgbx, p, [data[3 * p], data[3 * p + 1], data[3 * p + 2]], data);
    }
  }

  lemma PaletteAt(data: seq<byte>, palette: seq<byte>, pixels: nat, p: nat, c: nat)
    requires |palette| == PALETTE_BYTES && p < pixels && c < 3
    ensures PaletteImage(data, palette, pixels)[3 * p + c] == if p < |data| then palette[3 * data[p] + c] else 0
  {
    DivModUnique(3 * p + c, 3, p, c);
  }

  /** The scratch buffer may be larger than the image. */
  method PaletteRect(data: seq<byte>, palette: seq<byte>, w: nat, h: nat, dest: array<byte>)
    requires |palette| == PALETTE_BYTES && 4 * (w * h) <= dest.Length
    modifies dest
    ensures T.Opaque(dest[..], PaletteImage(data, palette, w * h), w * h)
  {
    hide T.Opaque, T.Samples, PaletteImage;
    var pixels := w * h;
    ghost var img := PaletteImage(data, palette, pixels);
    T.NothingOpaque(dest[..], img);
    for p := 0 to pixels
      invariant T.Opaque(dest[..], img, p)
    {
      PaletteAt(data, palette, pixels, p, 0);
      PaletteAt(data, palette, pixels, p, 1);
      PaletteAt(data, palette, pixels, p, 2);
      DataSamples(img, p);
      var sp := if p < |data| then 3 * data[p] as int else -1;
      var pixel := if sp < 0 then [0, 0, 0] else [palette[sp], palette[sp + 1], palette[sp + 2]];
      assert pixel == [img[3 * p], img[3 * p + 1], img[3 * p + 2]];
      T.StorePixel(dest, p, pixel, img);
    }
  }

  /** The bytes of a body before deflation. */
  function Inflated(filter: nat, numColors: nat, w: nat, h: nat): nat {
    if filter == 1 then (if numColors <= 2 then T.RowSize(w) else w) * h else 3 * (w * h)
  }

  /** A body that is not empty, drawn by its filter. */
  method DrawBody(filter: nat, numColors: nat, palette: seq<byte>, data: seq<byte>, w: nat, h: nat) returns (rgbx: array<byte>)
    requires filter <= 2 && |palette| == PALETTE_BYTES && w > 0 && h > 0 && |data| == Inflated(filter, numColors, w, h)
    ensures fresh(rgbx) && rgbx.Length >= 4 * (w * h)
    ensures T.Opaque(rgbx[..], Samples(filter, numColors, palette, data, w, w * h), w * h)
  {
    hide T.Opaque, T.MonoImage, PaletteImage, T.GradientDecode;
    if filter == 0 {
      rgbx := CopyFilter(data, w, h);
    } else if filter == 1 {
      rgbx := new byte[4 * (w * h)](_ => 0);
      if numColors == 2 {
        T.MonoRect(data, palette, w, h, rgbx);
      } else {
        PaletteRect(data, palette, w, h, rgbx);
      }
    } else {
      rgbx := T.GradientFilter(data, w, h);
    }
  }

  // Images

  function Channel(c: Rgb, k: nat): byte {
    if k == 0 then c.r else if k == 1 then c.g else c.b
  }

  /** The samples of an image on its rectangle. */
  function Flat(image: (int, int) -> Rgb, at: Rect): (s: seq<byte>)
    requires at.w > 0
    ensures |s| == 3 * (at.w * at.h)
  {
    seq(3 * (at.w * at.h), k requires 0 <= k < 3 * (at.w * at.h) =>
      Channel(image(at.x + k / 3 % at.w, at.y + k / 3 / at.w), k % 3))
  }

  lemma FlatAt(image: (int, int) -> Rgb, at: Rect, dx: nat, dy: nat, k: nat)
    requires dx < at.w && dy < at.h && k < 3
    ensures 3 * (dy * at.w + dx) + k < 3 * (at.w * at.h)
    ensures Flat(image, at)[3 * (dy * at.w + dx) + k] == Channel(image(at.x + dx, at.y + dy), k)
  {
    var p := dy * at.w + dx;
    IndexInside(at.w, at.h, dx, dy);
    DivModUnique(p, at.w, dy, dx);
    DivModUnique(3 * p + k, 3, p, k);
  }

  lemma OpaqueAt(rgbx: seq<byte>, img: seq<byte>, pixels: nat, p: nat)
    requires T.Opaque(rgbx, img, pixels) && p < pixels
    ensures 4 * p + 4 <= |rgbx| && 3 * p + 3 <= |img|
    ensures PixelOf(rgbx, p) == Rgb(img[3 * p], img[3 * p + 1], img[3 * p + 2])
  {
    assert T.OpaquePixel(rgbx, img, p);
  }

  lemma PointPainted(at: Rect, rgbx: seq<byte>, image: (int, int) -> Rgb, dx: nat, dy: nat)
    requires dx < at.w && dy < at.h && T.Opaque(rgbx, Flat(image, at), at.w * at.h)
    ensures 4 * (dy * at.w + dx) + 3 <= |rgbx|
    ensures PixelOf(rgbx, dy * at.w + dx) == image(at.x + dx, at.y + dy)
  {
    hide T.Opaque, Flat;
    IndexInside(at.w, at.h, dx, dy);
    FlatAt(image, at, dx, dy, 0);
    FlatAt(image, at, dx, dy, 1);
    FlatAt(image, at, dx, dy, 2);
    OpaqueAt(rgbx, Flat(image, at), at.w * at.h, dy * at.w + dx);
  }

  /** A blit of the image's samples paints the image. */
  lemma SamplesPaint(at: Rect, rgbx: seq<byte>, image: (int, int) -> Rgb)
    requires at.w > 0 && T.Opaque(rgbx, Flat(image, at), at.w * at.h)
    ensures Paints(BlitImage(at.x, at.y, at.w, at.h, rgbx), at, image)
  {
    hide T.Opaque, Flat, PixelOf;
    forall px: int, py: int
      ensures ColorAt(BlitImage(at.x, at.y, at.w, at.h, rgbx), px, py) == if at.Contains(px, py) then Some(image(px, py)) else None
    {
      if at.Contains(px, py) {
        PointPainted(at, rgbx, image, px - at.x, py - at.y);
      }
    }
  }

  /** The first colours of the palette's buffer. */
  ghost predicate Holds(palette: seq<byte>, colors: seq<Rgb>) {
    |palette| == PALETTE_BYTES && |colors| <= 256
    && forall i | 0 <= i < |colors| :: palette[3 * i] == colors[i].r && palette[3 * i + 1] == colors[i].g && palette[3 * i + 2] == colors[i].b
  }

  /** An image given by rows of indices into a list of colours. */
  ghost predicate Indexed(image: (int, int) -> Rgb, at: Rect, colors: seq<Rgb>, rows: seq<seq<nat>>) {
    && |rows| == at.h && (forall y | 0 <= y < at.h :: |rows[y]| == at.w)
    && forall dx: nat, dy: nat | dx < at.w && dy < at.h ::
         rows[dy][dx] < |colors| && image(at.x + dx, at.y + dy) == colors[rows[dy][dx]]
  }

  lemma ColorOf(palette: seq<byte>, colors: seq<Rgb>, i: nat, k: nat)
    requires Holds(palette, colors) && i < |colors| && k < 3
    ensures 3 * i + k < |palette| && palette[3 * i + k] == Channel(colors[i], k)
  {
    assert palette[3 * i] == colors[i].r;
  }

  /** Without a filter the data are the samples. */
  lemma CopyShows(image: (int, int) -> Rgb, at: Rect, palette: seq<byte>)
    requires at.w > 0 && |palette| == PALETTE_BYTES
    ensures Samples(0, 0, palette, Flat(image, at), at.w, at.w * at.h) == Flat(image, at)
  {
  }

  /** With the gradient filter they are the distances from the predictions. */
  lemma GradientShows(image: (int, int) -> Rgb, at: Rect, palette: seq<byte>)
    requires at.w > 0 && |palette| == PALETTE_BYTES
    ensures Samples(2, 0, palette, T.GradientEncode(Flat(image, at), at.w), at.w, at.w * at.h) == Flat(image, at)
  {
    T.GradientRoundTrip(Flat(image, at), at.w);
    hide T.GradientEncode, T.GradientDecode, Flat;
  }

  /** Every sample is one of a point's three. */
  lemma PointOf(w: nat, h: nat, k: nat) returns (dx: nat, dy: nat, c: nat)
    requires w > 0 && k < 3 * (w * h)
    ensures dx < w && dy < h && c < 3 && k == 3 * (dy * w + dx) + c
  {
    var p := k / 3;
    dx, dy, c := p % w, p / w, k % 3;
    if dy >= h {
      MulMono(h, dy, w);
      assert false;
    }
  }

  lemma PointIndexed(image: (int, int) -> Rgb, at: Rect, colors: seq<Rgb>, rows: seq<seq<nat>>, dx: nat, dy: nat)
    requires Indexed(image, at, colors, rows) && dx < at.w && dy < at.h
    ensures |rows| == at.h && |rows[dy]| == at.w && rows[dy][dx] < |colors|
    ensures image(at.x + dx, at.y + dy) == colors[rows[dy][dx]]
  {
  }

  lemma RowsOf(image: (int, int) -> Rgb, at: Rect, colors: seq<Rgb>, rows: seq<seq<nat>>)
    requires Indexed(image, at, colors, rows)
    ensures |rows| == at.h && Wide(rows, at.w)
  {
  }

  /** With two colours they are the bits of the rows, each filled up to a byte. */
  lemma MonoShows(image: (int, int) -> Rgb, at: Rect, palette: seq<byte>, colors: seq<Rgb>, rows: seq<seq<nat>>)
    requires at.w > 0 && |colors| == 2 && Holds(palette, colors) && Indexed(image, at, colors, rows)
    requires forall y | 0 <= y < |rows| :: ZrleEncoding.RowOk(rows[y], 2, at.w)
    ensures Samples(1, 2, palette, T.MonoBytes(rows, at.w), at.w, at.w * at.h) == Flat(image, at)
  {
    assert |palette| == PALETTE_BYTES;
    hide T.MonoBit, T.MonoBytes, T.MonoImage, ZrleEncoding.RowOk, Holds, Indexed, Flat;
    var data, pixels := T.MonoBytes(rows, at.w), at.w * at.h;
    forall k | 0 <= k < 3 * pixels
      ensures T.MonoImage(data, palette, at.w, pixels)[k] == Flat(image, at)[k]
    {
      MonoSample(image, at, palette, colors, rows, pixels, k);
    }
  }

  lemma MonoSample(image: (int, int) -> Rgb, at: Rect, palette: seq<byte>, colors: seq<Rgb>, rows: seq<seq<nat>>, pixels: nat, k: nat)
    requires at.w > 0 && |colors| == 2 && Holds(palette, colors) && Indexed(image, at, colors, rows)
    requires forall y | 0 <= y < |rows| :: ZrleEncoding.RowOk(rows[y], 2, at.w)
    requires pixels == at.w * at.h && k < 3 * pixels
    ensures |palette| == PALETTE_BYTES && T.MonoImage(T.MonoBytes(rows, at.w), palette, at.w, pixels)[k] == Flat(image, at)[k]
  {
    hide T.MonoBit, T.MonoBytes, T.MonoImage, ZrleEncoding.RowOk, Holds, Indexed, Flat;
    var dx, dy, c := PointOf(at.w, at.h, k);
    MonoPoint(image, at, palette, colors, rows, pixels, dx, dy, dy * at.w + dx, c);
  }

  lemma MonoPoint(image: (int, int) -> Rgb, at: Rect, palette: seq<byte>, colors: seq<Rgb>, rows: seq<seq<nat>>,
                  pixels: nat, dx: nat, dy: nat, p: nat, c: nat)
    requires |colors| == 2 && Holds(palette, colors) && Indexed(image, at, colors, rows)
    requires forall y | 0 <= y < |rows| :: ZrleEncoding.RowOk(rows[y], 2, at.w)
    requires dx < at.w && dy < at.h && c < 3 && p == dy * at.w + dx && pixels == at.w * at.h
    ensures |palette| == PALETTE_BYTES && p < pixels
    ensures T.MonoImage(T.MonoBytes(rows, at.w), palette, at.w, pixels)[3 * p + c] == Flat(image, at)[3 * p + c]
  {
    hide T.MonoBit, T.MonoBytes, T.MonoImage, Holds, Indexed, Flat, ZrleEncoding.RowOk, T.RowSize;
    var i := IndexOf(image, at, palette, colors, rows, dx, dy, p, c);
    MonoSampleAt(palette, rows, at.w, pixels, dx, dy, p, c);
  }

  lemma MonoSampleAt(palette: seq<byte>, rows: seq<seq<nat>>, w: nat, pixels: nat, dx: nat, dy: nat, p: nat, c: nat)
    requires |palette| == PALETTE_BYTES && c < 3 && p < pixels
    requires forall y | 0 <= y < |rows| :: ZrleEncoding.RowOk(rows[y], 2, w)
    requires dy < |rows| && dx < w == |rows[dy]| && p == dy * w + dx && rows[dy][dx] < 2
    ensures T.MonoImage(T.MonoBytes(rows, w), palette, w, pixels)[3 * p + c] == palette[3 * rows[dy][dx] + c]
  {
    hide T.MonoBit, T.MonoBytes, T.MonoImage, ZrleEncoding.RowOk, T.RowSize;
    T.PixelPlace(w, dy, dx);
    T.MonoRoundTrip(rows, w, dx, dy);
    T.MonoImageAt(T.MonoBytes(rows, w), palette, w, pixels, p, c);
  }

  /** The palette's bytes for a point. */
  lemma IndexOf(image: (int, int) -> Rgb, at: Rect, palette: seq<byte>, colors: seq<Rgb>, rows: seq<seq<nat>>,
                dx: nat, dy: nat, p: nat, c: nat) returns (i: nat)
    requires |colors| <= 256 && Holds(palette, colors) && Indexed(image, at, colors, rows)
    requires dx < at.w && dy < at.h && c < 3 && p == dy * at.w + dx
    ensures |palette| == PALETTE_BYTES && p < at.w * at.h && 3 * p + c < 3 * (at.w * at.h)
    ensures |rows| == at.h && |rows[dy]| == at.w && i == rows[dy][dx] < |colors|
    ensures 3 * i + c < PALETTE_BYTES && Flat(image, at)[3 * p + c] == palette[3 * i + c]
  {
    assert |palette| == PALETTE_BYTES;
    hide Holds, Indexed, Flat;
    IndexInside(at.w, at.h, dx, dy);
    FlatAt(image, at, dx, dy, c);
    PointIndexed(image, at, colors, rows, dx, dy);
    i := rows[dy][dx];
    ColorOf(palette, colors, i, c);
  }

  ghost predicate Wide(rows: seq<seq<nat>>, w: nat) {
    forall y | 0 <= y < |rows| :: |rows[y]| == w
  }

  /** The indices of all rows, a byte each. */
  ghost function IndexBytes(rows: seq<seq<nat>>, w: nat): seq<byte>
    requires Wide(rows, w)
  {
    if rows == [] then [] else seq(w, x requires 0 <= x < w => rows[0][x] % 256) + IndexBytes(rows[1..], w)
  }

  lemma {:induction false} IndexAt(rows: seq<seq<nat>>, w: nat, x: nat, y: nat)
    requires Wide(rows, w) && y < |rows| && x < w
    ensures |IndexBytes(rows, w)| == w * |rows|
    ensures y * w + x < w * |rows| && IndexBytes(rows, w)[y * w + x] == rows[y][x] % 256
    decreases |rows|
  {
    IndexInside(w, |rows|, x, y);
    IndexLength(rows, w);
    if y > 0 {
      IndexAt(rows[1..], w, x, y - 1);
      assert y * w + x == w + ((y - 1) * w + x);
    }
  }

  lemma {:induction false} IndexLength(rows: seq<seq<nat>>, w: nat)
    requires Wide(rows, w)
    ensures |IndexBytes(rows, w)| == w * |rows|
  {
    if rows != [] {
      IndexLength(rows[1..], w);
      assert w * |rows| == w + w * (|rows| - 1);
    }
  }

  /** With more colours they are a byte a point. */
  lemma PaletteShows(image: (int, int) -> Rgb, at: Rect, palette: seq<byte>, colors: seq<Rgb>, rows: seq<seq<nat>>)
    requires at.w > 0 && 2 < |colors| <= 256 && Holds(palette, colors) && Indexed(image, at, colors, rows)
    ensures Wide(rows, at.w)
    ensures Samples(1, |colors|, palette, IndexBytes(rows, at.w), at.w, at.w * at.h) == Flat(image, at)
  {
    RowsOf(image, at, colors, rows);
    assert |palette| == PALETTE_BYTES;
    hide IndexBytes, Holds, Indexed, Flat, PaletteImage, Wide;
    var data, pixels := IndexBytes(rows, at.w), at.w * at.h;
    forall k | 0 <= k < 3 * pixels
      ensures PaletteImage(data, palette, pixels)[k] == Flat(image, at)[k]
    {
      PaletteSample(image, at, palette, colors, rows, pixels, k);
    }
  }

  lemma PaletteSample(image: (int, int) -> Rgb, at: Rect, palette: seq<byte>, colors: seq<Rgb>, rows: seq<seq<nat>>, pixels: nat, k: nat)
    requires at.w > 0 && |colors| <= 256 && Holds(palette, colors) && Indexed(image, at, colors, rows)
    requires pixels == at.w * at.h && k < 3 * pixels
    ensures |palette| == PALETTE_BYTES && Wide(rows, at.w)
    ensures PaletteImage(IndexBytes(rows, at.w), palette, pixels)[k] == Flat(image, at)[k]
  {
    hide IndexBytes, Holds, Indexed, Flat, PaletteImage, Wide;
    var dx, dy, c := PointOf(at.w, at.h, k);
    PalettePoint(image, at, palette, colors, rows, pixels, dx, dy, dy * at.w + dx, c);
  }

  lemma PalettePoint(image: (int, int) -> Rgb, at: Rect, palette: seq<byte>, colors: seq<Rgb>, rows: seq<seq<nat>>,
                     pixels: nat, dx: nat, dy: nat, p: nat, c: nat)
    requires |colors| <= 256 && Holds(palette, colors) && Indexed(image, at, colors, rows)
    requires dx < at.w && dy < at.h && c < 3 && p == dy * at.w + dx && pixels == at.w * at.h
    ensures |palette| == PALETTE_BYTES && p < pixels
    ensures Wide(rows, at.w)
    ensures PaletteImage(IndexBytes(rows, at.w), palette, pixels)[3 * p + c] == Flat(image, at)[3 * p + c]
  {
    hide IndexBytes, Holds, Indexed, Flat, PaletteImage, Wide;
    RowsOf(image, at, colors, rows);
    var i := IndexOf(image, at, palette, colors, rows, dx, dy, p, c);
    IndexAt(rows, at.w, dx, dy);
    PaletteAt(IndexBytes(rows, at.w), palette, pixels, p, c);
  }

  // One colour

  const BLACK: Rgb := Rgb(0, 0, 0)

  /** A palette of one colour: the body has one bit a point, but is read as a byte a
      point. So the colour appears on the whole rectangle exactly if that is at most one
      point wide, or the colour is black. */
  lemma OneColorShows(at: Rect, palette: seq<byte>, color: Rgb, data: seq<byte>)
    requires at.w > 0 && at.h > 0 && Holds(palette, [color]) && |data| == T.RowSize(at.w) * at.h
    requires forall i | 0 <= i < |data| :: data[i] == 0
    ensures Samples(1, 1, palette, data, at.w, at.w * at.h) == Flat((px, py) => color, at) <==> at.w == 1 || color == BLACK
  {
    assert |palette| == PALETTE_BYTES;
    hide Flat, PaletteImage, Holds, T.RowSize;
    var pixels, image := at.w * at.h, (px, py) => color;
    var shown, meant := PaletteImage(data, palette, pixels), Flat(image, at);
    RowBytesOf(at.w, at.h);
    if at.w > 1 && color != BLACK {
      var c := if color.r != 0 then 0 else if color.g != 0 then 1 else 2;
      OneColorAt(at, palette, color, data, pixels, |data|, c);
    } else {
      forall k | 0 <= k < 3 * pixels
        ensures shown[k] == meant[k]
      {
        OneColorAt(at, palette, color, data, pixels, k / 3, k % 3);
      }
    }
  }

  lemma OneColorAt(at: Rect, palette: seq<byte>, color: Rgb, data: seq<byte>, pixels: nat, p: nat, c: nat)
    requires at.w > 0 && pixels == at.w * at.h && Holds(palette, [color]) && p < pixels && c < 3
    requires forall i | 0 <= i < |data| :: data[i] == 0
    ensures Flat((px, py) => color, at)[3 * p + c] == Channel(color, c)
    ensures |palette| == PALETTE_BYTES && PaletteImage(data, palette, pixels)[3 * p + c] == if p < |data| then Channel(color, c) else 0
  {
    DivModUnique(3 * p + c, 3, p, c);
    ColorOf(palette, [color], 0, c);
    assert |palette| == PALETTE_BYTES;
    hide Holds;
  }

  lemma RowBytesOf(w: nat, h: nat)
    requires w > 0 && h > 0
    ensures T.RowSize(w) * h <= w * h && (T.RowSize(w) * h == w * h <==> w == 1)
  {
    var n := T.RowSize(w);
    assert n == (w + 7) / 8;
    MulMono(n, w, h);
    if w > 1 {
      MulMono(n + 1, w, h);
      assert (n + 1) * h == n * h + h;
    }
  }
}
