/** A whole ZRLE rectangle: the calls its decoding makes, and that they paint
    exactly the image the server encoded. */
module ZrleImage {
  import opened Bytes
  import opened Tiles
  import opened RectSteps
  import opened Painting
  import Zrle
  import opened ZrleEncoding

  const ZRLE_TILE: nat := 64

  function Channel(p: Zrle.Pixel, c: nat): byte {
    if c == 0 then p.r else if c == 1 then p.g else if c == 2 then p.b else p.a
  }

  /** The bytes of a row of pixels. */
  function Flat(px: seq<Zrle.Pixel>): (data: seq<byte>)
    ensures |data| == 4 * |px|
  {
    seq(4 * |px|, k requires 0 <= k < 4 * |px| => Channel(px[k / 4], k % 4))
  }

  function TileEvent(tile: Rect, shown: Zrle.Shown): Event {
    match shown
    case Plain(c) => FillRect(tile.x, tile.y, tile.w, tile.h, [c.r, c.g, c.b])
    case Buffer(px) => BlitImage(tile.x, tile.y, tile.w, tile.h, Flat(px))
  }

  lemma TileArea(tile: Rect)
    requires tile.w <= ZRLE_TILE && tile.h <= ZRLE_TILE
    ensures 0 <= tile.w * tile.h <= Zrle.BUFFER_PIXELS
  {
    MulMono(tile.w, ZRLE_TILE, tile.h);
  }

  /** A rectangle in progress: the calls made, the pixel buffer, the bytes left;
      or the fault that stopped it after some calls. */
  datatype Progress = Progress(out: seq<Event>, buf: seq<Zrle.Pixel>, rest: seq<byte>) | Fault(out: seq<Event>)

  function After(e: Event, p: Progress): Progress {
    match p
    case Progress(out, buf, rest) => Progress([e] + out, buf, rest)
    case Fault(out) => Fault([e] + out)
  }

  /** Tiles number i and on, in reading order. */
  function DecodeTiles(buf: seq<Zrle.Pixel>, r: Rect, i: nat, s: seq<byte>): Progress
    requires |buf| == Zrle.BUFFER_PIXELS && i <= TileCount(r, ZRLE_TILE)
    decreases TileCount(r, ZRLE_TILE) - i
  {
    if i == TileCount(r, ZRLE_TILE) then Progress([], buf, s) else
    var tile := TileRect(r, ZRLE_TILE, i);
    TileArea(tile);
    match Zrle.DecodeTile(buf, s, tile.w, tile.h)
    case Err(_) => Fault([])
    case Ok(d, rest) => After(TileEvent(tile, d.shown), DecodeTiles(d.buf, r, i + 1, rest))
  }

  // What the server encodes.

  ghost predicate AllLegal(r: Rect, i: nat, ts: seq<Tile>) {
    i + |ts| == TileCount(r, ZRLE_TILE) &&
    forall k | 0 <= k < |ts| :: var tile := TileRect(r, ZRLE_TILE, i + k); Legal(ts[k], tile.w, tile.h)
  }

  ghost function AllBytes(r: Rect, i: nat, ts: seq<Tile>): seq<byte>
    requires AllLegal(r, i, ts)
    decreases |ts|
  {
    if ts == [] then [] else
    LegalTail(r, i, ts);
    var tile := TileRect(r, ZRLE_TILE, i);
    TileBytes(ts[0], tile.w, tile.h) + AllBytes(r, i + 1, ts[1..])
  }

  lemma LegalTail(r: Rect, i: nat, ts: seq<Tile>)
    requires AllLegal(r, i, ts) && ts != []
    ensures AllLegal(r, i + 1, ts[1..])
    ensures var tile := TileRect(r, ZRLE_TILE, i); Legal(ts[0], tile.w, tile.h)
  {
    hide TileCount, TileRect, Legal;
    forall k | 0 <= k < |ts[1..]|
      ensures var tile := TileRect(r, ZRLE_TILE, i + 1 + k); Legal(ts[1..][k], tile.w, tile.h)
    {
      assert ts[1..][k] == ts[k + 1] && i + 1 + k == i + (k + 1);
    }
    assert i + 0 == i;
  }

  function RgbOf(p: Zrle.Pixel): Rgb {
    Rgb(p.r, p.g, p.b)
  }

  /** The pixels of a tile agree with the image at the tile's place. */
  ghost predicate Depicts(px: seq<Zrle.Pixel>, tile: Rect, image: (int, int) -> Rgb) {
    |px| == tile.w * tile.h &&
    forall x, y | tile.Contains(x, y) ::
      var p := PixelIndex(tile.w, x - tile.x, y - tile.y);
      p < |px| ==> RgbOf(px[p]) == image(x, y)
  }

  ghost predicate AllDepict(r: Rect, i: nat, ts: seq<Tile>, image: (int, int) -> Rgb)
    requires AllLegal(r, i, ts)
  {
    forall k | 0 <= k < |ts| ::
      var tile := TileRect(r, ZRLE_TILE, i + k); Depicts(Pixels(ts[k], tile.w, tile.h), tile, image)
  }

  lemma ShownPaints(tile: Rect, shown: Zrle.Shown, px: seq<Zrle.Pixel>, image: (int, int) -> Rgb)
    requires Depicts(px, tile, image) && ShownPixels(shown, tile.w * tile.h) == px
    ensures Paints(TileEvent(tile, shown), tile, image)
  {
    var e := TileEvent(tile, shown);
    forall x: int, y: int
      ensures ColorAt(e, x, y) == if tile.Contains(x, y) then Some(image(x, y)) else None
    {
      if tile.Contains(x, y) {
        PixelInside(tile, x, y);
        var p := PixelIndex(tile.w, x - tile.x, y - tile.y);
        assert RgbOf(px[p]) == image(x, y);
        if shown.Buffer? {
          FlatPixel(px, p);
        }
      }
    }
  }

  lemma FlatPixel(px: seq<Zrle.Pixel>, p: nat)
    requires p < |px|
    ensures PixelOf(Flat(px), p) == RgbOf(px[p])
  {
    var data := Flat(px);
    assert (4 * p) / 4 == p && (4 * p + 1) / 4 == p && (4 * p + 2) / 4 == p;
    assert (4 * p) % 4 == 0 && (4 * p + 1) % 4 == 1 && (4 * p + 2) % 4 == 2;
    assert data[4 * p] == px[p].r && data[4 * p + 1] == px[p].g && data[4 * p + 2] == px[p].b;
  }

  /** Call number k paints tile number i + k of the image. */
  ghost predicate PaintTiles(es: seq<Event>, r: Rect, i: nat, image: (int, int) -> Rgb) {
    i + |es| == TileCount(r, ZRLE_TILE) &&
    forall k | 0 <= k < |es| :: Paints(es[k], TileRect(r, ZRLE_TILE, i + k), image)
  }

  lemma PaintTilesCons(e: Event, es: seq<Event>, r: Rect, i: nat, image: (int, int) -> Rgb)
    requires PaintTiles(es, r, i + 1, image) && Paints(e, TileRect(r, ZRLE_TILE, i), image)
    ensures PaintTiles([e] + es, r, i, image)
  {
    hide TileCount, TileRect, Paints;
    forall k | 0 <= k < |[e] + es|
      ensures Paints(([e] + es)[k], TileRect(r, ZRLE_TILE, i + k), image)
    {
      if k > 0 {
        assert ([e] + es)[k] == es[k - 1] && i + k == i + 1 + (k - 1);
      }
    }
  }

  /** Decoding from tile i has taken exactly the tiles' bytes and painted them. */
  ghost predicate RoundTrips(p: Progress, r: Rect, i: nat, rest: seq<byte>, image: (int, int) -> Rgb) {
    p.Progress? && p.rest == rest && |p.buf| == Zrle.BUFFER_PIXELS && PaintTiles(p.out, r, i, image)
  }

  lemma {:induction false} TilesRoundTrip(buf: seq<Zrle.Pixel>, r: Rect, i: nat, ts: seq<Tile>, rest: seq<byte>, image: (int, int) -> Rgb)
    requires |buf| == Zrle.BUFFER_PIXELS && AllLegal(r, i, ts) && AllDepict(r, i, ts, image)
    ensures RoundTrips(DecodeTiles(buf, r, i, AllBytes(r, i, ts) + rest), r, i, rest, image)
    decreases |ts|
  {
    hide TileRect, TileCount, Legal, Paints, Zrle.DecodeTile, TileBytes, Depicts, TileEvent;
    if ts == [] {
      assert AllBytes(r, i, ts) + rest == rest;
    } else {
      var tile := TileRect(r, ZRLE_TILE, i);
      TileArea(tile);
      LegalTail(r, i, ts);
      DepictTail(r, i, ts, image);
      var w, later := TileBytes(ts[0], tile.w, tile.h), AllBytes(r, i + 1, ts[1..]);
      assert AllBytes(r, i, ts) + rest == w + (later + rest);
      TileRoundTrip(buf, ts[0], tile.w, tile.h, later + rest);
      var d := Zrle.DecodeTile(buf, w + (later + rest), tile.w, tile.h);
      ShownPaints(tile, d.value.shown, Pixels(ts[0], tile.w, tile.h), image);
      TilesRoundTrip(d.value.buf, r, i + 1, ts[1..], rest, image);
      PaintTilesCons(TileEvent(tile, d.value.shown), DecodeTiles(d.value.buf, r, i + 1, later + rest).out, r, i, image);
    }
  }

  lemma DepictTail(r: Rect, i: nat, ts: seq<Tile>, image: (int, int) -> Rgb)
    requires AllLegal(r, i, ts) && ts != [] && AllDepict(r, i, ts, image)
    ensures AllLegal(r, i + 1, ts[1..]) && AllDepict(r, i + 1, ts[1..], image)
    ensures var tile := TileRect(r, ZRLE_TILE, i);
            Legal(ts[0], tile.w, tile.h) && Depicts(Pixels(ts[0], tile.w, tile.h), tile, image)
  {
    LegalTail(r, i, ts);
    hide TileCount, TileRect, Legal, Depicts;
    forall k | 0 <= k < |ts[1..]|
      ensures var tile := TileRect(r, ZRLE_TILE, i + 1 + k); Depicts(Pixels(ts[1..][k], tile.w, tile.h), tile, image)
    {
      assert ts[1..][k] == ts[k + 1] && i + 1 + k == i + (k + 1);
    }
    assert i + 0 == i;
  }

  /** For every image, every legal choice of tile encodings for it and whatever
      the buffers held: decoding the encoder's stream takes exactly that stream,
      paints every pixel of the rectangle once, and nothing outside it. */
  lemma RectangleRoundTrip(buf: seq<Zrle.Pixel>, r: Rect, ts: seq<Tile>, rest: seq<byte>, image: (int, int) -> Rgb)
    requires |buf| == Zrle.BUFFER_PIXELS && AllLegal(r, 0, ts) && AllDepict(r, 0, ts, image)
    ensures var p := DecodeTiles(buf, r, 0, AllBytes(r, 0, ts) + rest);
            p.Progress? && p.rest == rest
            && forall x, y :: Painted(p.out, x, y) == if r.Contains(x, y) then [image(x, y)] else []
  {
    TilesRoundTrip(buf, r, 0, ts, rest, image);
    var p := DecodeTiles(buf, r, 0, AllBytes(r, 0, ts) + rest);
    forall k | 0 <= k < |p.out|
      ensures Paints(p.out[k], TileRect(r, ZRLE_TILE, k), image)
    {
      assert 0 + k == k;
    }
    TilesPaintImage(r, ZRLE_TILE, p.out, image);
  }
}
