/** What a list of draw calls puts on each pixel. */
module Painting {
  import opened Bytes
  import opened Tiles
  import opened RectSteps

  datatype Rgb = Rgb(r: byte, g: byte, b: byte)

  /** The colour of pixel number p of a row-major buffer of 4-byte pixels. */
  function PixelOf(data: seq<byte>, p: nat): Rgb
    requires 4 * p + 3 <= |data|
  {
    Rgb(data[4 * p], data[4 * p + 1], data[4 * p + 2])
  }

  function PixelIndex(w: nat, dx: nat, dy: nat): nat {
    dy * w + dx
  }

  /** What one call puts on the pixel at (px, py), if anything. */
  function ColorAt(e: Event, px: int, py: int): Option<Rgb> {
    if e.FillRect? then
      if e.x <= px < e.x + e.w && e.y <= py < e.y + e.h && |e.color| >= 3
      then Some(Rgb(e.color[0], e.color[1], e.color[2])) else None
    else if e.BlitImage? then
      if e.x <= px < e.x + e.w && e.y <= py < e.y + e.h then
        var p := PixelIndex(e.w, px - e.x, py - e.y);
        if 4 * p + 3 <= |e.data| then Some(PixelOf(e.data, p)) else None
      else None
    else None
  }

  /** Every colour put on the pixel, in order. */
  function Painted(es: seq<Event>, px: int, py: int): seq<Rgb> {
    if es == [] then [] else
    Painted(es[..|es| - 1], px, py)
    + (match ColorAt(es[|es| - 1], px, py) case None => [] case Some(c) => [c])
  }

  /** The call paints exactly this rectangle, with the colours of the image. */
  ghost predicate Paints(e: Event, tile: Rect, image: (int, int) -> Rgb) {
    forall px, py :: ColorAt(e, px, py) == if tile.Contains(px, py) then Some(image(px, py)) else None
  }

  lemma {:induction false} PaintedNowhere(es: seq<Event>, px: int, py: int)
    requires forall i | 0 <= i < |es| :: ColorAt(es[i], px, py) == None
    ensures Painted(es, px, py) == []
  {
    if es != [] {
      PaintedNowhere(es[..|es| - 1], px, py);
    }
  }

  lemma {:induction false} PaintedOnce(es: seq<Event>, k: nat, c: Rgb, px: int, py: int)
    requires k < |es| && ColorAt(es[k], px, py) == Some(c)
    requires forall i | 0 <= i < |es| && i != k :: ColorAt(es[i], px, py) == None
    ensures Painted(es, px, py) == [c]
  {
    if k == |es| - 1 {
      PaintedNowhere(es[..|es| - 1], px, py);
    } else {
      PaintedOnce(es[..|es| - 1], k, c, px, py);
    }
  }

  /** One call a tile, in reading order, paints the image: every pixel of the
      rectangle exactly once, and nothing outside it. */
  lemma TilesPaintImage(r: Rect, t: nat, es: seq<Event>, image: (int, int) -> Rgb)
    requires t > 0 && |es| == TileCount(r, t)
    requires forall i | 0 <= i < |es| :: Paints(es[i], TileRect(r, t, i), image)
    ensures forall px, py :: Painted(es, px, py) == if r.Contains(px, py) then [image(px, py)] else []
  {
    forall px: int, py: int
      ensures Painted(es, px, py) == if r.Contains(px, py) then [image(px, py)] else []
    {
      forall i | 0 <= i < |es|
        ensures ColorAt(es[i], px, py)
                == if r.Contains(px, py) && i == TileOf(r, t, px, py) then Some(image(px, py)) else None
      {
        TilesPartition(r, t, i, px, py);
      }
      if r.Contains(px, py) {
        PaintedOnce(es, TileOf(r, t, px, py), image(px, py), px, py);
      } else {
        PaintedNowhere(es, px, py);
      }
    }
  }

  lemma PixelInside(tile: Rect, px: int, py: int)
    requires tile.Contains(px, py)
    ensures 0 <= PixelIndex(tile.w, px - tile.x, py - tile.y) < tile.w * tile.h
  {
    IndexInside(tile.w, tile.h, px - tile.x, py - tile.y);
  }

  /** A blit of a full buffer paints its rectangle with the buffer's pixels. */
  lemma BlitPaints(tile: Rect, data: seq<byte>, image: (int, int) -> Rgb)
    requires |data| == 4 * (tile.w * tile.h)
    requires forall px, py | tile.Contains(px, py) ::
               var p := PixelIndex(tile.w, px - tile.x, py - tile.y);
               4 * p + 3 <= |data| ==> PixelOf(data, p) == image(px, py)
    ensures Paints(BlitImage(tile.x, tile.y, tile.w, tile.h, data), tile, image)
  {
    forall px: int, py: int | tile.Contains(px, py)
      ensures 0 <= PixelIndex(tile.w, px - tile.x, py - tile.y) < tile.w * tile.h
    {
      PixelInside(tile, px, py);
    }
  }
}
