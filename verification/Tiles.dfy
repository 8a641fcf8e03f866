/** Rectangles cut into square tiles in reading order, and what a list of draw
    calls paints where. */
module Tiles {
  import opened Bytes

  datatype Rect = Rect(x: nat, y: nat, w: nat, h: nat) {
    predicate Contains(px: int, py: int) {
      x <= px < x + w && y <= py < y + h
    }
  }

  function CeilDiv(n: nat, t: nat): nat
    requires t > 0
  {
    (n + t - 1) / t
  }

  function Least(a: int, b: int): int {
    if a < b then a else b
  }

  lemma MulMono(a: nat, b: nat, c: nat)
    requires a <= b
    ensures a * c <= b * c
  {
  }

  /** Tile columns (or rows) are exactly the ones that start inside. */
  lemma CeilDivStarts(n: nat, t: nat, k: nat)
    requires t > 0
    ensures k < CeilDiv(n, t) <==> k * t < n
  {
    var c := CeilDiv(n, t);
    var m := n + t - 1;
    assert m == c * t + m % t;
    if k < c {
      MulMono(k + 1, c, t);
      assert (k + 1) * t == k * t + t;
    } else {
      MulMono(c, k, t);
    }
  }

  /** The number of tiles of a rectangle. */
  function TileCount(r: Rect, t: nat): nat
    requires t > 0
  {
    CeilDiv(r.w, t) * CeilDiv(r.h, t)
  }

  /** Column and row of tile number i. */
  lemma TileInside(r: Rect, t: nat, i: nat)
    requires t > 0 && i < TileCount(r, t)
    ensures var cols := CeilDiv(r.w, t);
            && cols > 0 && 0 <= i % cols < cols && 0 <= i / cols < CeilDiv(r.h, t)
            && 0 <= i % cols * t < r.w && 0 <= i / cols * t < r.h
  {
    var cols, rows := CeilDiv(r.w, t), CeilDiv(r.h, t);
    if i / cols >= rows {
      assert i == i / cols * cols + i % cols;
      MulMono(rows, i / cols, cols);
      assert false;
    }
    CeilDivStarts(r.w, t, i % cols);
    CeilDivStarts(r.h, t, i / cols);
  }

  /** The rectangle of tile number i, in reading order. */
  function TileRect(r: Rect, t: nat, i: nat): (tile: Rect)
    requires t > 0 && i < TileCount(r, t)
    ensures tile.w <= t && tile.h <= t
  {
    TileInside(r, t, i);
    var cols := CeilDiv(r.w, t);
    var tx, ty := i % cols * t, i / cols * t;
    Rect(r.x + tx, r.y + ty, Least(t, r.w - tx), Least(t, r.h - ty))
  }

  /** Two multiples of t, less than t apart from the same number, are equal. */
  lemma SameCell(t: nat, d: nat, k: nat)
    requires t > 0
    ensures k * t <= d < k * t + t <==> d / t == k
  {
    assert d == d / t * t + d % t;
    if k * t <= d < k * t + t {
      DivModUnique(d, t, k, d - k * t);
    }
  }

  /** The number of the one tile that contains a point of the rectangle. */
  function TileOf(r: Rect, t: nat, px: int, py: int): (i: nat)
    requires t > 0 && r.Contains(px, py)
    ensures i < TileCount(r, t)
  {
    var cols, rows := CeilDiv(r.w, t), CeilDiv(r.h, t);
    var c, w := (px - r.x) / t, (py - r.y) / t;
    CellInside(r.w, t, px - r.x);
    CellInside(r.h, t, py - r.y);
    IndexInside(cols, rows, c, w);
    w * cols + c
  }

  lemma CellInside(n: nat, t: nat, d: nat)
    requires t > 0 && d < n
    ensures 0 <= d / t < CeilDiv(n, t)
  {
    SameCell(t, d, d / t);
    CeilDivStarts(n, t, d / t);
  }

  lemma IndexInside(cols: nat, rows: nat, c: nat, w: nat)
    requires c < cols && w < rows
    ensures 0 <= w * cols + c < cols * rows
  {
    MulMono(w + 1, rows, cols);
    assert (w + 1) * cols == w * cols + cols;
  }

  /** The tiles partition the rectangle: a point lies in tile i exactly when it
      lies in the rectangle and i is its tile number. */
  lemma TilesPartition(r: Rect, t: nat, i: nat, px: int, py: int)
    requires t > 0 && i < TileCount(r, t)
    ensures TileRect(r, t, i).Contains(px, py) <==> r.Contains(px, py) && i == TileOf(r, t, px, py)
  {
    TileInside(r, t, i);
    var cols := CeilDiv(r.w, t);
    var c, w := i % cols, i / cols;
    assert i == w * cols + c;
    if r.Contains(px, py) {
      var dx, dy := px - r.x, py - r.y;
      SameCell(t, dx, c);
      SameCell(t, dy, w);
      if i == TileOf(r, t, px, py) {
        CellInside(r.w, t, dx);
        UniqueQuotient(cols, w, c, dy / t, dx / t);
      }
    }
  }
}
