/** The ZRLE decoder over its two pixel buffers, proved to follow the tile
    functions of Zrle and ZrleImage. */
module ZrleDecoder {
  import opened Bytes
  import opened Tiles
  import opened ReceiveQueue
  import opened RectSteps
  import opened Painting
  import opened RunFollowing
  import opened Zrle
  import opened ZrleEncoding
  import opened ZrleImage

  const BUFFER_BYTES: nat := 4 * BUFFER_PIXELS

  /** The inflated bytes still to come. */
  class Inflator {
    var data: seq<byte>

    constructor ()
      ensures data == []
    {
      data := [];
    }

    method SetInput(inflated: seq<byte>)
      modifies this
      ensures data == inflated
    {
      data := inflated;
    }

    /** Exactly n more bytes, or a failure. */
    method Inflate(n: nat) returns (ok: bool, s: seq<byte>)
      modifies this
      ensures ok <==> |old(data)| >= n
      ensures ok ==> s == old(data)[..n] && data == old(data)[n..]
      ensures !ok ==> data == old(data)
    {
      if |data| < n {
        return false, [];
      }
      s := data[..n];
      data := data[n..];
      return true, s;
    }

    method Byte() returns (ok: bool, b: byte)
      modifies this
      ensures ok <==> old(data) != []
      ensures ok ==> b == old(data)[0] && data == old(data)[1..]
      ensures !ok ==> data == old(data)
    {
      var s;
      ok, s := Inflate(1);
      b := if ok then s[0] else 0;
    }
  }

  function WritePixel(data: seq<byte>, p: nat, q: Pixel): (r: seq<byte>)
    requires 4 * p + 4 <= |data|
    ensures |r| == |data|
  {
    data[..4 * p] + [q.r, q.g, q.b, q.a] + data[4 * p + 4..]
  }

  /** Writing a pixel's four bytes is replacing the pixel. */
  lemma FlatUpdate(px: seq<Pixel>, p: nat, q: Pixel)
    requires p < |px|
    ensures WritePixel(Flat(px), p, q) == Flat(px[p := q])
  {
    FlatAt(px[p := q], p);
    var f, g := Flat(px), Flat(px[p := q]);
    forall k | 0 <= k < 4 * |px|
      ensures k < 4 * p || k >= 4 * p + 4 ==> f[k] == g[k]
    {
    }
  }

  lemma FlatAt(px: seq<Pixel>, p: nat)
    requires p < |px|
    ensures var f := Flat(px);
            f[4 * p] == px[p].r && f[4 * p + 1] == px[p].g && f[4 * p + 2] == px[p].b && f[4 * p + 3] == px[p].a
  {
    assert (4 * p) / 4 == p && (4 * p + 1) / 4 == p && (4 * p + 2) / 4 == p && (4 * p + 3) / 4 == p;
    assert (4 * p) % 4 == 0 && (4 * p + 1) % 4 == 1 && (4 * p + 2) % 4 == 2 && (4 * p + 3) % 4 == 3;
  }

  lemma FlatPrefix(px: seq<Pixel>, n: nat)
    requires n <= |px|
    ensures Flat(px)[..4 * n] == Flat(px[..n])
  {
  }

  class Decoder {
    var length: nat
    const inflator: Inflator
    const pixelBuffer: array<byte>
    const tileBuffer: array<byte>
    ghost var pixels: seq<Pixel>   // the pixel buffer, pixel by pixel
    ghost var tile: seq<Pixel>     // the tile buffer, pixel by pixel

    ghost predicate Valid()
      reads this, pixelBuffer, tileBuffer
    {
      pixelBuffer != tileBuffer &&
      |pixels| == BUFFER_PIXELS && pixelBuffer[..] == Flat(pixels) &&
      |tile| == BUFFER_PIXELS && tileBuffer[..] == Flat(tile)
    }

    constructor ()
      ensures Valid() && length == 0
      ensures fresh(inflator) && fresh(pixelBuffer) && fresh(tileBuffer)
    {
      length := 0;
      inflator := new Inflator();
      pixelBuffer := new byte[BUFFER_BYTES](_ => 0);
      tileBuffer := new byte[BUFFER_BYTES](_ => 0);
      pixels := seq(BUFFER_PIXELS, k => Pixel(0, 0, 0, 0));
      tile := pixels;
    }

    method PutPixel(p: nat, r: byte, g: byte, b: byte)
      requires Valid() && p < BUFFER_PIXELS
      modifies `pixels, pixelBuffer
      ensures Valid() && pixels == old(pixels)[p := Pixel(r, g, b, 255)]
    {
      hide Flat;
      FlatUpdate(pixels, p, Pixel(r, g, b, 255));
      ghost var was := pixelBuffer[..];
      pixels := pixels[p := Pixel(r, g, b, 255)];
      pixelBuffer[4 * p] := r;
      pixelBuffer[4 * p + 1] := g;
      pixelBuffer[4 * p + 2] := b;
      pixelBuffer[4 * p + 3] := 255;
      assert pixelBuffer[..] == WritePixel(was, p, Pixel(r, g, b, 255));
    }

    /** Copies a pixel into the tile; past the buffer's end nothing happens. */
    method PutTile(p: nat, q: Pixel)
      requires Valid()
      modifies `tile, tileBuffer
      ensures Valid() && tile == if p < BUFFER_PIXELS then old(tile)[p := q] else old(tile)
    {
      hide Flat;
      if p < BUFFER_PIXELS {
        FlatUpdate(tile, p, q);
        ghost var was := tileBuffer[..];
        tile := tile[p := q];
        tileBuffer[4 * p] := q.r;
        tileBuffer[4 * p + 1] := q.g;
        tileBuffer[4 * p + 2] := q.b;
        tileBuffer[4 * p + 3] := q.a;
        assert tileBuffer[..] == WritePixel(was, p, q);
      }
    }

    method GetPixel(p: nat) returns (q: Pixel)
      requires Valid() && p < BUFFER_PIXELS
      ensures q == pixels[p]
    {
      FlatAt(pixels, p);
      q := Pixel(pixelBuffer[4 * p], pixelBuffer[4 * p + 1], pixelBuffer[4 * p + 2], pixelBuffer[4 * p + 3]);
    }

    method ReadPixels(n: nat) returns (ok: bool)
      requires Valid() && n <= BUFFER_PIXELS
      modifies `pixels, pixelBuffer, inflator
      ensures Valid()
      ensures match Zrle.ReadPixels(old(pixels), old(inflator.data), n)
              case Err(_) => !ok
              case Ok(b, rest) => ok && pixels == b && inflator.data == rest
    {
      hide Flat;
      ghost var s, before := inflator.data, pixels;
      var buffer;
      ok, buffer := inflator.Inflate(3 * n);
      if !ok {
        return false;
      }
      for i := 0 to n
        invariant Valid() && inflator.data == s[3 * n..] && buffer == s[..3 * n]
        invariant pixels == Expand(s, n)[..i] + before[i..]
      {
        PutPixel(i, buffer[3 * i], buffer[3 * i + 1], buffer[3 * i + 2]);
        assert Expand(s, n)[i] == Pixel(buffer[3 * i], buffer[3 * i + 1], buffer[3 * i + 2], 255);
        assert pixels == Expand(s, n)[..i + 1] + before[i + 1..];
      }
      assert pixels == Expand(s, n) + before[n..];
      return true;
    }

    /** The do-while loop that sums 255-chained bytes. */
    method ReadRunLength() returns (ok: bool, n: nat)
      modifies inflator
      ensures match RunLength(old(inflator.data))
              case Err(_) => !ok
              case Ok(v, rest) => ok && n == v && inflator.data == rest
    {
      var length: nat := 0;
      ghost var goal := RunLength(inflator.data);
      while true
        invariant match RunLength(inflator.data)
                  case Err(_) => goal.Err?
                  case Ok(v, rest) => goal == Ok(length + v, rest)
        decreases |inflator.data|
      {
        var current;
        ok, current := inflator.Byte();
        if !ok {
          return false, 0;
        }
        length := length + current;
        if current != 255 {
          return true, length + 1;
        }
      }
    }

    /** n copies of a pixel, from tile pixel i on. */
    method Repeated(i: nat, n: nat, q: Pixel)
      requires Valid()
      modifies `tile, tileBuffer
      ensures Valid()
      ensures forall k | 0 <= k < BUFFER_PIXELS :: tile[k] == if i <= k < i + n then q else old(tile)[k]
    {
      hide Flat;
      for j := 0 to n
        invariant Valid()
        invariant forall k | 0 <= k < BUFFER_PIXELS :: tile[k] == if i <= k < i + j then q else old(tile)[k]
      {
        PutTile(i + j, q);
      }
    }

    /** A pixel and its repetitions, from tile pixel i on. */
    method DecodeRun(i: nat, size: nat) returns (ok: bool, n: nat)
      requires Valid() && i < size <= BUFFER_PIXELS
      modifies `pixels, `tile, pixelBuffer, tileBuffer, inflator
      ensures Valid()
      ensures var s := old(inflator.data);
              if |s| < 3 then !ok else
              match RunLength(s[3..])
              case Err(_) => !ok
              case Ok(v, rest) =>
                ok && n == v && inflator.data == rest && pixels == [Opaque(s)] + old(pixels)[1..]
                && tile[..Least(i + n, size)] == old(tile)[..i] + Repeat(Opaque(s), Least(n, size - i))
    {
      hide Flat, RunLength;
      ghost var s, before, done := inflator.data, pixels, tile[..i];
      ok := ReadPixels(1);
      if !ok {
        return false, 0;
      }
      OnePixel(s, before);
      var pixel := GetPixel(0);
      ok, n := ReadRunLength();
      if !ok {
        return false, 0;
      }
      Repeated(i, n, pixel);
      assert tile[..Least(i + n, size)] == done + Repeat(pixel, Least(n, size - i));
      return true, n;
    }

    method DecodeRunTile(size: nat) returns (ok: bool)
      requires Valid() && 1 <= size <= BUFFER_PIXELS
      modifies `pixels, `tile, pixelBuffer, tileBuffer, inflator
      ensures Valid()
      ensures match DecodeRuns(old(pixels), old(inflator.data), size)
              case Err(_) => !ok
              case Ok(d, rest) => ok && d.shown == Buffer(tile[..size]) && pixels == d.buf && inflator.data == rest
    {
      ghost var goal, before := PlainRuns(inflator.data, size), pixels;
      Begins(goal);
      hide Flat, PlainRuns, RunLength, Continues;
      var i: nat := 0;
      while i < size
        invariant Valid()
        invariant pixels == BufferAfterRuns(before, tile[..Least(i, size)])
        invariant Continues(goal, tile[..Least(i, size)], PlainRuns(inflator.data, if i < size then size - i else 0))
        decreases size - i
      {
        ghost var done, s := tile[..i], inflator.data;
        RunStep(goal, done, s, size - i);
        var n;
        ok, n := DecodeRun(i, size);
        if !ok {
          return false;
        }
        LastOfRun(done, Opaque(s), Least(n, size - i));
        i := i + n;
      }
      RunsEnd(goal, tile[..size], inflator.data);
      return true;
    }

    method DecodePaletteRunTile(paletteSize: nat, size: nat) returns (ok: bool)
      requires Valid() && size <= BUFFER_PIXELS && paletteSize < 128
      modifies `pixels, `tile, pixelBuffer, tileBuffer, inflator
      ensures Valid()
      ensures match DecodePaletteRuns(old(pixels), old(inflator.data), paletteSize, size)
              case Err(_) => !ok
              case Ok(d, rest) => ok && d.shown == Buffer(tile[..size]) && pixels == d.buf && inflator.data == rest
    {
      hide Flat;
      ok := ReadPixels(paletteSize);
      if !ok {
        return false;
      }
      ok := PaintPaletteRuns(paletteSize, size);
    }

    method PaintPaletteRuns(paletteSize: nat, size: nat) returns (ok: bool)
      requires Valid() && size <= BUFFER_PIXELS && paletteSize < 128
      modifies `tile, tileBuffer, inflator
      ensures Valid()
      ensures match PaletteRuns(pixels, paletteSize, old(inflator.data), size)
              case Err(_) => !ok
              case Ok(px, rest) => ok && tile[..size] == px && inflator.data == rest
    {
      ghost var goal := PaletteRuns(pixels, paletteSize, inflator.data, size);
      Begins(goal);
      assert tile[..0] == [];
      hide Flat, PaletteRuns, PaletteEntry, Continues;
      var offset: nat := 0;
      while offset < size
        invariant Valid() && offset <= size
        invariant Continues(goal, tile[..offset], PaletteRuns(pixels, paletteSize, inflator.data, size - offset))
        decreases size - offset
      {
        ghost var done := tile[..offset];
        PaletteRunStep(goal, done, pixels, paletteSize, inflator.data, size - offset);
        var index, n;
        ok, index, n := ReadEntry();
        if !ok || index > paletteSize || offset + n > size {
          return false;
        }
        var pixel := GetPixel(index);
        Repeated(offset, n, pixel);
        assert tile[..offset + n] == done + Repeat(pixel, n);
        offset := offset + n;
      }
      PaletteRunsEnd(goal, tile[..size], pixels, paletteSize, inflator.data);
      return true;
    }

    /** Copies the palette entry that a field of the last byte selects. */
    method UnpackPixel(encoded: byte, shift: nat, bits: nat, offset: nat, x: nat, w: nat,
                       ghost s: seq<byte>, ghost c: nat, ghost before: seq<Pixel>)
      requires Valid() && x < w && Row(s, bits, w, x, c, shift, encoded, inflator.data, pixels, before, tile, offset)
      modifies `tile, tileBuffer
      ensures Valid() && Row(s, bits, w, x + 1, c, shift - bits, encoded, inflator.data, pixels, before, tile, offset)
    {
      CursorUsed(s, bits, w, x, c, shift, encoded, inflator.data, pixels, before, tile, offset);
      hide Flat, Pow2, Row;
      var q := GetPixel(encoded / Pow2(shift) % Pow2(bits));
      PutTile(offset + x, q);
    }

    /** One row of packed indices. The row's first byte is already in `encoded`. */
    method DecodePackedRow(first: byte, bits: nat, offset: nat, w: nat) returns (ok: bool)
      requires Valid() && bits in {1, 2, 4} && w > 0 && offset + w <= BUFFER_PIXELS
      modifies `tile, tileBuffer, inflator
      ensures Valid()
      ensures RowDone([first] + old(inflator.data), bits, w, pixels, old(tile), tile, offset, inflator.data, ok)
    {
      ghost var s, before := [first] + inflator.data, tile;
      ghost var c := 1;                     // bytes of the row taken so far
      var encoded, shift := first, 8 - bits;
      CursorStarts(s, bits, w, pixels, tile, offset);
      hide Flat, Row, RowDone, Pow2, Valid;
      for x := 0 to w
        invariant Valid()
        invariant Row(s, bits, w, x, c, shift, encoded, inflator.data, pixels, before, tile, offset)
        invariant x > 0 ==> shift < 8 - bits
      {
        if shift < 0 {
          CursorMoves(s, bits, w, x, c, shift, encoded, inflator.data, pixels, before, tile, offset);
          shift := 8 - bits;
          ok, encoded := inflator.Byte();
          if !ok {
            return false;
          }
          c := c + 1;
        }
        UnpackPixel(encoded, shift, bits, offset, x, w, s, c, before);
        shift := shift - bits;
      }
      CursorEnds(s, bits, w, c, shift, encoded, inflator.data, pixels, before, tile, offset);
      return true;
    }

    method DecodePackedTile(paletteSize: nat, w: nat, h: nat) returns (ok: bool)
      requires Valid() && paletteSize <= 16 && w > 0 && h > 0 && w * h <= BUFFER_PIXELS
      modifies `pixels, `tile, pixelBuffer, tileBuffer, inflator
      ensures Valid()
      ensures match DecodePacked(old(pixels), old(inflator.data), paletteSize, w, h)
              case Err(_) => !ok
              case Ok(d, rest) => ok && d.shown == Buffer(tile[..w * h]) && pixels == d.buf && inflator.data == rest
    {
      hide Flat, PackedRows;
      ok := ReadPixels(paletteSize);
      if !ok {
        return false;
      }
      ok := UnpackRows(BitsPerPixel(paletteSize), w, h);
    }

    method UnpackRows(bits: nat, w: nat, h: nat) returns (ok: bool)
      requires Valid() && bits in {1, 2, 4} && w > 0 && h > 0 && w * h <= BUFFER_PIXELS
      modifies `tile, tileBuffer, inflator
      ensures Valid()
      ensures match PackedRows(pixels, old(inflator.data), bits, w, h)
              case Err(_) => !ok
              case Ok(px, rest) => ok && tile[..w * h] == px && inflator.data == rest
    {
      ghost var goal := PackedRows(pixels, inflator.data, bits, w, h);
      ghost var s := inflator.data;         // the rows still to come
      RowsBegin(goal, tile, pixels, s, bits, w, h);
      hide Flat, Valid, PackedRows, Rows, RowDone;
      var encoded: byte;
      ok, encoded := inflator.Byte();
      if !ok {
        NoRow(goal, tile, pixels, s, bits, w, h, 0, 0);
        return false;
      }
      var offset: nat := 0;
      for y := 0 to h
        invariant Valid() && Rows(goal, tile, pixels, s, bits, w, h, y, offset)
        invariant y < h ==> s != [] && encoded == s[0] && inflator.data == s[1..]
        invariant y == h ==> s == inflator.data
      {
        ghost var before, s0 := tile, s;
        RowInside(goal, tile, pixels, s, bits, w, h, y, offset);
        assert [encoded] + inflator.data == s;
        ok := DecodePackedRow(encoded, bits, offset, w);
        s := inflator.data;
        RowOf(goal, before, tile, pixels, s0, s, bits, w, h, y, offset, ok);
        if !ok {
          return false;
        }
        offset := offset + w;
        if y < h - 1 {
          ok, encoded := inflator.Byte();
          if !ok {
            NoRow(goal, tile, pixels, s, bits, w, h, y + 1, offset);
            return false;
          }
        }
      }
      RowsEnd(goal, tile, pixels, s, bits, w, h, offset);
      return true;
    }

    method ReadEntry() returns (ok: bool, index: nat, n: nat)
      modifies inflator
      ensures match PaletteEntry(old(inflator.data))
              case Err(_) => !ok
              case Ok((i, l), rest) => ok && index == i && n == l && inflator.data == rest
    {
      var b;
      ok, b := inflator.Byte();
      index, n := b, 1;
      if ok && index >= 128 {
        index := index - 128;
        ok, n := ReadRunLength();
      }
    }

    method DrawRaw(x: nat, y: nat, w: nat, h: nat, display: EventLog) returns (ok: bool)
      requires Valid() && w * h <= BUFFER_PIXELS
      modifies `pixels, pixelBuffer, inflator, display
      ensures Valid()
      ensures match DecodeRaw(old(pixels), old(inflator.data), w * h)
              case Err(_) => !ok && display.events == old(display.events)
              case Ok(d, rest) =>
                ok && pixels == d.buf && inflator.data == rest
                && display.events == old(display.events) + [TileEvent(Rect(x, y, w, h), d.shown)]
    {
      hide Flat, Zrle.ReadPixels;
      ok := ReadPixels(w * h);
      if ok {
        FlatPrefix(pixels, w * h);
        display.Add(BlitImage(x, y, w, h, pixelBuffer[..4 * (w * h)]));
      }
    }

    method DrawSolid(x: nat, y: nat, w: nat, h: nat, display: EventLog) returns (ok: bool)
      requires Valid()
      modifies `pixels, pixelBuffer, inflator, display
      ensures Valid()
      ensures match DecodeSolid(old(pixels), old(inflator.data))
              case Err(_) => !ok && display.events == old(display.events)
              case Ok(d, rest) =>
                ok && pixels == d.buf && inflator.data == rest
                && display.events == old(display.events) + [TileEvent(Rect(x, y, w, h), d.shown)]
    {
      hide Flat, Zrle.ReadPixels;
      ok := ReadPixels(1);
      if ok {
        var background := GetPixel(0);
        display.Add(FillRect(x, y, w, h, [background.r, background.g, background.b]));
      }
    }

    /** Only the tile's own part of the buffer is blitted. */
    method BlitTile(x: nat, y: nat, w: nat, h: nat, display: EventLog)
      requires Valid() && w * h <= BUFFER_PIXELS
      modifies display
      ensures display.events == old(display.events) + [TileEvent(Rect(x, y, w, h), Buffer(tile[..w * h]))]
    {
      hide Flat;
      FlatPrefix(tile, w * h);
      display.Add(BlitImage(x, y, w, h, tileBuffer[..4 * (w * h)]));
    }

    method DecodeTile(x: nat, y: nat, w: nat, h: nat, display: EventLog) returns (ok: bool)
      requires Valid() && w > 0 && h > 0 && w * h <= BUFFER_PIXELS
      modifies `pixels, `tile, pixelBuffer, tileBuffer, inflator, display
      ensures Valid()
      ensures match Zrle.DecodeTile(old(pixels), old(inflator.data), w, h)
              case Err(_) => !ok && display.events == old(display.events)
              case Ok(d, rest) =>
                ok && pixels == d.buf && inflator.data == rest
                && display.events == old(display.events) + [TileEvent(Rect(x, y, w, h), d.shown)]
    {
      MulMono(1, w, h);
      hide Flat, DecodeRaw, DecodeSolid, DecodePacked, DecodeRuns, DecodePaletteRuns, TileEvent;
      var subencoding;
      ok, subencoding := inflator.Byte();
      if !ok {
        return false;
      }
      if subencoding == 0 {
        ok := DrawRaw(x, y, w, h, display);
      } else if subencoding == 1 {
        ok := DrawSolid(x, y, w, h, display);
      } else {
        if 2 <= subencoding <= 16 {
          ok := DecodePackedTile(subencoding, w, h);
        } else if subencoding == 128 {
          ok := DecodeRunTile(w * h);
        } else if subencoding >= 130 {
          ok := DecodePaletteRunTile(subencoding - 128, w * h);
        } else {
          return false;
        }
        if ok {
          BlitTile(x, y, w, h, display);
        }
      }
    }

    method DecodeRow(r: Rect, ty: nat, display: EventLog, ghost row: nat, ghost goal: Progress, ghost start: seq<Event>)
        returns (ok: bool)
      requires Valid() && ty < r.y + r.h && ty == r.y + row * ZRLE_TILE
      requires Following(goal, start, display.events, pixels, r, row * CeilDiv(r.w, ZRLE_TILE), inflator.data)
      modifies `pixels, `tile, pixelBuffer, tileBuffer, inflator, display
      ensures Valid()
      ensures if ok then Following(goal, start, display.events, pixels, r, (row + 1) * CeilDiv(r.w, ZRLE_TILE), inflator.data)
              else goal == Fault(goal.out) && display.events == start + goal.out
    {
      hide Flat, Following, Zrle.DecodeTile, CeilDiv, TileEvent;
      var th := Least(ZRLE_TILE, r.y + r.h - ty);
      var tx := r.x;
      ghost var col := 0;
      while tx < r.x + r.w
        invariant Valid() && tx == r.x + col * ZRLE_TILE && col <= CeilDiv(r.w, ZRLE_TILE)
        invariant Following(goal, start, display.events, pixels, r, row * CeilDiv(r.w, ZRLE_TILE) + col, inflator.data)
        decreases r.x + r.w - tx
      {
        var tw := Least(ZRLE_TILE, r.x + r.w - tx);
        NextTile(goal, start, display.events, pixels, r, row, col, inflator.data);
        ok := DecodeTile(tx, ty, tw, th, display);
        if !ok {
          return false;
        }
        tx := tx + ZRLE_TILE;
        col := col + 1;
      }
      LastColumn(r, row, col);
      return true;
    }

    method DecodeRows(r: Rect, display: EventLog) returns (ok: bool)
      requires Valid()
      modifies `pixels, `tile, pixelBuffer, tileBuffer, inflator, display
      ensures Valid()
      ensures var p := DecodeTiles(old(pixels), r, 0, old(inflator.data));
              display.events == old(display.events) + p.out
              && if p.Progress? then ok && pixels == p.buf && inflator.data == p.rest else !ok
    {
      ghost var goal, start := DecodeTiles(pixels, r, 0, inflator.data), display.events;
      FirstTile(goal, start, pixels, r, inflator.data);
      hide Flat, Following, DecodeTiles, CeilDiv;
      var ty := r.y;
      ghost var row := 0;
      while ty < r.y + r.h
        invariant Valid() && ty == r.y + row * ZRLE_TILE && row <= CeilDiv(r.h, ZRLE_TILE)
        invariant Following(goal, start, display.events, pixels, r, row * CeilDiv(r.w, ZRLE_TILE), inflator.data)
        decreases r.y + r.h - ty
      {
        CeilDivStarts(r.h, ZRLE_TILE, row);
        ok := DecodeRow(r, ty, display, row, goal, start);
        if !ok {
          return false;
        }
        ty := ty + ZRLE_TILE;
        row := row + 1;
      }
      CeilDivStarts(r.h, ZRLE_TILE, row);
      NoMoreTiles(goal, start, display.events, pixels, r, row, inflator.data);
      return true;
    }

    /** The compressed length, kept over calls, and then that many bytes. */
    method TakeData(sock: ReceiveBuffer) returns (data: Option<seq<byte>>)
      requires sock.Valid()
      modifies `length, sock`rQi, sock`consumed, sock`unread
      ensures sock.Valid()
      ensures match Await(old(length), old(sock.unread))
              case Waits(n, rest) => data == None && length == n && sock.unread == rest
              case Takes(d, rest) => data == Some(d) && sock.unread == rest
    {
      if length == 0 {
        var wait := sock.Wait(4, 0);
        if wait == Some(true) {
          return None;
        }
        length := sock.Shift(4);
      }
      var wait := sock.Wait(length, 0);
      if wait == Some(true) {
        return None;
      }
      var d := sock.ShiftBytes(length);
      return Some(d);
    }

    /** A whole rectangle, once its compressed bytes have all arrived. What zlib
        makes of them is given; a failed inflation or an illegal tile throws. */
    method DecodeRect(r: Rect, sock: ReceiveBuffer, display: EventLog, zlib: seq<byte> -> seq<byte>)
        returns (outcome: Outcome)
      requires Valid() && sock.Valid() && sock.rQ != pixelBuffer && sock.rQ != tileBuffer
      modifies this, pixelBuffer, tileBuffer, inflator, display, sock`rQi, sock`consumed, sock`unread
      ensures Valid() && sock.Valid()
      ensures match Await(old(length), old(sock.unread))
              case Waits(n, rest) =>
                outcome == NeedsBytes && length == n && sock.unread == rest && display.events == old(display.events)
                && pixels == old(pixels)
              case Takes(data, rest) =>
                var p := DecodeTiles(old(pixels), r, 0, zlib(data));
                sock.unread == rest && display.events == old(display.events) + p.out
                && if p.Progress? then outcome == Complete && length == 0 && pixels == p.buf && inflator.data == p.rest
                   else outcome == Threw
    {
      hide Flat, DecodeTiles, Await;
      var data := TakeData(sock);
      if data == None {
        return NeedsBytes;
      }
      inflator.SetInput(zlib(data.value));
      var ok := DecodeRows(r, display);
      if !ok {
        return Threw;
      }
      length := 0;
      return Complete;
    }
  }

  lemma OnePixel(s: seq<byte>, buf: seq<Pixel>)
    requires |s| >= 3 && buf != []
    ensures Zrle.ReadPixels(buf, s, 1) == Ok([Opaque(s)] + buf[1..], s[3..])
  {
    assert Expand(s, 1) == [Opaque(s)];
  }

  // Rectangles

  datatype Outcome = NeedsBytes | Complete | Threw

  /** What a call does before it decodes: it waits, or it takes the rectangle's data. */
  datatype Call = Waits(length: nat, rest: seq<byte>) | Takes(data: seq<byte>, rest: seq<byte>)

  function AwaitData(length: nat, q: seq<byte>): Call {
    if |q| < length then Waits(length, q) else Takes(q[..length], q[length..])
  }

  function Await(length: nat, q: seq<byte>): Call {
    if length > 0 then AwaitData(length, q)
    else if |q| < 4 then Waits(0, q)
    else AwaitData(BigEndian(q[..4]), q[4..])
  }

  /** However a rectangle's bytes arrive: a call that had to wait, repeated when
      more is there, takes what one call takes when all is there; and a call that
      took its data leaves later bytes alone. */
  lemma AwaitResumes(length: nat, a: seq<byte>, b: seq<byte>)
    ensures match Await(length, a)
            case Waits(n, rest) => Await(n, rest + b) == Await(length, a + b)
            case Takes(data, rest) => Await(length, a + b) == Takes(data, rest + b)
  {
    if length == 0 && |a| >= 4 {
      var n := BigEndian(a[..4]);
      assert (a + b)[..4] == a[..4] && (a + b)[4..] == a[4..] + b;
      if |a[4..]| >= n {
        assert (a[4..] + b)[..n] == a[4..][..n] && (a[4..] + b)[n..] == a[4..][n..] + b;
      }
    } else if length > 0 && |a| >= length {
      assert (a + b)[..length] == a[..length] && (a + b)[length..] == a[length..] + b;
    }
  }

  /** An encoded rectangle behind its length: the decoder takes exactly its bytes
      and all that zlib makes of them, and paints the image. */
  lemma EncodedRectangle(buf: seq<Pixel>, r: Rect, ts: seq<Tile>, data: seq<byte>, later: seq<byte>,
                         zlib: seq<byte> -> seq<byte>, image: (int, int) -> Rgb)
    requires |buf| == BUFFER_PIXELS && AllLegal(r, 0, ts) && AllDepict(r, 0, ts, image)
    requires |data| < TWO_32 && zlib(data) == AllBytes(r, 0, ts)
    ensures Await(0, U32(|data|) + data + later) == Takes(data, later)
    ensures var p := DecodeTiles(buf, r, 0, zlib(data));
            p.Progress? && p.rest == []
            && forall x, y :: Painted(p.out, x, y) == if r.Contains(x, y) then [image(x, y)] else []
  {
    hide *;
    AwaitFramed(data, later);
    assert AllBytes(r, 0, ts) + [] == AllBytes(r, 0, ts);
    RectangleRoundTrip(buf, r, ts, [], image);
  }

  lemma AwaitFramed(data: seq<byte>, later: seq<byte>)
    requires |data| < TWO_32
    ensures Await(0, U32(|data|) + data + later) == Takes(data, later)
  {
    var q := U32(|data|) + data + later;
    assert q[..4] == U32(|data|) && q[4..] == data + later;
    BigEndianInverts(|data|);
    DivModUnique(|data|, TWO_32, 0, |data|);
    hide U32, BigEndian;
  }

  /** The calls made since `start`, then tiles i and on of r, are the goal. */
  ghost predicate Following(goal: Progress, start: seq<Event>, now: seq<Event>, buf: seq<Pixel>, r: Rect, i: nat, s: seq<byte>) {
    && |buf| == BUFFER_PIXELS && i <= TileCount(r, ZRLE_TILE)
    && match DecodeTiles(buf, r, i, s)
       case Progress(out, b, rest) => goal == Progress(goal.out, b, rest) && start + goal.out == now + out
       case Fault(out) => goal == Fault(goal.out) && start + goal.out == now + out
  }

  lemma FirstTile(goal: Progress, start: seq<Event>, buf: seq<Pixel>, r: Rect, s: seq<byte>)
    requires |buf| == BUFFER_PIXELS && goal == DecodeTiles(buf, r, 0, s)
    ensures Following(goal, start, start, buf, r, 0, s)
  {
  }

  lemma TilePlace(r: Rect, row: nat, col: nat)
    requires row * ZRLE_TILE < r.h && col * ZRLE_TILE < r.w
    ensures var i := row * CeilDiv(r.w, ZRLE_TILE) + col;
            col < CeilDiv(r.w, ZRLE_TILE) && i < TileCount(r, ZRLE_TILE) && TileRect(r, ZRLE_TILE, i) == TileAt(r, row, col)
    ensures var t := TileAt(r, row, col); 0 < t.w && 0 < t.h && 0 < t.w * t.h <= BUFFER_PIXELS
  {
    var cols := CeilDiv(r.w, ZRLE_TILE);
    CeilDivStarts(r.w, ZRLE_TILE, col);
    CeilDivStarts(r.h, ZRLE_TILE, row);
    IndexInside(cols, CeilDiv(r.h, ZRLE_TILE), col, row);
    DivModUnique(row * cols + col, cols, row, col);
    var tile := TileAt(r, row, col);
    TileArea(tile);
    MulMono(1, tile.w, tile.h);
  }

  function TileAt(r: Rect, row: nat, col: nat): Rect
    requires row * ZRLE_TILE < r.h && col * ZRLE_TILE < r.w
  {
    var tx, ty := r.x + col * ZRLE_TILE, r.y + row * ZRLE_TILE;
    Rect(tx, ty, Least(ZRLE_TILE, r.x + r.w - tx), Least(ZRLE_TILE, r.y + r.h - ty))
  }

  lemma FollowTile(goal: Progress, start: seq<Event>, now: seq<Event>, buf: seq<Pixel>, r: Rect, i: nat, s: seq<byte>, tile: Rect)
    requires Following(goal, start, now, buf, r, i, s)
    requires i < TileCount(r, ZRLE_TILE) && tile == TileRect(r, ZRLE_TILE, i) && tile.w * tile.h <= BUFFER_PIXELS
    ensures match Zrle.DecodeTile(buf, s, tile.w, tile.h)
            case Err(_) => goal == Fault(goal.out) && start + goal.out == now
            case Ok(d, rest) => Following(goal, start, now + [TileEvent(tile, d.shown)], d.buf, r, i + 1, rest)
  {
    hide TileRect, Zrle.DecodeTile, TileEvent, TileCount;
    match Zrle.DecodeTile(buf, s, tile.w, tile.h)
    case Err(_) =>
      assert now + [] == now;
    case Ok(d, rest) =>
      var e := TileEvent(tile, d.shown);
      var later := DecodeTiles(d.buf, r, i + 1, rest);
      assert now + ([e] + later.out) == now + [e] + later.out;
  }

  lemma NextTile(goal: Progress, start: seq<Event>, now: seq<Event>, buf: seq<Pixel>, r: Rect, row: nat, col: nat, s: seq<byte>)
    requires Following(goal, start, now, buf, r, row * CeilDiv(r.w, ZRLE_TILE) + col, s)
    requires row * ZRLE_TILE < r.h && col * ZRLE_TILE < r.w
    ensures col < CeilDiv(r.w, ZRLE_TILE)
    ensures var tile := TileAt(r, row, col);
            0 < tile.w && 0 < tile.h && 0 < tile.w * tile.h <= BUFFER_PIXELS &&
            match Zrle.DecodeTile(buf, s, tile.w, tile.h)
            case Err(_) => goal == Fault(goal.out) && start + goal.out == now
            case Ok(d, rest) =>
              Following(goal, start, now + [TileEvent(tile, d.shown)], d.buf, r, row * CeilDiv(r.w, ZRLE_TILE) + (col + 1), rest)
  {
    hide Zrle.DecodeTile, TileEvent, TileCount, CeilDiv, TileRect, TileAt;
    TilePlace(r, row, col);
    FollowTile(goal, start, now, buf, r, row * CeilDiv(r.w, ZRLE_TILE) + col, s, TileAt(r, row, col));
  }

  lemma LastColumn(r: Rect, row: nat, col: nat)
    requires col * ZRLE_TILE >= r.w && col <= CeilDiv(r.w, ZRLE_TILE)
    ensures row * CeilDiv(r.w, ZRLE_TILE) + col == (row + 1) * CeilDiv(r.w, ZRLE_TILE)
  {
    CeilDivStarts(r.w, ZRLE_TILE, col);
  }

  lemma NoMoreTiles(goal: Progress, start: seq<Event>, now: seq<Event>, buf: seq<Pixel>, r: Rect, row: nat, s: seq<byte>)
    requires row == CeilDiv(r.h, ZRLE_TILE)
    requires Following(goal, start, now, buf, r, row * CeilDiv(r.w, ZRLE_TILE), s)
    ensures goal == Progress(goal.out, buf, s) && now == start + goal.out
  {
    assert now + [] == now;
  }

  // Packed rows

  ghost predicate Unpacked(s: seq<byte>, pal: seq<Pixel>, bits: nat, tile: seq<Pixel>, offset: nat, x: nat) {
    bits in {1, 2, 4} && |pal| >= 16 && offset + x <= |tile| &&
    forall j | 0 <= j < x :: j / PerByte(bits) < |s| && tile[offset + j] == pal[PackedIndex(s, bits, j)]
  }

  /** Before pixel x of a row of w: c bytes are taken and `shift` selects the
      field to use of the last one; a negative shift says that it is used up. */
  ghost predicate At(bits: nat, w: nat, x: nat, c: nat, shift: int) {
    bits in {1, 2, 4} && x <= w && c >= 1 && w > 0 &&
    var m := PerByte(bits);
    var k := x - (c - 1) * m;
    0 <= k <= m && shift == 8 - bits - bits * k
  }

  /** ... and the first x pixels of the row are in the tile. */
  ghost predicate Row(s: seq<byte>, bits: nat, w: nat, x: nat, c: nat, shift: int, encoded: byte, data: seq<byte>,
                      pal: seq<Pixel>, before: seq<Pixel>, tile: seq<Pixel>, offset: nat)
  {
    && At(bits, w, x, c, shift) && c <= |s| && encoded == s[c - 1] && data == s[c..]
    && offset + w <= |before| == |tile| && tile[..offset] == before[..offset]
    && Unpacked(s, pal, bits, tile, offset, x)
  }

  ghost predicate RowDone(s: seq<byte>, bits: nat, w: nat, pal: seq<Pixel>, before: seq<Pixel>, after: seq<Pixel>,
                          offset: nat, data: seq<byte>, ok: bool)
  {
    && bits in {1, 2, 4} && |pal| >= 16 && offset + w <= |before| == |after|
    && var n := RowBytes(w, bits);
    if |s| < n then !ok else
    ok && data == s[n..] && after[..offset + w] == before[..offset] + PackedRow(pal, s[..n], bits, w)
  }

  lemma CursorStarts(s: seq<byte>, bits: nat, w: nat, pal: seq<Pixel>, tile: seq<Pixel>, offset: nat)
    requires bits in {1, 2, 4} && w > 0 && s != [] && |pal| >= 16 && offset + w <= |tile|
    ensures Row(s, bits, w, 0, 1, 8 - bits, s[0], s[1..], pal, tile, tile, offset)
  {
  }

  lemma CursorMoves(s: seq<byte>, bits: nat, w: nat, x: nat, c: nat, shift: int, encoded: byte, data: seq<byte>,
                    pal: seq<Pixel>, before: seq<Pixel>, tile: seq<Pixel>, offset: nat)
    requires Row(s, bits, w, x, c, shift, encoded, data, pal, before, tile, offset) && x < w && shift < 0
    ensures data == [] ==> RowDone(s, bits, w, pal, before, tile, offset, data, false)
    ensures data != [] ==> Row(s, bits, w, x, c + 1, 8 - bits, data[0], data[1..], pal, before, tile, offset)
  {
    hide PackedRow, PackedIndex;
    var m := PerByte(bits);
    assert x == (c - 1) * m + m == c * m;
    CeilDivStarts(w, m, c);
  }

  lemma FieldAt(s: seq<byte>, bits: nat, w: nat, x: nat, c: nat, shift: int)
    requires At(bits, w, x, c, shift) && 0 <= shift && c <= |s|
    ensures x / PerByte(bits) < |s|
    ensures s[c - 1] / Pow2(shift) % Pow2(bits) == PackedIndex(s, bits, x) < 16
  {
    var m := PerByte(bits);
    var k := x - (c - 1) * m;
    DivModUnique(x, m, c - 1, k);
    assert Pow2(1) == 2 && Pow2(2) == 4;
    assert Pow2(3) == 8 && Pow2(4) == 16;
  }

  lemma UnpackStep(s: seq<byte>, pal: seq<Pixel>, bits: nat, tile: seq<Pixel>, offset: nat, x: nat)
    requires Unpacked(s, pal, bits, tile, offset, x) && offset + x < |tile|
    requires x / PerByte(bits) < |s| && PackedIndex(s, bits, x) < 16
    ensures Unpacked(s, pal, bits, tile[offset + x := pal[PackedIndex(s, bits, x)]], offset, x + 1)
  {
    hide Field;
  }

  lemma CursorUsed(s: seq<byte>, bits: nat, w: nat, x: nat, c: nat, shift: int, encoded: byte, data: seq<byte>,
                   pal: seq<Pixel>, before: seq<Pixel>, tile: seq<Pixel>, offset: nat)
    requires Row(s, bits, w, x, c, shift, encoded, data, pal, before, tile, offset) && x < w && 0 <= shift
    ensures encoded / Pow2(shift) % Pow2(bits) < 16 && offset + x < |tile|
    ensures var after := tile[offset + x := pal[encoded / Pow2(shift) % Pow2(bits)]];
            Row(s, bits, w, x + 1, c, shift - bits, encoded, data, pal, before, after, offset)
  {
    FieldAt(s, bits, w, x, c, shift);
    assert At(bits, w, x + 1, c, shift - bits);
    hide Pow2, At, PackedIndex, Unpacked, PerByte;
    UnpackStep(s, pal, bits, tile, offset, x);
  }

  lemma CursorEnds(s: seq<byte>, bits: nat, w: nat, c: nat, shift: int, encoded: byte, data: seq<byte>,
                   pal: seq<Pixel>, before: seq<Pixel>, tile: seq<Pixel>, offset: nat)
    requires Row(s, bits, w, w, c, shift, encoded, data, pal, before, tile, offset) && shift < 8 - bits
    ensures RowDone(s, bits, w, pal, before, tile, offset, data, true)
  {
    var m := PerByte(bits);
    assert (c - 1) * m + m == c * m;
    CeilDivStarts(w, m, c);
    CeilDivStarts(w, m, c - 1);
    RowUnpacked(s, pal, bits, tile, offset, w);
    assert tile[..offset + w] == tile[..offset] + tile[offset..offset + w];
  }

  lemma RowUnpacked(s: seq<byte>, pal: seq<Pixel>, bits: nat, tile: seq<Pixel>, offset: nat, w: nat)
    requires Unpacked(s, pal, bits, tile, offset, w) && RowBytes(w, bits) <= |s|
    ensures tile[offset..offset + w] == PackedRow(pal, s[..RowBytes(w, bits)], bits, w)
  {
    hide Field, RowBytes;
    forall j | 0 <= j < w
      ensures j / PerByte(bits) < RowBytes(w, bits)
    {
      RowHolds(w, bits, j);
    }
  }

  lemma RowStarts(w: nat, m: nat)
    requires w > 0 && m > 0
    ensures CeilDiv(w, m) >= 1
  {
    CeilDivStarts(w, m, 0);
  }

  /** Before row y: its bytes begin s, and the rows above it are in the tile. */
  ghost predicate Rows(goal: Result<seq<Pixel>>, tile: seq<Pixel>, pal: seq<Pixel>, s: seq<byte>, bits: nat,
                       w: nat, h: nat, y: nat, offset: nat)
  {
    && bits in {1, 2, 4} && |pal| >= 16 && w > 0 && y <= h && offset == y * w && w * h <= |tile| && offset <= w * h
    && Continues(goal, tile[..offset], PackedRows(pal, s, bits, w, h - y))
  }

  lemma RowsBegin(goal: Result<seq<Pixel>>, tile: seq<Pixel>, pal: seq<Pixel>, s: seq<byte>, bits: nat, w: nat, h: nat)
    requires bits in {1, 2, 4} && |pal| >= 16 && w > 0 && w * h <= |tile|
    requires goal == PackedRows(pal, s, bits, w, h)
    ensures Rows(goal, tile, pal, s, bits, w, h, 0, 0)
  {
    MulMono(0, h, w);
    Begins(goal);
    assert tile[..0] == [];
  }

  lemma RowInside(goal: Result<seq<Pixel>>, tile: seq<Pixel>, pal: seq<Pixel>, s: seq<byte>, bits: nat,
                  w: nat, h: nat, y: nat, offset: nat)
    requires Rows(goal, tile, pal, s, bits, w, h, y, offset) && y < h
    ensures offset + w <= w * h
  {
    MulMono(y + 1, h, w);
    assert (y + 1) * w == y * w + w;
  }

  lemma NoRow(goal: Result<seq<Pixel>>, tile: seq<Pixel>, pal: seq<Pixel>, s: seq<byte>, bits: nat,
              w: nat, h: nat, y: nat, offset: nat)
    requires Rows(goal, tile, pal, s, bits, w, h, y, offset) && y < h && s == []
    ensures goal.Err?
  {
    RowStarts(w, PerByte(bits));
  }

  lemma RowOf(goal: Result<seq<Pixel>>, before: seq<Pixel>, tile: seq<Pixel>, pal: seq<Pixel>, s: seq<byte>,
              data: seq<byte>, bits: nat, w: nat, h: nat, y: nat, offset: nat, ok: bool)
    requires Rows(goal, before, pal, s, bits, w, h, y, offset) && y < h
    requires RowDone(s, bits, w, pal, before, tile, offset, data, ok)
    ensures if ok then Rows(goal, tile, pal, data, bits, w, h, y + 1, offset + w) else goal.Err?
  {
    RowInside(goal, before, pal, s, bits, w, h, y, offset);
    assert (y + 1) * w == y * w + w;
    hide PackedRow;
    if ok {
      var n := RowBytes(w, bits);
      Extend(before[..offset], PackedRow(pal, s[..n], bits, w), PackedRows(pal, s[n..], bits, w, h - y - 1));
    }
  }

  lemma RowsEnd(goal: Result<seq<Pixel>>, tile: seq<Pixel>, pal: seq<Pixel>, s: seq<byte>, bits: nat,
                w: nat, h: nat, offset: nat)
    requires Rows(goal, tile, pal, s, bits, w, h, h, offset)
    ensures goal == Ok(tile[..w * h], s)
  {
    assert tile[..offset] + [] == tile[..offset];
  }

  lemma LastOfRun(done: seq<Pixel>, q: Pixel, n: nat)
    requires n > 0
    ensures var px := done + Repeat(q, n); px[|px| - 1] == q
  {
  }

  /** What is decoded, followed by what is still to be decoded, is the goal. */
  ghost predicate Continues(goal: Result<seq<Pixel>>, done: seq<Pixel>, later: Result<seq<Pixel>>) {
    match later
    case Err(_) => goal.Err?
    case Ok(px, rest) => goal == Ok(done + px, rest)
  }

  lemma Begins(goal: Result<seq<Pixel>>)
    ensures Continues(goal, [], goal)
  {
    if goal.Ok? {
      assert [] + goal.value == goal.value;
    }
  }

  /** Moving one more run from what is to come to what is done. */
  lemma Extend(done: seq<Pixel>, run: seq<Pixel>, later: Result<seq<Pixel>>)
    ensures later.Ok? ==> done + (run + later.value) == done + run + later.value
  {
  }

  lemma RunStep(goal: Result<seq<Pixel>>, done: seq<Pixel>, s: seq<byte>, left: nat)
    requires left > 0 && Continues(goal, done, PlainRuns(s, left))
    ensures |s| < 3 ==> goal.Err?
    ensures |s| >= 3 ==>
              match RunLength(s[3..])
              case Err(_) => goal.Err?
              case Ok(n, rest) => Continues(goal, done + Repeat(Opaque(s), Least(n, left)), PlainRuns(rest, if n < left then left - n else 0))
  {
    if |s| >= 3 && RunLength(s[3..]).Ok? {
      var n, rest := RunLength(s[3..]).value, RunLength(s[3..]).rest;
      if n < left {
        Extend(done, Repeat(Opaque(s), n), PlainRuns(rest, left - n));
      } else {
        Extend(done, Repeat(Opaque(s), left), PlainRuns(rest, 0));
        assert Repeat(Opaque(s), left) + [] == Repeat(Opaque(s), left);
      }
    }
  }

  lemma RunsEnd(goal: Result<seq<Pixel>>, done: seq<Pixel>, s: seq<byte>)
    requires Continues(goal, done, PlainRuns(s, 0))
    ensures goal == Ok(done, s)
  {
    assert done + [] == done;
  }

  lemma PaletteRunStep(goal: Result<seq<Pixel>>, done: seq<Pixel>, pal: seq<Pixel>, paletteSize: nat, s: seq<byte>, left: nat)
    requires |pal| >= 128 && paletteSize < 128
    requires left > 0 && Continues(goal, done, PaletteRuns(pal, paletteSize, s, left))
    ensures match PaletteEntry(s)
            case Err(_) => goal.Err?
            case Ok((index, n), rest) =>
              if index > paletteSize || n > left then goal.Err?
              else Continues(goal, done + Repeat(pal[index], n), PaletteRuns(pal, paletteSize, rest, left - n))
  {
    match PaletteEntry(s)
    case Err(_) =>
    case Ok((index, n), rest) =>
      if index <= paletteSize && n <= left {
        Extend(done, Repeat(pal[index], n), PaletteRuns(pal, paletteSize, rest, left - n));
      }
  }

  lemma PaletteRunsEnd(goal: Result<seq<Pixel>>, done: seq<Pixel>, pal: seq<Pixel>, paletteSize: nat, s: seq<byte>)
    requires |pal| >= 128 && Continues(goal, done, PaletteRuns(pal, paletteSize, s, 0))
    ensures goal == Ok(done, s)
  {
    assert done + [] == done;
  }
}
