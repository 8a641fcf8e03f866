/** The resumable Hextile decoder (section 7.7.4 of RFC 6143). */
module Hextile {
  import opened Bytes
  import opened ReceiveQueue
  import opened Tiles
  import opened RectSteps
  import opened UpdateLoop
  import opened RunFollowing

  /** The tiles still to come; none means the rectangle is complete. */
  ghost predicate HexAt(c: Conn, q0: seq<byte>, out: seq<Event>, r: Rect, hs: HexState, q: seq<byte>) {
    var d := c.(hex := hs);
    c.header == Some(RectHeader(r, ENCODING_HEXTILE)) && HexOk(hs) && HexActive(hs, r) &&
    if hs.tiles > 0 then Reaches(c, q0, out, d, q) else Completes(c, q0, out, d, q)
  }

  function Started(hs: HexState, r: Rect): HexState {
    var total := TileCount(r, HEX_TILE);
    if hs.tiles > 0 then hs else hs.(tilesX := CeilDiv(r.w, HEX_TILE), totalTiles := total, tiles := total)
  }

  lemma HexStepIs(d: Conn, r: Rect, q: seq<byte>)
    requires ConnOk(d) && d.header == Some(RectHeader(r, ENCODING_HEXTILE))
    ensures ConnStep(d, q) == HexRect(d, r, q)
  {
  }

  lemma HexBegin(c: Conn, r: Rect, q: seq<byte>)
    requires ConnOk(c) && c.header == Some(RectHeader(r, ENCODING_HEXTILE))
    ensures HexAt(c, q, [], r, Started(c.hex, r), q)
  {
    ReachesItself(c, q);
    if c.hex.tiles == 0 {
      HexStepIs(c, r, q);
      var hs := Started(c.hex, r);
      assert q[0..] == q;
      var none: seq<Event> := [];
      assert none + none == none;
      if hs.tiles == 0 {
        ReachFinish(c, q, [], c, q, c.(hex := hs), 0, []);
      } else {
        ReachStep(c, q, [], c, q, Go(c.(hex := hs), 0, []));
      }
    }
  }

  function CurrentTile(hs: HexState, r: Rect): Rect
    requires hs.tiles > 0 && hs.tilesX == CeilDiv(r.w, HEX_TILE) && hs.totalTiles == TileCount(r, HEX_TILE) && hs.tiles <= hs.totalTiles
  {
    TileRect(r, HEX_TILE, hs.totalTiles - hs.tiles)
  }

  /** Whether the tile can be decoded now; if so, what follows. */
  lemma HexNext(c: Conn, q0: seq<byte>, out: seq<Event>, r: Rect, hs: HexState, q: seq<byte>)
    requires HexAt(c, q0, out, r, hs, q) && hs.tiles > 0
    ensures HexBudget(CurrentTile(hs, r), q) == NeedMore ==> Blocks(c, q0, out, c.(hex := hs), q)
    ensures HexBudget(CurrentTile(hs, r), q) == Illegal ==> Fails(c, q0, out + [Failed])
  {
    HexStepIs(c.(hex := hs), r, q);
    match HexBudget(CurrentTile(hs, r), q)
    case NeedMore => ReachWait(c, q0, out, c.(hex := hs), q);
    case Illegal => ReachStop(c, q0, out, c.(hex := hs), q, Failed);
    case Bytes(n) =>
  }

  lemma HexNextTile(c: Conn, q0: seq<byte>, out: seq<Event>, r: Rect, hs: HexState, q: seq<byte>, n: nat)
    requires HexAt(c, q0, out, r, hs, q) && hs.tiles > 0
    requires HexBudget(CurrentTile(hs, r), q) == Bytes(n)
    ensures |q| < n ==> Blocks(c, q0, out, c.(hex := hs), q)
    ensures |q| >= n ==> HexBudget(CurrentTile(hs, r), q[..n]) == Bytes(n)
    ensures |q| >= n ==>
              match HexPaint(hs, CurrentTile(hs, r), q[..n])
              case None => Fails(c, q0, out + [Failed])
              case Some((hs', o)) => HexAt(c, q0, out + o, r, hs'.(tiles := hs.tiles - 1), q[n..])
  {
    var d, tile := c.(hex := hs), CurrentTile(hs, r);
    HexStepIs(d, r, q);
    if |q| < n {
      ReachWait(c, q0, out, d, q);
    } else {
      BudgetOfPrefix(tile, q);
      match HexPaint(hs, tile, q[..n])
      case None => ReachStop(c, q0, out, d, q, Failed);
      case Some((hs', o)) =>
        var d' := c.(hex := hs'.(tiles := hs.tiles - 1));
        if hs.tiles == 1 {
          ReachFinish(c, q0, out, d, q, d', n, o);
        } else {
          ReachStep(c, q0, out, d, q, Go(d', n, o));
        }
    }
  }

  lemma HexEnd(c: Conn, q0: seq<byte>, out: seq<Event>, r: Rect, hs: HexState, q: seq<byte>)
    requires HexAt(c, q0, out, r, hs, q) && hs.tiles == 0
    ensures Completes(c, q0, out, c.(hex := hs), q)
  {
  }

  lemma HitsStep(p: int, tw: nat, x: nat, y: nat, w: nat, h: nat)
    ensures Hits(p, tw, x, y, w, h + 1) <==> Hits(p, tw, x, y, w, h) || RowHit(p, tw, x, w, y + h)
    ensures !Hits(p, tw, x, y, w, 0)
  {
    if RowHit(p, tw, x, w, y + h) {
      assert Hits(p, tw, x, y, w, h + 1);
    }
  }

  datatype Status = Complete | NeedBytes | Threw

  const TILE_BYTES: nat := 16 * 16 * 4

  class HextileDecoder {
    var tiles: nat
    var tilesX: nat
    var totalTiles: nat
    var background: Option<seq<byte>>
    var foreground: Option<seq<byte>>
    var lastsubencoding: byte
    const tileBuffer: array<byte>
    var tileX: nat
    var tileY: nat
    var tileW: nat
    var tileH: nat

    function State(): HexState
      reads this
    {
      HexState(tiles, tilesX, totalTiles, background, foreground, lastsubencoding)
    }

    ghost predicate Valid()
      reads this
    {
      tileBuffer.Length == TILE_BYTES && HexOk(State())
    }

    /** The pixels of the tile being built. */
    ghost function Pixels(): seq<byte>
      requires tileW <= 16 && tileH <= 16 && tileBuffer.Length == TILE_BYTES
      reads this, tileBuffer
    {
      TileFits(tileW, tileH);
      tileBuffer[..4 * (tileW * tileH)]
    }

    constructor ()
      ensures Valid() && fresh(tileBuffer)
      ensures State() == HexState(0, 0, 0, None, None, 0)
    {
      tiles, tilesX, totalTiles, lastsubencoding := 0, 0, 0, 0;
      background, foreground := None, None;
      tileBuffer := new byte[TILE_BYTES](_ => 0);
      tileX, tileY, tileW, tileH := 0, 0, 0, 0;
    }

    method StartTile(x: nat, y: nat, width: nat, height: nat, color: seq<byte>)
      requires tileBuffer.Length == TILE_BYTES && width <= 16 && height <= 16 && |color| >= 3
      modifies `tileX, `tileY, `tileW, `tileH, tileBuffer
      ensures tileX == x && tileY == y && tileW == width && tileH == height
      ensures Pixels() == Solid(width * height, color)
    {
      tileX, tileY, tileW, tileH := x, y, width, height;
      TileFits(width, height);
      var area := width * height;
      for p := 0 to area
        invariant tileX == x && tileY == y && tileW == width && tileH == height
        invariant forall k | 0 <= k < 4 * p :: tileBuffer[k] == Rgba(color)[k % 4]
      {
        PutPixel(p, color);
      }
    }

    /** Four bytes of the tile buffer; a write beyond its end has no effect. */
    method PutPixel(p: nat, color: seq<byte>)
      requires tileBuffer.Length == TILE_BYTES && |color| >= 3
      modifies tileBuffer
      ensures forall k | 0 <= k < TILE_BYTES ::
                tileBuffer[k] == if k / 4 == p then Rgba(color)[k % 4] else old(tileBuffer[k])
    {
      if p < 256 {
        tileBuffer[p * 4] := color[0];
        tileBuffer[p * 4 + 1] := color[1];
        tileBuffer[p * 4 + 2] := color[2];
        tileBuffer[p * 4 + 3] := 255;
      }
    }

    method SubTile(x: nat, y: nat, w: nat, h: nat, color: seq<byte>)
      requires tileBuffer.Length == TILE_BYTES && tileW <= 16 && tileH <= 16 && |color| >= 3
      modifies tileBuffer
      ensures Pixels() == RectSteps.SubTile(old(Pixels()), tileW, x, y, w, h, color)
    {
      hide RowHit, Hits;
      var yend := y + h;
      ghost var before := tileBuffer[..];
      var j := y;
      forall p {
        HitsStep(p, tileW, x, y, w, 0);
      }
      while j < yend
        invariant y <= j <= yend
        invariant forall k | 0 <= k < TILE_BYTES ::
                    tileBuffer[k] == if Hits(k / 4, tileW, x, y, w, j - y) then Rgba(color)[k % 4] else before[k]
      {
        SubRow(x, w, j, color);
        forall p {
          HitsStep(p, tileW, x, y, w, j - y);
        }
        j := j + 1;
      }
      TileFits(tileW, tileH);
    }

    method SubRow(x: nat, w: nat, j: nat, color: seq<byte>)
      requires tileBuffer.Length == TILE_BYTES && |color| >= 3
      modifies tileBuffer
      ensures forall k | 0 <= k < TILE_BYTES ::
                tileBuffer[k] == if RowHit(k / 4, tileW, x, w, j) then Rgba(color)[k % 4] else old(tileBuffer[k])
    {
      ghost var before := tileBuffer[..];
      var base := j * tileW;
      for i := x to x + w
        invariant forall k | 0 <= k < TILE_BYTES ::
                    tileBuffer[k] == if x <= k / 4 - base < i then Rgba(color)[k % 4] else before[k]
      {
        PutPixel(i + base, color);
      }
    }

    method FinishTile(display: EventLog)
      requires tileBuffer.Length == TILE_BYTES && tileW <= 16 && tileH <= 16
      modifies display
      ensures display.events == old(display.events) + [BlitImage(tileX, tileY, tileW, tileH, Pixels())]
    {
      TileFits(tileW, tileH);
      display.Add(BlitImage(tileX, tileY, tileW, tileH, tileBuffer[..4 * (tileW * tileH)]));
    }

    /** The bytes the tile needs, peeked at without taking any. */
    method ExpectedBytes(tile: Rect, sock: ReceiveBuffer) returns (b: Budget)
      requires sock.Valid()
      modifies sock`rQi, sock`consumed, sock`unread
      ensures sock.Valid() && sock.Queue() == old(sock.Queue())
      ensures b == HexBudget(tile, sock.unread)
    {
      hide Flag, RawTileBytes, SubrectBytes;
      var wait := sock.Wait(1, 0);
      if wait == Some(true) {
        return NeedMore;
      }
      var subencoding := sock.Peek8();
      if subencoding > 30 {
        return Illegal;
      }
      var bytes: nat := 1;
      if Flag(subencoding, 0) {
        bytes := bytes + RawTileBytes(tile);
      } else {
        if Flag(subencoding, 1) {
          bytes := bytes + 4;
        }
        if Flag(subencoding, 2) {
          bytes := bytes + 4;
        }
        if Flag(subencoding, 3) {
          bytes := bytes + 1;
          wait := sock.Wait(bytes, 0);
          if wait == Some(true) {
            return NeedMore;
          }
          var peeked := sock.PeekBytes(bytes);
          var subrects := peeked[|peeked| - 1];
          bytes := bytes + SubrectBytes(subrects, Flag(subencoding, 4));
        }
      }
      return Bytes(bytes);
    }

    /** All subrectangles of the tile, in the order they arrive. */
    method Subrects(n: nat, coloured: bool, sock: ReceiveBuffer, ghost s: seq<byte>, ghost later: seq<byte>) returns (ok: bool)
      requires Valid() && tileW <= 16 && tileH <= 16 && tileBuffer != sock.rQ
      requires sock.Valid() && |s| == SubrectBytes(n, coloured) && sock.unread == s + later
      modifies tileBuffer, sock`rQi, sock`consumed, sock`unread
      ensures |sock.unread| <= |old(sock.unread)|
      ensures sock.Valid()
      ensures match PaintSubrects(old(Pixels()), tileW, n, coloured, foreground, s)
              case None => !ok
              case Some(data) => ok && Pixels() == data && sock.unread == later
    {
      assert foreground.Some? ==> |foreground.value| == 4;
      hide RectSteps.SubTile, SubTileAt, Pixels, HexOk, ReceiveBuffer.Valid;
      ghost var goal := PaintSubrects(Pixels(), tileW, n, coloured, foreground, s);
      ghost var rest := s;
      var left := n;
      while left > 0
        invariant sock.Valid() && |rest| == SubrectBytes(left, coloured) && sock.unread == rest + later
        invariant |rest| <= |s|
        invariant PaintSubrects(Pixels(), tileW, left, coloured, foreground, rest) == goal
        decreases left
      {
        if !coloured && foreground == None {
          return false;
        }
        OneSubrect(coloured, sock, rest, later);
        rest := if coloured then rest[4..][2..] else rest[2..];
        left := left - 1;
      }
      assert rest + later == later;
      return true;
    }

    method OneSubrect(coloured: bool, sock: ReceiveBuffer, ghost s: seq<byte>, ghost later: seq<byte>)
      requires Valid() && tileW <= 16 && tileH <= 16 && tileBuffer != sock.rQ
      requires sock.Valid() && sock.unread == s + later && |s| >= if coloured then 6 else 2
      requires coloured || foreground.Some?
      modifies tileBuffer, sock`rQi, sock`consumed, sock`unread
      ensures |sock.unread| <= |old(sock.unread)|
      ensures sock.Valid()
      ensures var color := if coloured then s[..4] else foreground.value;
              var t := if coloured then s[4..] else s;
              Pixels() == SubTileAt(old(Pixels()), tileW, t[0], t[1], color) && sock.unread == t[2..] + later
    {
      hide Pixels, RectSteps.SubTile, HexOk, ReceiveBuffer.Valid;
      var color := SubrectColor(coloured, sock, s, later);
      ghost var t := if coloured then s[4..] else s;
      var xy, wh := PackedRect(sock, t, later);
      SubTile(xy / 16, xy % 16, wh / 16 + 1, wh % 16 + 1, color);
    }

    method SubrectColor(coloured: bool, sock: ReceiveBuffer, ghost s: seq<byte>, ghost later: seq<byte>) returns (color: seq<byte>)
      requires HexOk(State()) && sock.Valid() && sock.unread == s + later && |s| >= if coloured then 6 else 2
      requires coloured || foreground.Some?
      modifies sock`rQi, sock`consumed, sock`unread
      ensures sock.Valid() && |color| == 4
      ensures color == if coloured then s[..4] else foreground.value
      ensures sock.unread == (if coloured then s[4..] else s) + later
    {
      if coloured {
        color := sock.ShiftBytes(4);
        assert (s + later)[..4] == s[..4] && (s + later)[4..] == s[4..] + later;
      } else {
        color := foreground.value;
      }
    }

    method PackedRect(sock: ReceiveBuffer, ghost t: seq<byte>, ghost later: seq<byte>) returns (xy: byte, wh: byte)
      requires sock.Valid() && |t| >= 2 && sock.unread == t + later
      modifies sock`rQi, sock`consumed, sock`unread
      ensures sock.Valid() && sock.unread == t[2..] + later
      ensures xy == t[0] && wh == t[1]
    {
      xy := Byte(sock);
      assert (t + later)[1..] == t[1..] + later;
      wh := Byte(sock);
      assert (t[1..] + later)[1..] == t[2..] + later;
    }

    method Byte(sock: ReceiveBuffer) returns (b: byte)
      requires sock.Valid() && |sock.unread| >= 1
      modifies sock`rQi, sock`consumed, sock`unread
      ensures sock.Valid() && b == old(sock.unread)[0] && sock.unread == old(sock.unread)[1..]
    {
      var v := sock.Shift(1);
      assert old(sock.unread)[..1] == [old(sock.unread)[0]];
      BigEndian1(old(sock.unread)[0]);
      b := v;
    }

    /** Takes the whole tile's bytes s and draws it; the tile count is unchanged. */
    method PaintTile(tile: Rect, sock: ReceiveBuffer, display: EventLog, ghost s: seq<byte>, ghost later: seq<byte>)
        returns (ok: bool, ghost out: seq<Event>)
      requires Valid() && tileBuffer != sock.rQ && tile.w <= 16 && tile.h <= 16
      requires sock.Valid() && HexBudget(tile, s) == Bytes(|s|) && sock.unread == s + later
      modifies this, tileBuffer, sock`rQi, sock`consumed, sock`unread, display
      ensures |sock.unread| <= |old(sock.unread)|
      ensures Valid() && sock.Valid() && display.events == old(display.events) + out
      ensures match HexPaint(old(State()), tile, s)
              case None => !ok && out == []
              case Some((hs, o)) => ok && State() == hs && out == o && sock.unread == later
    {
      hide HexColoured, RowPixels, Flag;
      out := [];
      var sub := Byte(sock);
      assert (s + later)[1..] == s[1..] + later;
      if sub == 0 {
        ok := BlankTile(tile, display);
        if ok && !Flag(old(lastsubencoding), 0) {
          out := [FillRect(tile.x, tile.y, tile.w, tile.h, background.value)];
        }
        BlankBudget(tile, s);
        assert s[1..] + later == later;
      } else if Flag(sub, 0) {
        RawBudget(tile, s);
        RawTile(tile, sock, display, s[1..], later);
        lastsubencoding := sub;
        ok, out := true, [BlitImage(tile.x, tile.y, tile.w, tile.h, RowPixels(s[1..], tile.w * tile.h, false))];
      } else {
        ok, out := ColouredTile(tile, sub, sock, display, s, later);
      }
    }

    method BlankTile(tile: Rect, display: EventLog) returns (ok: bool)
      requires Valid()
      modifies `lastsubencoding, display
      ensures match HexBlank(old(State()), tile)
              case None => !ok && display.events == old(display.events)
              case Some((hs, o)) => ok && State() == hs && display.events == old(display.events) + o
    {
      hide Flag;
      if Flag(lastsubencoding, 0) {
        // "blank" after a raw tile: nothing is drawn
      } else if background == None {
        return false;
      } else {
        display.Add(FillRect(tile.x, tile.y, tile.w, tile.h, background.value));
      }
      lastsubencoding := 0;
      return true;
    }

    method RawTile(tile: Rect, sock: ReceiveBuffer, display: EventLog, ghost s: seq<byte>, ghost later: seq<byte>)
      requires sock.Valid() && |s| == tile.w * tile.h * 4 && sock.unread == s + later
      modifies sock`rQi, sock`consumed, sock`unread, display
      ensures |sock.unread| <= |old(sock.unread)|
      ensures sock.Valid() && sock.unread == later
      ensures display.events == old(display.events)
                                + [BlitImage(tile.x, tile.y, tile.w, tile.h, RowPixels(s, tile.w * tile.h, false))]
    {
      var pixels := tile.w * tile.h;
      var bytes := sock.ShiftBytes(pixels * 4);
      assert bytes == s;
      var data := new byte[pixels * 4](k requires 0 <= k < |bytes| => bytes[k]);
      assert data[..] == bytes;
      MakeOpaque(data, pixels);
      display.Add(BlitImage(tile.x, tile.y, tile.w, tile.h, data[..]));
    }

    method ColouredTile(tile: Rect, sub: byte, sock: ReceiveBuffer, display: EventLog, ghost s: seq<byte>, ghost later: seq<byte>)
        returns (ok: bool, ghost out: seq<Event>)
      requires Valid() && tileBuffer != sock.rQ && tile.w <= 16 && tile.h <= 16
      requires sock.Valid() && HexBudget(tile, s) == Bytes(|s|) && !Flag(s[0], 0) && sub == s[0]
      requires sock.unread == s[1..] + later
      modifies this, tileBuffer, sock`rQi, sock`consumed, sock`unread, display
      ensures |sock.unread| <= |old(sock.unread)|
      ensures Valid() && sock.Valid() && display.events == old(display.events) + out
      ensures match HexColoured(old(State()), tile, s)
              case None => !ok && out == []
              case Some((hs, o)) => ok && State() == hs && out == o && sock.unread == later
    {
      hide Flag, HexOverlay, OverlayBytes;
      out := [];
      ghost var at := Colours(sub, tile, sock, s, later);
      ColouredBudget(tile, s, at);
      if background == None {
        return false, [];
      }
      var painted: bool;
      painted, out := Overlay(tile, sub, background.value, sock, display, s[at..], later);
      if !painted {
        return false, [];
      }
      lastsubencoding := sub;
      return true, out;
    }

    method Overlay(tile: Rect, sub: byte, bg: seq<byte>, sock: ReceiveBuffer, display: EventLog, ghost s: seq<byte>, ghost later: seq<byte>)
        returns (ok: bool, ghost out: seq<Event>)
      requires Valid() && tileBuffer != sock.rQ && tile.w <= 16 && tile.h <= 16 && |bg| >= 3
      requires sock.Valid() && OverlayBytes(sub, s) && sock.unread == s + later
      modifies `tileX, `tileY, `tileW, `tileH, tileBuffer, sock`rQi, sock`consumed, sock`unread, display
      ensures |sock.unread| <= |old(sock.unread)|
      ensures Valid() && sock.Valid() && display.events == old(display.events) + out
      ensures match HexOverlay(tile, sub, bg, foreground, s)
              case None => !ok && out == []
              case Some(data) => ok && out == [BlitImage(tile.x, tile.y, tile.w, tile.h, data)] && sock.unread == later
    {
      hide Flag, Pixels;
      StartTile(tile.x, tile.y, tile.w, tile.h, bg);
      if Flag(sub, 3) {
        var subrects := Byte(sock);
        assert (s + later)[1..] == s[1..] + later;
        ok := Subrects(subrects, Flag(sub, 4), sock, s[1..], later);
        if !ok {
          return false, [];
        }
      } else {
        assert s + later == later;
      }
      FinishTile(display);
      return true, [BlitImage(tile.x, tile.y, tile.w, tile.h, Pixels())];
    }

    /** Takes the colours the tile specifies; the others carry over. */
    method Colours(sub: byte, tile: Rect, sock: ReceiveBuffer, ghost s: seq<byte>, ghost later: seq<byte>) returns (ghost at: nat)
      requires Valid() && sock.Valid() && HexBudget(tile, s) == Bytes(|s|) && !Flag(s[0], 0) && sub == s[0]
      requires sock.unread == s[1..] + later
      modifies `background, `foreground, sock`rQi, sock`consumed, sock`unread
      ensures |sock.unread| <= |old(sock.unread)|
      ensures Valid() && sock.Valid()
      ensures var mid := if Flag(sub, 1) then 5 else 1;
              && at == (if Flag(sub, 2) then mid + 4 else mid) <= |s|
              && sock.unread == s[at..] + later
              && background == (if Flag(sub, 1) then Some(s[1..5]) else old(background))
              && foreground == (if Flag(sub, 2) then Some(s[mid..mid + 4]) else old(foreground))
    {
      ColouredBudget(tile, s, if Flag(sub, 1) then if Flag(sub, 2) then 9 else 5 else if Flag(sub, 2) then 5 else 1);
      hide Flag, HexBudget, OverlayBytes;
      at := 1;
      if Flag(sub, 1) {
        var color := TakeColour(sock, s, later, 1);
        background := Some(color);
        at := 5;
      }
      if Flag(sub, 2) {
        var color := TakeColour(sock, s, later, at);
        foreground := Some(color);
        at := at + 4;
      }
    }

    method TakeColour(sock: ReceiveBuffer, ghost s: seq<byte>, ghost later: seq<byte>, ghost at: nat) returns (color: seq<byte>)
      requires sock.Valid() && at + 4 <= |s| && sock.unread == s[at..] + later
      modifies sock`rQi, sock`consumed, sock`unread
      ensures sock.Valid() && sock.unread == s[at + 4..] + later
      ensures color == s[at..at + 4]
    {
      color := sock.ShiftBytes(4);
      assert (s[at..] + later)[..4] == s[at..at + 4];
      assert (s[at..] + later)[4..] == s[at + 4..] + later;
    }

    method DecodeTile(r: Rect, sock: ReceiveBuffer, display: EventLog,
                      ghost c: Conn, ghost q0: seq<byte>, ghost out: seq<Event>)
        returns (status: Status, ghost o: seq<Event>)
      requires Valid() && sock.Valid() && tileBuffer != sock.rQ
      requires tiles > 0 && HexAt(c, q0, out, r, State(), sock.unread)
      modifies this, tileBuffer, sock`rQi, sock`consumed, sock`unread, display
      ensures |sock.unread| <= |old(sock.unread)|
      ensures Valid() && sock.Valid() && display.events == old(display.events) + o
      ensures status == Complete ==> HexAt(c, q0, out + o, r, State(), sock.unread) && tiles == old(tiles) - 1
      ensures status == NeedBytes ==> o == [] && Blocks(c, q0, out, c.(hex := State()), sock.unread)
      ensures status == Threw ==> o == [] && Fails(c, q0, out + [Failed])
    {
      hide Blocks, Fails, HexPaint, HexBudget, TileRect, Reaches, Completes;
      o := [];
      ghost var hs, q := State(), sock.unread;
      var currTile := totalTiles - tiles;
      var tile := TileRect(r, HEX_TILE, currTile);
      HexNext(c, q0, out, r, hs, q);
      var b := ExpectedBytes(tile, sock);
      match b
      case NeedMore =>
        return NeedBytes, [];
      case Illegal =>
        return Threw, [];
      case Bytes(n) =>
        status, o := TakeTile(r, tile, n, sock, display, c, q0, out);
    }

    /** The next tile, of n bytes, if they are there. */
    method TakeTile(r: Rect, tile: Rect, n: nat, sock: ReceiveBuffer, display: EventLog,
                    ghost c: Conn, ghost q0: seq<byte>, ghost out: seq<Event>)
        returns (status: Status, ghost o: seq<Event>)
      requires Valid() && sock.Valid() && tileBuffer != sock.rQ
      requires tiles > 0 && HexAt(c, q0, out, r, State(), sock.unread)
      requires tile == CurrentTile(State(), r) && tile.w <= 16 && tile.h <= 16 && HexBudget(tile, sock.unread) == Bytes(n)
      modifies this, tileBuffer, sock`rQi, sock`consumed, sock`unread, display
      ensures |sock.unread| <= |old(sock.unread)|
      ensures Valid() && sock.Valid() && display.events == old(display.events) + o
      ensures status == Complete ==> HexAt(c, q0, out + o, r, State(), sock.unread) && tiles == old(tiles) - 1
      ensures status == NeedBytes ==> o == [] && Blocks(c, q0, out, c.(hex := State()), sock.unread)
      ensures status == Threw ==> o == [] && Fails(c, q0, out + [Failed])
    {
      hide HexAt, Blocks, Fails, HexPaint, HexBudget, CurrentTile;
      ghost var hs, q := State(), sock.unread;
      HexNextTile(c, q0, out, r, hs, q, n);
      var wait := sock.Wait(n, 0);
      if wait == Some(true) {
        return NeedBytes, [];
      }
      assert q == q[..n] + q[n..];
      var ok;
      ok, o := PaintTile(tile, sock, display, q[..n], q[n..]);
      if !ok {
        return Threw, [];
      }
      tiles := tiles - 1;
      return Complete, o;
    }

    method DecodeRect(r: Rect, sock: ReceiveBuffer, display: EventLog, ghost c: Conn)
        returns (status: Status, ghost out: seq<Event>)
      requires Valid() && sock.Valid() && tileBuffer != sock.rQ
      requires ConnOk(c) && c.header == Some(RectHeader(r, ENCODING_HEXTILE)) && c.hex == State()
      modifies this, tileBuffer, sock`rQi, sock`consumed, sock`unread, display
      ensures |sock.unread| <= |old(sock.unread)|
      ensures Valid() && sock.Valid() && display.events == old(display.events) + out
      ensures status == Complete ==> Completes(c, old(sock.unread), out, c.(hex := State()), sock.unread)
      ensures status == NeedBytes ==> Blocks(c, old(sock.unread), out, c.(hex := State()), sock.unread)
      ensures status == Threw ==> Fails(c, old(sock.unread), out + [Failed])
    {
      hide HexAt, Blocks, Fails, Completes, ConnOk;
      ghost var q0 := sock.unread;
      out := [];
      HexBegin(c, r, q0);
      if tiles == 0 {
        tilesX := CeilDiv(r.w, HEX_TILE);
        totalTiles := tilesX * CeilDiv(r.h, HEX_TILE);
        tiles := totalTiles;
      }
      while tiles > 0
        invariant Valid() && sock.Valid() && display.events == old(display.events) + out
        invariant |sock.unread| <= |old(sock.unread)|
        invariant HexAt(c, q0, out, r, State(), sock.unread)
        decreases tiles
      {
        ghost var o;
        status, o := DecodeTile(r, sock, display, c, q0, out);
        if status != Complete {
          return status, out;
        }
        out := out + o;
      }
      HexEnd(c, q0, out, r, State(), sock.unread);
      return Complete, out;
    }
  }

  lemma ColouredBudget(tile: Rect, s: seq<byte>, at: nat)
    requires HexBudget(tile, s) == Bytes(|s|) && !Flag(s[0], 0)
    requires at == (if Flag(s[0], 1) then if Flag(s[0], 2) then 9 else 5 else if Flag(s[0], 2) then 5 else 1)
    ensures at <= |s| && OverlayBytes(s[0], s[at..])
  {
  }

  lemma BlankBudget(tile: Rect, s: seq<byte>)
    requires HexBudget(tile, s) == Bytes(|s|) && s[0] == 0
    ensures |s| == 1 && !Flag(s[0], 0)
  {
    assert !Flag(0, 0) && !Flag(0, 1) && !Flag(0, 2) && !Flag(0, 3) by {
      assert !Flag(0, 2) by { assert !Flag(0, 1) by { assert !Flag(0, 0); } }
    }
  }

  lemma RawBudget(tile: Rect, s: seq<byte>)
    requires HexBudget(tile, s) == Bytes(|s|) && Flag(s[0], 0)
    ensures |s| == 1 + tile.w * tile.h * 4
  {
  }

  lemma TileFits(w: nat, h: nat)
    requires w <= 16 && h <= 16
    ensures 4 * (w * h) <= TILE_BYTES
  {
    MulMono(w, 16, h);
  }
}
