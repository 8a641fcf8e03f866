/** The atomic steps of the resumable rectangle decoders: what each consumes from
    the unread bytes q, what it draws, and the markers it leaves behind. */
module RectSteps {
  import opened Bytes
  import opened Tiles

  datatype Event =
    | FillRect(x: int, y: int, w: int, h: int, color: seq<byte>)
    | BlitImage(x: int, y: int, w: int, h: int, data: seq<byte>)
    | Flip
    | Resize(w: int, h: int)
    | UpdateRequest(w: int, h: int)
    | EnableUpdates(w: int, h: int)
    | Bell
    | Failed                 // the connection is failed
    | Unmodelled             // a message or encoding outside this model

  /** A step either waits for bytes, or takes some and goes on, or finishes the
      rectangle, or stops for good. */
  datatype Step<+S> =
    | Wait
    | Go(state: S, taken: nat, out: seq<Event>)
    | Done(state: S, taken: nat, out: seq<Event>)
    | Stop(why: Event)

  /** An opaque pixel in the byte order of the canvas. */
  function Rgba(color: seq<byte>): (r: seq<byte>)
    requires |color| >= 3
    ensures |r| == 4
  {
    [color[0], color[1], color[2], 255]
  }

  // Raw

  function BytesPerLine(r: Rect, depth8: bool): nat {
    r.w * (if depth8 then 1 else 4)
  }

  /** The two bits of a channel of an 8-bit pixel, stretched to a byte. */
  function Channel(b: byte, c: nat): byte
    requires c < 3
  {
    var bits := if c == 0 then b % 4 else if c == 1 then b / 4 % 4 else b / 16 % 4;
    bits * 255 / 3
  }

  function RowPixels(line: seq<byte>, w: nat, depth8: bool): (r: seq<byte>)
    requires |line| == w * (if depth8 then 1 else 4)
    ensures |r| == 4 * w
  {
    seq(4 * w, k requires 0 <= k < 4 * w =>
      if k % 4 == 3 then 255 else if depth8 then Channel(line[k / 4], k % 4) else line[k])
  }

  function RawStep(lines: nat, r: Rect, depth8: bool, q: seq<byte>): Step<nat>
  {
    if r.w == 0 || r.h == 0 then Done(lines, 0, [])
    else if lines == 0 then Go(r.h, 0, [])
    else
      var n := BytesPerLine(r, depth8);
      if |q| < n then Wait else
      var out := [BlitImage(r.x, r.y + (r.h - lines), r.w, 1, RowPixels(q[..n], r.w, depth8))];
      if lines == 1 then Done(0, n, out) else Go(lines - 1, n, out)
  }

  // RRE

  function RreStep(subrects: nat, r: Rect, q: seq<byte>): Step<nat> {
    if subrects == 0 then
      if |q| < 8 then Wait else
      var n := BigEndian(q[..4]);
      var out := [FillRect(r.x, r.y, r.w, r.h, q[4..8])];
      if n == 0 then Done(0, 8, out) else Go(n, 8, out)
    else if |q| < 12 then Wait else
      var out := [FillRect(r.x + BigEndian(q[4..6]), r.y + BigEndian(q[6..8]),
                           BigEndian(q[8..10]), BigEndian(q[10..12]), q[..4])];
      if subrects == 1 then Done(0, 12, out) else Go(subrects - 1, 12, out)
  }

  // Hextile

  datatype HexState = HexState(
    tiles: nat, tilesX: nat, totalTiles: nat,
    background: Option<seq<byte>>, foreground: Option<seq<byte>>, lastsubencoding: byte)

  const HEX_TILE: nat := 16

  /** Bit number k of a byte. */
  predicate Flag(b: byte, k: nat) {
    if k == 0 then b % 2 == 1 else Flag(b / 2, k - 1)
  }

  function SubrectBytes(n: nat, coloured: bool): nat {
    if coloured then 6 * n else 2 * n
  }

  function RawTileBytes(tile: Rect): nat {
    tile.w * tile.h * 4
  }

  datatype Budget = NeedMore | Illegal | Bytes(n: nat)

  /** The bytes a tile needs, as computed before it is touched. */
  function HexBudget(tile: Rect, q: seq<byte>): Budget {
    if |q| < 1 then NeedMore else
    var sub := q[0];
    if sub > 30 then Illegal
    else if Flag(sub, 0) then Bytes(1 + RawTileBytes(tile))
    else
      var head := 1 + (if Flag(sub, 1) then 4 else 0) + (if Flag(sub, 2) then 4 else 0);
      if !Flag(sub, 3) then Bytes(head)
      else if |q| < head + 1 then NeedMore
      else Bytes(head + 1 + SubrectBytes(q[head], Flag(sub, 4)))
  }

  /** The pixel numbers of a tile of width tw that a subrectangle writes. */
  ghost predicate Hits(p: int, tw: nat, x: nat, y: nat, w: nat, h: nat) {
    exists j: int | y <= j < y + h :: RowHit(p, tw, x, w, j)
  }

  predicate RowHit(p: int, tw: nat, x: nat, w: nat, j: int) {
    x <= p - j * tw < x + w
  }

  ghost function SubTile(data: seq<byte>, tw: nat, x: nat, y: nat, w: nat, h: nat, color: seq<byte>): (r: seq<byte>)
    requires |color| >= 3
    ensures |r| == |data|
  {
    seq(|data|, k requires 0 <= k < |data| =>
      if Hits(k / 4, tw, x, y, w, h) then Rgba(color)[k % 4] else data[k])
  }

  function Solid(pixels: nat, color: seq<byte>): (r: seq<byte>)
    requires |color| >= 3
    ensures |r| == 4 * pixels
  {
    seq(4 * pixels, k requires 0 <= k < 4 * pixels => Rgba(color)[k % 4])
  }

  /** A subrectangle given by its packed position and size. */
  ghost function SubTileAt(data: seq<byte>, tw: nat, xy: byte, wh: byte, color: seq<byte>): (r: seq<byte>)
    requires |color| >= 3
    ensures |r| == |data|
  {
    SubTile(data, tw, xy / 16, xy % 16, wh / 16 + 1, wh % 16 + 1, color)
  }

  /** n subrectangles, read from s and painted in order. */
  ghost function PaintSubrects(data: seq<byte>, tw: nat, n: nat, coloured: bool, fg: Option<seq<byte>>, s: seq<byte>): Option<seq<byte>>
    requires |s| == SubrectBytes(n, coloured)
    requires fg.Some? ==> |fg.value| >= 3
    decreases n
  {
    if n == 0 then Some(data) else
    if !coloured && fg == None then None else
    var color := if coloured then s[..4] else fg.value;
    var t := if coloured then s[4..] else s;
    PaintSubrects(SubTileAt(data, tw, t[0], t[1], color), tw, n - 1, coloured, fg, t[2..])
  }

  predicate ColorOk(c: Option<seq<byte>>) {
    c.Some? ==> |c.value| == 4
  }

  predicate HexOk(hs: HexState) {
    ColorOk(hs.background) && ColorOk(hs.foreground)
  }

  /** A tile of nothing but the carried-over background; after a raw tile it is
      ignored. */
  function HexBlank(hs: HexState, tile: Rect): Option<(HexState, seq<Event>)> {
    var next := hs.(lastsubencoding := 0);
    if Flag(hs.lastsubencoding, 0) then Some((next, []))
    else if hs.background == None then None
    else Some((next, [FillRect(tile.x, tile.y, tile.w, tile.h, hs.background.value)]))
  }

  /** The rest of a coloured tile's bytes: subrectangles, if there are any. */
  predicate OverlayBytes(sub: byte, s: seq<byte>) {
    if Flag(sub, 3) then |s| >= 1 && |s| == 1 + SubrectBytes(s[0], Flag(sub, 4)) else s == []
  }

  ghost function HexOverlay(tile: Rect, sub: byte, bg: seq<byte>, fg: Option<seq<byte>>, s: seq<byte>): Option<seq<byte>>
    requires OverlayBytes(sub, s) && |bg| >= 3 && ColorOk(fg)
  {
    var start := Solid(tile.w * tile.h, bg);
    if Flag(sub, 3) then PaintSubrects(start, tile.w, s[0], Flag(sub, 4), fg, s[1..]) else Some(start)
  }

  /** A background, new or carried over, with subrectangles painted over it. */
  ghost function HexColoured(hs: HexState, tile: Rect, s: seq<byte>): (r: Option<(HexState, seq<Event>)>)
    requires HexOk(hs) && HexBudget(tile, s) == Bytes(|s|) && !Flag(s[0], 0)
  {
    var sub := s[0];
    var bg := if Flag(sub, 1) then Some(s[1..5]) else hs.background;
    var at := if Flag(sub, 1) then 5 else 1;
    var fg := if Flag(sub, 2) then Some(s[at..at + 4]) else hs.foreground;
    var at' := if Flag(sub, 2) then at + 4 else at;
    if bg == None then None else
    var painted := HexOverlay(tile, sub, bg.value, fg, s[at'..]);
    if painted == None then None else
    Some((hs.(background := bg, foreground := fg, lastsubencoding := sub),
          [BlitImage(tile.x, tile.y, tile.w, tile.h, painted.value)]))
  }

  /** What a tile does once all of its n bytes are there. */
  ghost function HexPaint(hs: HexState, tile: Rect, s: seq<byte>): (r: Option<(HexState, seq<Event>)>)
    requires HexOk(hs) && HexBudget(tile, s) == Bytes(|s|)
    ensures r.Some? ==> HexOk(r.value.0)
    ensures r.Some? ==> r.value.0.tiles == hs.tiles && r.value.0.tilesX == hs.tilesX && r.value.0.totalTiles == hs.totalTiles
  {
    if s[0] == 0 then HexBlank(hs, tile)
    else if Flag(s[0], 0) then
      Some((hs.(lastsubencoding := s[0]),
            [BlitImage(tile.x, tile.y, tile.w, tile.h, RowPixels(s[1..], tile.w * tile.h, false))]))
    else HexColoured(hs, tile, s)
  }

  ghost predicate HexActive(hs: HexState, r: Rect) {
    hs.tiles > 0 ==> hs.tilesX == CeilDiv(r.w, HEX_TILE) && hs.totalTiles == TileCount(r, HEX_TILE) && hs.tiles <= hs.totalTiles
  }

  ghost function HexStep(hs: HexState, r: Rect, q: seq<byte>): Step<HexState>
    requires HexOk(hs) && HexActive(hs, r)
  {
    if hs.tiles == 0 then
      var tilesX := CeilDiv(r.w, HEX_TILE);
      var total := TileCount(r, HEX_TILE);
      var next := hs.(tilesX := tilesX, totalTiles := total, tiles := total);
      if total == 0 then Done(next, 0, []) else Go(next, 0, [])
    else
      var tile := TileRect(r, HEX_TILE, hs.totalTiles - hs.tiles);
      match HexBudget(tile, q)
      case NeedMore => Wait
      case Illegal => Stop(Failed)
      case Bytes(n) =>
        if |q| < n then Wait else
        BudgetOfPrefix(tile, q);
        match HexPaint(hs, tile, q[..n])
        case None => Stop(Failed)
        case Some((hs', out)) =>
          var next := hs'.(tiles := hs.tiles - 1);
          if hs.tiles == 1 then Done(next, n, out) else Go(next, n, out)
  }

  /** The budget of a whole tile is the budget of its own bytes. */
  lemma BudgetOfPrefix(tile: Rect, q: seq<byte>)
    requires HexBudget(tile, q).Bytes? && HexBudget(tile, q).n <= |q|
    ensures HexBudget(tile, q[..HexBudget(tile, q).n]) == HexBudget(tile, q)
  {
  }
}
