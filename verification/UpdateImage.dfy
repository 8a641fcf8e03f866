/** Framebuffer updates as a server prints them (section 7.6.1 of RFC 6143): what the
    client draws for each of their rectangles, and where. */
module UpdateImage {
  import opened Bytes
  import opened Tiles
  import opened RectSteps
  import opened Painting
  import opened UpdateLoop
  import opened RunFollowing
  import H = HextileImage

  // Headers

  ghost predicate Printable(at: Rect) {
    at.x < TWO_16 && at.y < TWO_16 && at.w < TWO_16 && at.h < TWO_16
  }

  function Header(at: Rect, encoding: int): (s: seq<byte>)
    ensures |s| == 12
  {
    U16(at.x) + U16(at.y) + U16(at.w) + U16(at.h) + U32(encoding)
  }

  /** A header is read back as the rectangle and the encoding it was printed for. */
  lemma HeaderIsRead(at: Rect, encoding: int, rest: seq<byte>)
    requires Printable(at) && -TWO_31 <= encoding < TWO_31
    ensures HeaderAt(Header(at, encoding) + rest) == RectHeader(at, encoding)
    ensures (Header(at, encoding) + rest)[12..] == rest
  {
    hide U16, U32, BigEndian;
    var q := Header(at, encoding) + rest;
    assert q[0..2] == U16(at.x) && q[2..4] == U16(at.y) && q[4..6] == U16(at.w) && q[6..8] == U16(at.h);
    assert q[8..12] == U32(encoding);
    BigEndianInverts(at.x);
    BigEndianInverts(at.y);
    BigEndianInverts(at.w);
    BigEndianInverts(at.h);
    BigEndianInverts(encoding);
    Wraps(encoding);
  }

  lemma Wraps(n: int)
    requires -TWO_31 <= n < TWO_31
    ensures n % TWO_32 == if n < 0 then n + TWO_32 else n
  {
    DivModUnique(n, TWO_32, if n < 0 then -1 else 0, if n < 0 then n + TWO_32 else n);
  }

  // Rectangles and what they show

  /** A pixel of a raw rectangle: its colour and the bits that mean nothing. */
  datatype Dot = Dot(color: Rgb, extra: byte)

  /** A pixel of eight bits has two for each channel. */
  ghost predicate DotFits(d: Dot, depth8: bool) {
    depth8 ==> d.color.r % 85 == 0 && d.color.g % 85 == 0 && d.color.b % 85 == 0 && d.extra < 4
  }

  function DotByte(d: Dot, k: nat): byte
    requires k < 4
  {
    if k == 0 then d.color.r else if k == 1 then d.color.g else if k == 2 then d.color.b else d.extra
  }

  function SmallDot(d: Dot): byte {
    (d.color.r / 85 + d.color.g / 85 * 4 + d.color.b / 85 * 16 + d.extra * 64) % TWO_8
  }

  function DotsWire(dots: seq<Dot>, depth8: bool): (s: seq<byte>)
    ensures |s| == if depth8 then |dots| else 4 * |dots|
  {
    if depth8 then seq(|dots|, k requires 0 <= k < |dots| => SmallDot(dots[k]))
    else seq(4 * |dots|, k requires 0 <= k < 4 * |dots| => DotByte(dots[k / 4], k % 4))
  }

  ghost predicate RowFits(row: seq<Dot>, w: nat, depth8: bool) {
    |row| == w && forall i | 0 <= i < w :: DotFits(row[i], depth8)
  }

  /** As many rows as the rectangle is high, each as long as it is wide. */
  ghost predicate RowsFit(at: Rect, rows: seq<seq<Dot>>, depth8: bool) {
    |rows| == at.h && forall j | 0 <= j < at.h :: RowFits(rows[j], at.w, depth8)
  }

  function RowsWire(rows: seq<seq<Dot>>, depth8: bool): seq<byte> {
    if rows == [] then [] else DotsWire(rows[0], depth8) + RowsWire(rows[1..], depth8)
  }

  /** A sub-rectangle, placed relative to its rectangle. */
  datatype Layer = Layer(color: Rgb, extra: byte, place: Rect)

  function ColorWire(c: Rgb, extra: byte): (s: seq<byte>)
    ensures |s| == 4
  {
    [c.r, c.g, c.b, extra]
  }

  function LayersWire(layers: seq<Layer>): seq<byte> {
    if layers == [] then [] else
    ColorWire(layers[0].color, layers[0].extra)
    + U16(layers[0].place.x) + U16(layers[0].place.y) + U16(layers[0].place.w) + U16(layers[0].place.h)
    + LayersWire(layers[1..])
  }

  datatype Picture =
    | Dots(rows: seq<seq<Dot>>)                             // row by row
    | Layers(ground: Rgb, extra: byte, layers: seq<Layer>)  // later ones on top
    | Mosaic(tiles: seq<H.Tile>)                            // in reading order
    | NewSize                                               // a desktop of the rectangle's size
    | Notice(mouse: bool)                                   // the server's support for an extension

  function Encoding(p: Picture): int {
    match p
    case Dots(_) => 0
    case Layers(_, _, _) => 2
    case Mosaic(_) => 5
    case NewSize => -223
    case Notice(mouse) => if mouse then -316 else -258
  }

  datatype Drawn = Drawn(at: Rect, picture: Picture)

  ghost predicate LayersFit(layers: seq<Layer>) {
    forall i | 0 <= i < |layers| :: Printable(layers[i].place)
  }

  /** A rectangle that a server may send to a client in state c. */
  ghost predicate Fits(c: Conn, r: Drawn) {
    && Printable(r.at)
    && match r.picture
       case Dots(rows) => RowsFit(r.at, rows, c.depth8)
       case Layers(_, _, layers) => |layers| < TWO_32 && LayersFit(layers)
       case Mosaic(tiles) => H.TilesFit(c.hex, r.at, 0, tiles)
       case _ => true
  }

  ghost function PictureWire(c: Conn, r: Drawn): seq<byte>
    requires Fits(c, r)
  {
    match r.picture
    case Dots(rows) => RowsWire(rows, c.depth8)
    case Layers(ground, extra, layers) => U32(|layers|) + ColorWire(ground, extra) + LayersWire(layers)
    case Mosaic(tiles) => H.TilesWire(c.hex, r.at, 0, tiles)
    case _ => []
  }

  function Moved(place: Rect, at: Rect): Rect {
    Rect(at.x + place.x, at.y + place.y, place.w, place.h)
  }

  /** The colours of the layers that cover a point, the lowest first. */
  function LayersAt(layers: seq<Layer>, at: Rect, px: int, py: int): seq<Rgb> {
    if layers == [] then [] else
    var top := layers[|layers| - 1];
    LayersAt(layers[..|layers| - 1], at, px, py) + (if Moved(top.place, at).Contains(px, py) then [top.color] else [])
  }

  /** The colour of a point, in the tile it lies in. */
  ghost function MosaicAt(hs: HexState, at: Rect, tiles: seq<H.Tile>): (int, int) -> Rgb
    requires H.TilesFit(hs, at, 0, tiles)
  {
    H.ImagesLength(hs, at, 0, tiles);
    (px, py) => if at.Contains(px, py) then H.Images(hs, at, 0, tiles)[TileOf(at, HEX_TILE, px, py)](px, py) else Rgb(0, 0, 0)
  }

  /** The colours that a rectangle puts on a point of the screen, in order. */
  ghost function Strokes(c: Conn, r: Drawn, px: int, py: int): seq<Rgb>
    requires Fits(c, r)
  {
    match r.picture
    case Dots(rows) => if r.at.Contains(px, py) then [rows[py - r.at.y][px - r.at.x].color] else []
    case Layers(ground, _, layers) => (if r.at.Contains(px, py) then [ground] else []) + LayersAt(layers, r.at, px, py)
    case Mosaic(tiles) => if r.at.Contains(px, py) then [MosaicAt(c.hex, r.at, tiles)(px, py)] else []
    case _ => []
  }

  predicate Draws(e: Event) {
    e.FillRect? || e.BlitImage?
  }

  /** The calls show the rectangle, on its place and nowhere else, or do what it
      announces. */
  ghost predicate Shows(c: Conn, r: Drawn, es: seq<Event>)
    requires Fits(c, r)
  {
    if r.picture.NewSize? then
      es == [Event.Resize(r.at.w, r.at.h)] + (if c.enabledContinuous then [EnableUpdates(r.at.w, r.at.h)] else [])
    else
      && (forall i | 0 <= i < |es| :: Draws(es[i]))
      && (forall px, py :: Painted(es, px, py) == Strokes(c, r, px, py))
  }

  /** The Hextile colours and counters after a rectangle's tiles. */
  function HexLast(hs: HexState, tiles: seq<H.Tile>): HexState
    decreases |tiles|
  {
    if tiles == [] then hs else
    var next := H.Remembered(hs, tiles[0]);
    HexLast(next.(tiles := if hs.tiles > 0 then hs.tiles - 1 else 0), tiles[1..])
  }

  function HexStarted(hs: HexState, at: Rect): HexState {
    hs.(tilesX := CeilDiv(at.w, HEX_TILE), totalTiles := TileCount(at, HEX_TILE), tiles := TileCount(at, HEX_TILE))
  }

  /** What the client remembers of a rectangle. */
  function Kept(c: Conn, r: Drawn): Conn {
    match r.picture
    case Mosaic(tiles) => c.(hex := HexLast(HexStarted(c.hex, r.at), tiles))
    case NewSize => c.(fbW := r.at.w, fbH := r.at.h)
    case _ => c
  }

  /** No rectangle is in progress. */
  ghost predicate Between(c: Conn) {
    ConnOk(c) && c.header == None && c.lines == 0 && c.subrects == 0 && c.hex.tiles == 0
  }

  // Raw rectangles

  lemma TwoBits(r: nat, g: nat, b: nat, e: nat, v: nat)
    requires r < 4 && g < 4 && b < 4 && e < 4 && v == r + 4 * g + 16 * b + 64 * e
    ensures v < TWO_8 && v % 4 == r && v / 4 % 4 == g && v / 16 % 4 == b
  {
    DivModUnique(v, 4, g + 4 * b + 16 * e, r);
    DivModUnique(g + 4 * b + 16 * e, 4, b + 4 * e, g);
    DivModUnique(v, 16, b + 4 * e, r + 4 * g);
    DivModUnique(b + 4 * e, 4, e, b);
  }

  lemma Stretched(bits: nat, n: byte)
    requires bits == n / 85 && n % 85 == 0
    ensures bits < 4 && bits * 255 / 3 == n
  {
  }

  lemma SmallChannels(d: Dot)
    requires DotFits(d, true)
    ensures Channel(SmallDot(d), 0) == d.color.r && Channel(SmallDot(d), 1) == d.color.g && Channel(SmallDot(d), 2) == d.color.b
  {
    var r, g, b := d.color.r / 85, d.color.g / 85, d.color.b / 85;
    Stretched(r, d.color.r);
    Stretched(g, d.color.g);
    Stretched(b, d.color.b);
    TwoBits(r, g, b, d.extra, r + g * 4 + b * 16 + d.extra * 64);
    Small(d, r + g * 4 + b * 16 + d.extra * 64);
    hide SmallDot;
  }

  lemma Small(d: Dot, v: nat)
    requires v == d.color.r / 85 + d.color.g / 85 * 4 + d.color.b / 85 * 16 + d.extra * 64 && v < TWO_8
    ensures SmallDot(d) == v
  {
  }

  lemma RowByte(dots: seq<Dot>, depth8: bool, p: nat, k: nat)
    requires p < |dots| && k < 3
    ensures RowPixels(DotsWire(dots, depth8), |dots|, depth8)[4 * p + k]
            == if depth8 then Channel(SmallDot(dots[p]), k) else DotByte(dots[p], k)
  {
    hide Channel, SmallDot, DotByte;
    var i := 4 * p + k;
    assert i / 4 == p && i % 4 == k;
    if !depth8 {
      assert DotsWire(dots, depth8)[i] == DotByte(dots[p], k);
    }
  }

  lemma RowShows(dots: seq<Dot>, depth8: bool, p: nat)
    requires p < |dots| && DotFits(dots[p], depth8)
    ensures PixelOf(RowPixels(DotsWire(dots, depth8), |dots|, depth8), p) == dots[p].color
  {
    hide Channel, SmallDot, RowPixels, DotsWire;
    var data := RowPixels(DotsWire(dots, depth8), |dots|, depth8);
    RowByte(dots, depth8, p, 0);
    RowByte(dots, depth8, p, 1);
    RowByte(dots, depth8, p, 2);
    if depth8 {
      SmallChannels(dots[p]);
    }
    assert PixelOf(data, p) == Rgb(data[4 * p + 0], data[4 * p + 1], data[4 * p + 2]);
  }

  /** The pixels of a row as they are drawn. */
  function Line(row: seq<Dot>, depth8: bool): (data: seq<byte>)
    ensures |data| == 4 * |row|
  {
    RowPixels(DotsWire(row, depth8), |row|, depth8)
  }

  function Row(at: Rect, row: seq<Dot>, depth8: bool, j: nat): Event {
    BlitImage(at.x, at.y + j, at.w, 1, Line(row, depth8))
  }

  lemma LineColor(at: Rect, j: nat, data: seq<byte>, px: int, py: int)
    requires |data| == 4 * at.w
    ensures ColorAt(BlitImage(at.x, at.y + j, at.w, 1, data), px, py)
            == if at.x <= px < at.x + at.w && py == at.y + j then Some(PixelOf(data, px - at.x)) else None
  {
    hide PixelOf;
    assert at.x <= px && py == at.y + j ==> PixelIndex(at.w, px - at.x, py - (at.y + j)) == px - at.x;
  }

  /** The colour of a point of the rows. */
  function DotAt(at: Rect, rows: seq<seq<Dot>>, px: int, py: int): Rgb {
    if 0 <= py - at.y < |rows| && 0 <= px - at.x < |rows[py - at.y]| then rows[py - at.y][px - at.x].color else Rgb(0, 0, 0)
  }

  lemma RowDot(at: Rect, rows: seq<seq<Dot>>, depth8: bool, j: nat, dx: nat)
    requires RowsFit(at, rows, depth8) && j < at.h && dx < at.w
    ensures |rows[j]| == at.w
    ensures PixelOf(Line(rows[j], depth8), dx) == DotAt(at, rows, at.x + dx, at.y + j)
  {
    hide DotsWire, RowPixels, PixelOf, DotFits;
    assert RowFits(rows[j], at.w, depth8);
    RowShows(rows[j], depth8, dx);
  }

  /** One call a row, from row j on. */
  function Rows(at: Rect, rows: seq<seq<Dot>>, depth8: bool, j: nat): (es: seq<Event>)
    requires j <= at.h && |rows| == at.h - j && forall i | 0 <= i < |rows| :: |rows[i]| == at.w
    ensures |es| == |rows|
  {
    seq(|rows|, i requires 0 <= i < |rows| => Row(at, rows[i], depth8, j + i))
  }

  ghost predicate RowsAhead(d: Conn, at: Rect, rows: seq<seq<Dot>>) {
    && d.header == Some(RectHeader(at, ENCODING_RAW)) && at.w > 0 && 0 < d.lines <= at.h
    && |rows| == d.lines && forall i | 0 <= i < |rows| :: |rows[i]| == at.w
  }

  lemma RawStepIs(d: Conn, at: Rect, q: seq<byte>)
    requires ConnOk(d) && d.header == Some(RectHeader(at, ENCODING_RAW))
    ensures ConnStep(d, q) == RawRect(d, at, q)
  {
    hide RawStep;
  }

  lemma RawLine(lines: nat, at: Rect, depth8: bool, row: seq<Dot>, q: seq<byte>)
    requires 0 < lines <= at.h && at.w > 0 && |row| == at.w
    requires var line := DotsWire(row, depth8); |line| <= |q| && q[..|line|] == line
    ensures var n, out := |DotsWire(row, depth8)|, [Row(at, row, depth8, at.h - lines)];
            RawStep(lines, at, depth8, q) == if lines == 1 then Done(0, n, out) else Go(lines - 1, n, out)
  {
    hide RowPixels, DotsWire;
    var line := DotsWire(row, depth8);
    assert q[..|line|] == line && |line| == BytesPerLine(at, depth8);
  }

  lemma Joined(a: seq<byte>, b: seq<byte>, c: seq<byte>)
    ensures a + b + c == a + (b + c)
  {
  }

  lemma FirstLine(rows: seq<seq<Dot>>, depth8: bool, rest: seq<byte>)
    requires rows != []
    ensures RowsWire(rows, depth8) + rest == DotsWire(rows[0], depth8) + (RowsWire(rows[1..], depth8) + rest)
  {
    Joined(DotsWire(rows[0], depth8), RowsWire(rows[1..], depth8), rest);
    hide DotsWire;
  }

  lemma RowStep(d: Conn, at: Rect, row: seq<Dot>, later: seq<byte>)
    requires ConnOk(d) && d.header == Some(RectHeader(at, ENCODING_RAW)) && |row| == at.w > 0 && 0 < d.lines <= at.h
    ensures var line := DotsWire(row, d.depth8);
            && (line + later)[|line|..] == later && d.rects > 0
            && ConnStep(d, line + later)
               == if d.lines == 1 then FinishRect(d.(lines := 0), |line|, [Row(at, row, d.depth8, at.h - d.lines)])
                  else Go(d.(lines := d.lines - 1), |line|, [Row(at, row, d.depth8, at.h - d.lines)])
  {
    HeaderMeansRects(d);
    hide DotsWire, Row, RawStep, ConnStep, ConnOk, FinishRect;
    var line := DotsWire(row, d.depth8);
    RawStepIs(d, at, line + later);
    RawLine(d.lines, at, d.depth8, row, line + later);
  }

  lemma LastRow(rows: seq<seq<Dot>>, depth8: bool, rest: seq<byte>)
    requires |rows| == 1
    ensures RowsWire(rows[1..], depth8) + rest == rest
  {
  }

  lemma RowsFrom(at: Rect, rows: seq<seq<Dot>>, depth8: bool, j: nat)
    requires j < at.h && |rows| == at.h - j && forall i | 0 <= i < |rows| :: |rows[i]| == at.w
    ensures Rows(at, rows, depth8, j) == [Row(at, rows[0], depth8, j)] + Rows(at, rows[1..], depth8, j + 1)
  {
    hide Row;
  }

  lemma {:induction false} RowsRun(c: Conn, q0: seq<byte>, out: seq<Event>, d: Conn, at: Rect, rows: seq<seq<Dot>>, rest: seq<byte>)
    requires RowsAhead(d, at, rows)
    requires Reaches(c, q0, out, d, RowsWire(rows, d.depth8) + rest)
    ensures Completes(c, q0, out + Rows(at, rows, d.depth8, at.h - d.lines), d.(lines := 0), rest)
    decreases d.lines
  {
    hide DotsWire, Row, Reaches, Completes, RowsWire, Rows, ConnOk, ConnStep;
    var j, q := at.h - d.lines, RowsWire(rows, d.depth8) + rest;
    var e, n := Row(at, rows[0], d.depth8, j), |DotsWire(rows[0], d.depth8)|;
    ReachOk(c, q0, out, d, q);
    FirstLine(rows, d.depth8, rest);
    RowStep(d, at, rows[0], RowsWire(rows[1..], d.depth8) + rest);
    RowsFrom(at, rows, d.depth8, j);
    if d.lines == 1 {
      LastRow(rows, d.depth8, rest);
      HeaderMeansRects(d);
      ReachFinish(c, q0, out, d, q, d.(lines := 0), n, [e]);
      assert [e] + Rows(at, rows[1..], d.depth8, j + 1) == [e];
    } else {
      ReachStep(c, q0, out, d, q, Go(d.(lines := d.lines - 1), n, [e]));
      RowsRun(c, q0, out + [e], d.(lines := d.lines - 1), at, rows[1..], rest);
      assert out + [e] + Rows(at, rows[1..], d.depth8, j + 1) == out + ([e] + Rows(at, rows[1..], d.depth8, j + 1));
    }
  }

  lemma HeaderMeansRects(d: Conn)
    requires ConnOk(d)
    ensures d.header.Some? ==> d.rects > 0
  {
  }

  lemma DotIs(at: Rect, rows: seq<seq<Dot>>, depth8: bool, px: int, py: int)
    requires RowsFit(at, rows, depth8) && at.Contains(px, py)
    ensures 0 <= py - at.y < |rows| && 0 <= px - at.x < |rows[py - at.y]|
    ensures DotAt(at, rows, px, py) == rows[py - at.y][px - at.x].color
  {
    assert RowFits(rows[py - at.y], at.w, depth8);
  }

  lemma RowLength(at: Rect, rows: seq<seq<Dot>>, depth8: bool, j: nat)
    requires RowsFit(at, rows, depth8) && j < at.h
    ensures |rows| == at.h && |rows[j]| == at.w
  {
    assert RowFits(rows[j], at.w, depth8);
  }

  lemma RowColor(at: Rect, rows: seq<seq<Dot>>, depth8: bool, j: nat, px: int, py: int)
    requires RowsFit(at, rows, depth8) && j < at.h
    ensures ColorAt(Row(at, rows[j], depth8, j), px, py)
            == if at.Contains(px, py) && j == py - at.y then Some(DotAt(at, rows, px, py)) else None
  {
    hide Line, PixelOf, ColorAt, RowsFit, DotAt;
    RowLength(at, rows, depth8, j);
    LineColor(at, j, Line(rows[j], depth8), px, py);
    if at.Contains(px, py) && j == py - at.y {
      RowDot(at, rows, depth8, j, px - at.x);
    }
  }

  /** The rows of a rectangle show it. */
  lemma RowsShow(at: Rect, rows: seq<seq<Dot>>, depth8: bool, px: int, py: int)
    requires RowsFit(at, rows, depth8)
    ensures forall j | 0 <= j < at.h :: |rows[j]| == at.w
    ensures Painted(Rows(at, rows, depth8, 0), px, py) == if at.Contains(px, py) then [rows[py - at.y][px - at.x].color] else []
  {
    assert forall j | 0 <= j < at.h :: RowFits(rows[j], at.w, depth8) && |rows[j]| == at.w;
    hide Row, RowFits, RowsFit, Paints, DotAt, ColorAt;
    var es := Rows(at, rows, depth8, 0);
    forall i | 0 <= i < |es|
      ensures ColorAt(es[i], px, py) == if at.Contains(px, py) && i == py - at.y then Some(DotAt(at, rows, px, py)) else None
    {
      RowColor(at, rows, depth8, i, px, py);
    }
    if at.Contains(px, py) {
      DotIs(at, rows, depth8, px, py);
      PaintedOnce(es, py - at.y, DotAt(at, rows, px, py), px, py);
    } else {
      PaintedNowhere(es, px, py);
    }
  }

  // Rectangles of layers

  function LayerCall(at: Rect, l: Layer): Event {
    FillRect(at.x + l.place.x, at.y + l.place.y, l.place.w, l.place.h, ColorWire(l.color, l.extra))
  }

  function LayerCalls(at: Rect, layers: seq<Layer>): (es: seq<Event>)
    ensures |es| == |layers|
  {
    seq(|layers|, i requires 0 <= i < |layers| => LayerCall(at, layers[i]))
  }

  function LayerWire(l: Layer): (s: seq<byte>)
    ensures |s| == 12
  {
    ColorWire(l.color, l.extra) + U16(l.place.x) + U16(l.place.y) + U16(l.place.w) + U16(l.place.h)
  }

  lemma LayerIsRead(l: Layer, rest: seq<byte>)
    requires Printable(l.place)
    ensures var q := LayerWire(l) + rest;
            && q[..4] == ColorWire(l.color, l.extra) && q[12..] == rest
            && BigEndian(q[4..6]) == l.place.x && BigEndian(q[6..8]) == l.place.y
            && BigEndian(q[8..10]) == l.place.w && BigEndian(q[10..12]) == l.place.h
  {
    hide U16, BigEndian, ColorWire;
    var q := LayerWire(l) + rest;
    assert q[4..6] == U16(l.place.x) && q[6..8] == U16(l.place.y) && q[8..10] == U16(l.place.w) && q[10..12] == U16(l.place.h);
    BigEndianInverts(l.place.x);
    BigEndianInverts(l.place.y);
    BigEndianInverts(l.place.w);
    BigEndianInverts(l.place.h);
  }

  lemma FirstLayer(layers: seq<Layer>, rest: seq<byte>)
    requires layers != []
    ensures LayersWire(layers) + rest == LayerWire(layers[0]) + (LayersWire(layers[1..]) + rest)
  {
    hide U16, ColorWire;
    assert LayersWire(layers) == LayerWire(layers[0]) + LayersWire(layers[1..]);
  }

  lemma RreStepIs(d: Conn, at: Rect, q: seq<byte>)
    requires ConnOk(d) && d.header == Some(RectHeader(at, ENCODING_RRE))
    ensures ConnStep(d, q) == RreRect(d, at, q)
  {
    hide RreStep;
  }

  lemma LayerStep(d: Conn, at: Rect, l: Layer, rest: seq<byte>)
    requires ConnOk(d) && d.header == Some(RectHeader(at, ENCODING_RRE)) && d.subrects > 0 && Printable(l.place)
    ensures (LayerWire(l) + rest)[12..] == rest && d.rects > 0
    ensures ConnStep(d, LayerWire(l) + rest)
            == if d.subrects == 1 then FinishRect(d.(subrects := 0), 12, [LayerCall(at, l)])
               else Go(d.(subrects := d.subrects - 1), 12, [LayerCall(at, l)])
  {
    HeaderMeansRects(d);
    hide LayerWire, ColorWire, BigEndian, ConnStep, FinishRect, ConnOk;
    RreStepIs(d, at, LayerWire(l) + rest);
    LayerIsRead(l, rest);
  }

  lemma {:induction false} LayersRun(c: Conn, q0: seq<byte>, out: seq<Event>, d: Conn, at: Rect, layers: seq<Layer>, rest: seq<byte>)
    requires d.header == Some(RectHeader(at, ENCODING_RRE)) && |layers| == d.subrects > 0 && LayersFit(layers)
    requires Reaches(c, q0, out, d, LayersWire(layers) + rest)
    ensures Completes(c, q0, out + LayerCalls(at, layers), d.(subrects := 0), rest)
    decreases |layers|
  {
    hide LayerWire, LayerCall, LayersWire, Reaches, Completes, ConnOk, ConnStep, Printable;
    var q, later := LayersWire(layers) + rest, LayersWire(layers[1..]) + rest;
    var e := LayerCall(at, layers[0]);
    FirstLayer(layers, rest);
    ReachOk(c, q0, out, d, q);
    LayerStep(d, at, layers[0], later);
    assert LayerCalls(at, layers) == [e] + LayerCalls(at, layers[1..]);
    if d.subrects == 1 {
      NoLayers(layers[1..], rest);
      ReachFinish(c, q0, out, d, q, d.(subrects := 0), 12, [e]);
      assert [e] + LayerCalls(at, layers[1..]) == [e];
    } else {
      ReachStep(c, q0, out, d, q, Go(d.(subrects := d.subrects - 1), 12, [e]));
      LayersRun(c, q0, out + [e], d.(subrects := d.subrects - 1), at, layers[1..], rest);
      assert out + [e] + LayerCalls(at, layers[1..]) == out + ([e] + LayerCalls(at, layers[1..]));
    }
  }

  lemma NoLayers(layers: seq<Layer>, rest: seq<byte>)
    requires layers == []
    ensures LayersWire(layers) + rest == rest
  {
  }

  function GroundCall(at: Rect, ground: Rgb, extra: byte): Event {
    FillRect(at.x, at.y, at.w, at.h, ColorWire(ground, extra))
  }

  lemma GroundStep(d: Conn, at: Rect, ground: Rgb, extra: byte, n: nat, rest: seq<byte>)
    requires ConnOk(d) && d.header == Some(RectHeader(at, ENCODING_RRE)) && d.subrects == 0 && n < TWO_32
    ensures var q := U32(n) + ColorWire(ground, extra) + rest;
            && q[8..] == rest && d.rects > 0
            && ConnStep(d, q) == if n == 0 then FinishRect(d, 8, [GroundCall(at, ground, extra)])
                                 else Go(d.(subrects := n), 8, [GroundCall(at, ground, extra)])
  {
    HeaderMeansRects(d);
    hide U32, ColorWire, BigEndian, ConnStep, FinishRect, ConnOk;
    var q := U32(n) + ColorWire(ground, extra) + rest;
    assert q[..4] == U32(n) && q[4..8] == ColorWire(ground, extra);
    BigEndianInverts(n);
    RreStepIs(d, at, q);
  }

  /** Ground and layers, each over what is there. */
  lemma LayeredRun(c: Conn, q0: seq<byte>, d: Conn, at: Rect, ground: Rgb, extra: byte, layers: seq<Layer>, rest: seq<byte>)
    requires d.header == Some(RectHeader(at, ENCODING_RRE)) && d.subrects == 0 && |layers| < TWO_32 && LayersFit(layers)
    requires Reaches(c, q0, [], d, U32(|layers|) + ColorWire(ground, extra) + (LayersWire(layers) + rest))
    ensures Completes(c, q0, [GroundCall(at, ground, extra)] + LayerCalls(at, layers), d, rest)
  {
    hide U32, ColorWire, LayersWire, Reaches, Completes, ConnOk, ConnStep, LayersFit, GroundCall;
    var q := U32(|layers|) + ColorWire(ground, extra) + (LayersWire(layers) + rest);
    var e := GroundCall(at, ground, extra);
    ReachOk(c, q0, [], d, q);
    GroundStep(d, at, ground, extra, |layers|, LayersWire(layers) + rest);
    assert [] + [e] == [e];
    if layers == [] {
      NoLayers(layers, rest);
      ReachFinish(c, q0, [], d, q, d, 8, [e]);
      assert [e] + LayerCalls(at, layers) == [e];
    } else {
      ReachStep(c, q0, [], d, q, Go(d.(subrects := |layers|), 8, [e]));
      LayersRun(c, q0, [e], d.(subrects := |layers|), at, layers, rest);
    }
  }

  lemma FillColor(at: Rect, color: Rgb, extra: byte, px: int, py: int)
    ensures ColorAt(FillRect(at.x, at.y, at.w, at.h, ColorWire(color, extra)), px, py)
            == if at.Contains(px, py) then Some(color) else None
  {
  }

  lemma {:induction false} PaintedTogether(a: seq<Event>, b: seq<Event>, px: int, py: int)
    ensures Painted(a + b, px, py) == Painted(a, px, py) + Painted(b, px, py)
    decreases |b|
  {
    if b == [] {
      assert a + b == a;
    } else {
      var n := |b| - 1;
      assert (a + b)[..|a| + n] == a + b[..n];
      PaintedTogether(a, b[..n], px, py);
    }
  }

  lemma {:induction false} LayersShow(at: Rect, layers: seq<Layer>, px: int, py: int)
    ensures Painted(LayerCalls(at, layers), px, py) == LayersAt(layers, at, px, py)
    decreases |layers|
  {
    hide ColorAt, ColorWire;
    if layers != [] {
      var n := |layers| - 1;
      assert LayerCalls(at, layers)[..n] == LayerCalls(at, layers[..n]);
      LayersShow(at, layers[..n], px, py);
      FillColor(Moved(layers[n].place, at), layers[n].color, layers[n].extra, px, py);
    }
  }

  lemma LayeredShows(at: Rect, ground: Rgb, extra: byte, layers: seq<Layer>, px: int, py: int)
    ensures Painted([GroundCall(at, ground, extra)] + LayerCalls(at, layers), px, py)
            == (if at.Contains(px, py) then [ground] else []) + LayersAt(layers, at, px, py)
  {
    var e := GroundCall(at, ground, extra);
    PaintedTogether([e], LayerCalls(at, layers), px, py);
    LayersShow(at, layers, px, py);
    FillColor(at, ground, extra, px, py);
    assert [e][..0] == [];
    hide ColorAt, ColorWire, LayerCalls, LayersAt;
  }

  // Rectangles of tiles

  lemma HexStepIs(d: Conn, at: Rect, q: seq<byte>)
    requires ConnOk(d) && d.header == Some(RectHeader(at, ENCODING_HEXTILE))
    ensures ConnStep(d, q) == HexRect(d, at, q)
  {
    hide HexStep;
  }

  lemma {:induction false} DecodedRun(c: Conn, q0: seq<byte>, out: seq<Event>, d: Conn, at: Rect, q: seq<byte>)
    requires d.header == Some(RectHeader(at, ENCODING_HEXTILE)) && d.hex.tiles > 0
    requires HexOk(d.hex) && HexActive(d.hex, at) && H.DecodeFrom(d.hex, at, q).Some?
    requires Reaches(c, q0, out, d, q)
    ensures var last := H.DecodeFrom(d.hex, at, q).value;
            Completes(c, q0, out + last.2, d.(hex := last.0), last.1)
    decreases d.hex.tiles
  {
    ReachOk(c, q0, out, d, q);
    HeaderMeansRects(d);
    HexStepIs(d, at, q);
    hide HexStep, HexActive, HexOk, Reaches, Completes, ConnStep, ConnOk;
    var last := H.DecodeFrom(d.hex, at, q).value;
    match HexStep(d.hex, at, q)
    case Done(next, n, es) =>
      ReachFinish(c, q0, out, d, q, d.(hex := next), n, es);
    case Go(next, n, es) =>
      ReachStep(c, q0, out, d, q, Go(d.(hex := next), n, es));
      DecodedRun(c, q0, out + es, d.(hex := next), at, q[n..]);
      var more := H.DecodeFrom(next, at, q[n..]).value;
      assert out + es + more.2 == out + (es + more.2);
    case _ => assert false;
  }

  lemma {:induction false} DecodedLast(hs: HexState, at: Rect, tiles: seq<H.Tile>, rest: seq<byte>)
    requires HexOk(hs) && HexActive(hs, at) && hs.tiles > 0
    requires H.TilesFit(hs, at, hs.totalTiles - hs.tiles, tiles)
    ensures var d := H.Decoding(hs, at, tiles, rest);
            d.Some? && d.value.0 == HexLast(hs, tiles)
    decreases hs.tiles
  {
    hide TileRect, TileCount, CeilDiv, Paints, H.Decoding, H.Images, H.TileCall, H.Remembered, H.TilesFit;
    H.FirstTile(hs, at, tiles, rest);
    var next := H.NextState(hs, tiles[0]);
    if hs.tiles == 1 {
      H.ImagesLength(hs, at, hs.totalTiles - 1, tiles);
      assert tiles[1..] == [];
    } else {
      DecodedLast(next, at, tiles[1..], rest);
    }
  }

  lemma NoTiles(at: Rect)
    ensures TileCount(at, HEX_TILE) == 0 <==> at.w == 0 || at.h == 0
  {
    if at.w > 0 && at.h > 0 {
      CellInside(at.w, HEX_TILE, 0);
      CellInside(at.h, HEX_TILE, 0);
      IndexInside(CeilDiv(at.w, HEX_TILE), CeilDiv(at.h, HEX_TILE), 0, 0);
    } else {
      assert CeilDiv(at.w, HEX_TILE) == 0 || CeilDiv(at.h, HEX_TILE) == 0;
    }
  }

  lemma TilesStart(d: Conn, at: Rect, q: seq<byte>)
    requires ConnOk(d) && d.header == Some(RectHeader(at, ENCODING_HEXTILE)) && d.hex.tiles == 0
    ensures d.rects > 0 && HexOk(d.hex)
    ensures var start := d.(hex := HexStarted(d.hex, at));
            ConnStep(d, q) == if TileCount(at, HEX_TILE) == 0 then FinishRect(start, 0, []) else Go(start, 0, [])
  {
    HexStepIs(d, at, q);
    hide TileCount, CeilDiv;
  }

  lemma PaintingDraws(e: Event, tile: Rect, image: (int, int) -> Rgb)
    requires Paints(e, tile, image) && tile.w > 0 && tile.h > 0
    ensures Draws(e)
  {
    assert ColorAt(e, tile.x, tile.y) == Some(image(tile.x, tile.y));
  }

  lemma TilesDraw(es: seq<Event>, at: Rect, images: seq<(int, int) -> Rgb>)
    requires H.PaintsAll(es, at, 0, images)
    ensures forall i | 0 <= i < |es| :: Draws(es[i])
  {
    hide Paints;
    forall i | 0 <= i < |es|
      ensures Draws(es[i])
    {
      TileInside(at, HEX_TILE, i);
      assert Paints(es[i], TileRect(at, HEX_TILE, 0 + i), images[i]);
      PaintingDraws(es[i], TileRect(at, HEX_TILE, i), images[i]);
    }
  }

  lemma TilesAgree(hs: HexState, at: Rect, tiles: seq<H.Tile>, k: nat, px: int, py: int)
    requires H.TilesFit(hs, at, 0, tiles) && k < |tiles| <= TileCount(at, HEX_TILE)
    requires TileRect(at, HEX_TILE, k).Contains(px, py)
    ensures H.Images(hs, at, 0, tiles)[k](px, py) == MosaicAt(hs, at, tiles)(px, py)
  {
    TilesPartition(at, HEX_TILE, k, px, py);
    hide TileRect, TileCount, TileOf, H.Images, H.TilesFit;
  }

  /** The tiles of a rectangle, from its start to its end. */
  lemma TilesShown(hs: HexState, at: Rect, tiles: seq<H.Tile>, rest: seq<byte>)
    requires HexOk(hs) && hs.tiles == 0 && at.w > 0 && at.h > 0 && H.TilesFit(hs, at, 0, tiles)
    ensures var start, q := HexStarted(hs, at), H.TilesWire(hs, at, 0, tiles) + rest;
            && start.tiles > 0 && HexActive(start, at)
            && var d := H.DecodeFrom(start, at, q);
               && d.Some? && d.value.0 == HexLast(start, tiles) && d.value.1 == rest
               && (forall i | 0 <= i < |d.value.2| :: Draws(d.value.2[i]))
               && (forall px, py :: Painted(d.value.2, px, py) == if at.Contains(px, py) then [MosaicAt(hs, at, tiles)(px, py)] else [])
  {
    hide TileRect, Paints, MosaicAt, TileOf, CeilDiv, TileCount, HexStep, H.Images, H.TilesWire;
    var start, q := HexStarted(hs, at), H.TilesWire(hs, at, 0, tiles) + rest;
    NoTiles(at);
    H.ImagesLength(hs, at, 0, tiles);
    H.GeometryDoesNotMatter(hs, start, at, 0, tiles);
    assert H.Decoding(start, at, tiles, rest) == H.DecodeFrom(start, at, q);
    H.RectangleDecodes(start, at, tiles, rest);
    DecodedLast(start, at, tiles, rest);
    var es := H.DecodeFrom(start, at, q).value.2;
    TilesDraw(es, at, H.Images(hs, at, 0, tiles));
    forall k, px, py | 0 <= k < |tiles| && TileRect(at, HEX_TILE, k).Contains(px, py)
      ensures H.Images(hs, at, 0, tiles)[k](px, py) == MosaicAt(hs, at, tiles)(px, py)
    {
      TilesAgree(hs, at, tiles, k, px, py);
    }
    H.AsOneImage(es, at, H.Images(hs, at, 0, tiles), MosaicAt(hs, at, tiles));
    TilesPaintImage(at, HEX_TILE, es, MosaicAt(hs, at, tiles));
  }

  lemma MosaicRun(c: Conn, q0: seq<byte>, d: Conn, at: Rect, tiles: seq<H.Tile>, rest: seq<byte>) returns (es: seq<Event>)
    requires d.header == Some(RectHeader(at, ENCODING_HEXTILE)) && d.hex.tiles == 0 && H.TilesFit(d.hex, at, 0, tiles)
    requires Reaches(c, q0, [], d, H.TilesWire(d.hex, at, 0, tiles) + rest)
    ensures Completes(c, q0, es, d.(hex := HexLast(HexStarted(d.hex, at), tiles)), rest)
    ensures forall i | 0 <= i < |es| :: Draws(es[i])
    ensures forall px, py :: Painted(es, px, py) == if at.Contains(px, py) then [MosaicAt(d.hex, at, tiles)(px, py)] else []
  {
    var q, start := H.TilesWire(d.hex, at, 0, tiles) + rest, d.(hex := HexStarted(d.hex, at));
    ReachOk(c, q0, [], d, q);
    TilesStart(d, at, q);
    NoTiles(at);
    assert q[0..] == q;
    if TileCount(at, HEX_TILE) == 0 {
      assert tiles == [] && q == rest;
      hide Reaches, Completes, ConnStep, ConnOk, TileCount, MosaicAt;
      es := [];
      assert es + es == es;
      ReachFinish(c, q0, [], d, q, start, 0, []);
    } else {
      hide Reaches, Completes, ConnStep, ConnOk, TileCount, CeilDiv, MosaicAt, H.DecodeFrom, H.TilesWire;
      TilesShown(d.hex, at, tiles, rest);
      var none: seq<Event> := [];
      assert none + none == none;
      ReachStep(c, q0, [], d, q, Go(start, 0, []));
      DecodedRun(c, q0, [], start, at, q);
      es := H.DecodeFrom(start.hex, at, q).value.2;
      assert none + es == es;
    }
  }
}
