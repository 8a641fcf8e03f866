/** What a well-formed Hextile rectangle means, and that the decoder paints it. */
module HextileImage {
  import opened Bytes
  import opened Tiles
  import opened RectSteps
  import opened Painting

  datatype Sub = Sub(color: seq<byte>, x: nat, y: nat, w: nat, h: nat) {
    predicate Covers(i: int, j: int) {
      x <= i < x + w && y <= j < y + h
    }
  }

  datatype Overlay = NoSubrects | Subrects(coloured: bool, subs: seq<Sub>)

  /** A tile as a server describes it. */
  datatype Tile =
    | RawTile(pixels: seq<byte>)
    | Coloured(bg: Option<seq<byte>>, fg: Option<seq<byte>>, overlay: Overlay)

  // The wire form.

  function SubBytes(s: Sub, coloured: bool): seq<byte>
    requires s.x < 16 && s.y < 16 && 1 <= s.w <= 16 && 1 <= s.h <= 16
  {
    (if coloured then s.color else []) + [s.x * 16 + s.y, (s.w - 1) * 16 + (s.h - 1)]
  }

  predicate SubFits(s: Sub, tile: Rect, coloured: bool) {
    s.w >= 1 && s.h >= 1 && s.x + s.w <= tile.w && s.y + s.h <= tile.h && (coloured ==> |s.color| == 4)
  }

  ghost predicate SubsFit(subs: seq<Sub>, tile: Rect, coloured: bool) {
    forall i | 0 <= i < |subs| :: SubFits(subs[i], tile, coloured)
  }

  ghost function SubsBytes(subs: seq<Sub>, tile: Rect, coloured: bool): seq<byte>
    requires tile.w <= 16 && tile.h <= 16 && SubsFit(subs, tile, coloured)
  {
    if subs == [] then [] else SubBytes(subs[0], coloured) + SubsBytes(subs[1..], tile, coloured)
  }

  function Flags(bg: bool, fg: bool, any: bool, coloured: bool): byte {
    (if bg then 2 else 0) + (if fg then 4 else 0) + (if any then 8 else 0) + (if coloured then 16 else 0)
  }

  function ColorBytes(c: Option<seq<byte>>): seq<byte> {
    if c.Some? then c.value else []
  }

  function TileFlags(t: Tile): byte
    requires t.Coloured?
  {
    Flags(t.bg.Some?, t.fg.Some?, t.overlay.Subrects?, t.overlay.Subrects? && t.overlay.coloured)
  }

  ghost function OverlayWire(o: Overlay, tile: Rect): seq<byte>
    requires tile.w <= 16 && tile.h <= 16
    requires o.Subrects? ==> |o.subs| < 256 && SubsFit(o.subs, tile, o.coloured)
  {
    if o.Subrects? then [|o.subs|] + SubsBytes(o.subs, tile, o.coloured) else []
  }

  /** A tile the server may send when the client remembers hs: colours that are
      not given must be known, subrectangles lie inside the tile, and a tile of
      nothing at all does not follow a raw one. */
  ghost predicate WellFormed(hs: HexState, tile: Rect, t: Tile) {
    match t
    case RawTile(pixels) => |pixels| == tile.w * tile.h * 4
    case Coloured(bg, fg, overlay) =>
      && ColorOk(bg) && ColorOk(fg)
      && (bg.Some? || hs.background.Some?)
      && (TileFlags(t) == 0 ==> !Flag(hs.lastsubencoding, 0))
      && (overlay.Subrects? ==>
            && |overlay.subs| < 256 && SubsFit(overlay.subs, tile, overlay.coloured)
            && (overlay.coloured || overlay.subs == [] || fg.Some? || hs.foreground.Some?))
  }

  ghost function TileWire(tile: Rect, t: Tile): seq<byte>
    requires tile.w <= 16 && tile.h <= 16
    requires t.Coloured? && t.overlay.Subrects? ==> |t.overlay.subs| < 256 && SubsFit(t.overlay.subs, tile, t.overlay.coloured)
  {
    match t
    case RawTile(pixels) => [1] + pixels
    case Coloured(bg, fg, overlay) =>
      [TileFlags(t)] + ColorBytes(bg) + ColorBytes(fg) + OverlayWire(overlay, tile)
  }

  // The meaning.

  function Carry(given: Option<seq<byte>>, known: Option<seq<byte>>): Option<seq<byte>> {
    if given.Some? then given else known
  }

  function RgbOf(color: seq<byte>): Rgb
    requires |color| >= 3
  {
    Rgb(color[0], color[1], color[2])
  }

  function SubColor(s: Sub, coloured: bool, fg: Option<seq<byte>>): seq<byte> {
    if coloured then s.color else if fg.Some? then fg.value else []
  }

  /** The colour at (i, j) of a tile whose colour below was `under`: the last
      subrectangle that covers the point wins. */
  function Over(under: Rgb, subs: seq<Sub>, coloured: bool, fg: Option<seq<byte>>, i: int, j: int): Rgb
    decreases |subs|
  {
    if subs == [] then under else
    var c := SubColor(subs[0], coloured, fg);
    Over(if subs[0].Covers(i, j) && |c| >= 3 then RgbOf(c) else under, subs[1..], coloured, fg, i, j)
  }

  /** The colours a tile may leave out. */
  datatype Colours = Colours(background: Option<seq<byte>>, foreground: Option<seq<byte>>)

  function Known(hs: HexState): Colours {
    Colours(hs.background, hs.foreground)
  }

  /** The colour of the tile's point (i, j). */
  function Meaning(known: Colours, tile: Rect, t: Tile, i: nat, j: nat): Rgb
  {
    match t
    case RawTile(pixels) =>
      var p := PixelIndex(tile.w, i, j);
      if 4 * p + 3 <= |pixels| then PixelOf(pixels, p) else Rgb(0, 0, 0)
    case Coloured(bg, fg, overlay) =>
      var back := Carry(bg, known.background);
      var under := if back.Some? && |back.value| >= 3 then RgbOf(back.value) else Rgb(0, 0, 0);
      if overlay.Subrects? then Over(under, overlay.subs, overlay.coloured, Carry(fg, known.foreground), i, j) else under
  }

  /** What the client remembers afterwards. */
  function Remembered(hs: HexState, t: Tile): HexState {
    match t
    case RawTile(_) => hs.(lastsubencoding := 1)
    case Coloured(bg, fg, _) =>
      hs.(background := Carry(bg, hs.background), foreground := Carry(fg, hs.foreground), lastsubencoding := TileFlags(t))
  }

  // The tile's bytes are its budget.

  lemma FlagsRead(bg: bool, fg: bool, any: bool, coloured: bool)
    ensures var f := Flags(bg, fg, any, coloured);
            f <= 30 && !Flag(f, 0) && Flag(f, 1) == bg && Flag(f, 2) == fg && Flag(f, 3) == any && Flag(f, 4) == coloured
  {
    var f := Flags(bg, fg, any, coloured);
    var f1 := f / 2;
    var f2 := f1 / 2;
    var f3 := f2 / 2;
    var f4 := f3 / 2;
    assert Flag(f, 1) == Flag(f1, 0);
    assert Flag(f, 2) == Flag(f1, 1) == Flag(f2, 0);
    assert Flag(f, 3) == Flag(f1, 2) == Flag(f2, 1) == Flag(f3, 0);
    assert Flag(f, 4) == Flag(f1, 3) == Flag(f2, 2) == Flag(f3, 1) == Flag(f4, 0);
  }

  lemma {:induction false} SubsLength(subs: seq<Sub>, tile: Rect, coloured: bool)
    requires tile.w <= 16 && tile.h <= 16 && SubsFit(subs, tile, coloured)
    ensures |SubsBytes(subs, tile, coloured)| == SubrectBytes(|subs|, coloured)
  {
    if subs != [] {
      SubsLength(subs[1..], tile, coloured);
    }
  }

  /** The budget computed before a tile is touched is exactly the tile's bytes,
      whatever follows it in the stream. */
  lemma BudgetIsExact(hs: HexState, tile: Rect, t: Tile, rest: seq<byte>)
    requires tile.w <= 16 && tile.h <= 16 && WellFormed(hs, tile, t)
    ensures HexBudget(tile, TileWire(tile, t) + rest) == Bytes(|TileWire(tile, t)|)
  {
    var q := TileWire(tile, t) + rest;
    match t
    case RawTile(pixels) =>
      assert q[0] == 1 && Flag(1, 0);
    case Coloured(bg, fg, overlay) =>
      FlagsRead(bg.Some?, fg.Some?, overlay.Subrects?, overlay.Subrects? && overlay.coloured);
      assert q[0] == TileFlags(t);
      if overlay.Subrects? {
        SubsLength(overlay.subs, tile, overlay.coloured);
        var head := |[TileFlags(t)] + ColorBytes(bg) + ColorBytes(fg)|;
        assert q[head] == |overlay.subs|;
      }
  }

  // The pixels.

  /** The buffer shows the colours `shown` gives to the tile's points. */
  ghost predicate Shows(data: seq<byte>, tile: Rect, shown: (nat, nat) -> Rgb) {
    |data| == 4 * (tile.w * tile.h) &&
    forall i: nat, j: nat | i < tile.w && j < tile.h ::
      var p := PixelIndex(tile.w, i, j);
      4 * p + 3 <= |data| ==> PixelOf(data, p) == shown(i, j)
  }

  /** Inside a tile no wider than its buffer, a subrectangle that fits hits the
      pixel numbers of exactly its own points. */
  lemma HitsInside(tile: Rect, s: Sub, i: nat, j: nat)
    requires i < tile.w && s.x + s.w <= tile.w
    ensures Hits(PixelIndex(tile.w, i, j), tile.w, s.x, s.y, s.w, s.h) <==> s.Covers(i, j)
  {
    var p := PixelIndex(tile.w, i, j);
    assert p - j * tile.w == i;
    if s.Covers(i, j) {
      assert RowHit(p, tile.w, s.x, s.w, j);
    }
    if Hits(p, tile.w, s.x, s.y, s.w, s.h) {
      var k: int :| s.y <= k < s.y + s.h && RowHit(p, tile.w, s.x, s.w, k);
      UniqueQuotient(tile.w, j, i, k, p - k * tile.w);
    }
  }

  lemma SubTileShows(data: seq<byte>, tile: Rect, under: (nat, nat) -> Rgb, s: Sub, color: seq<byte>, over: (nat, nat) -> Rgb)
    requires Shows(data, tile, under) && |color| >= 3 && s.x + s.w <= tile.w
    requires forall i: nat, j: nat :: over(i, j) == if s.Covers(i, j) then RgbOf(color) else under(i, j)
    ensures Shows(SubTile(data, tile.w, s.x, s.y, s.w, s.h, color), tile, over)
  {
    var next := SubTile(data, tile.w, s.x, s.y, s.w, s.h, color);
    forall i: nat, j: nat | i < tile.w && j < tile.h && 4 * PixelIndex(tile.w, i, j) + 3 <= |next|
      ensures PixelOf(next, PixelIndex(tile.w, i, j)) == over(i, j)
    {
      var p := PixelIndex(tile.w, i, j);
      HitsInside(tile, s, i, j);
      assert (4 * p) / 4 == p && (4 * p + 1) / 4 == p && (4 * p + 2) / 4 == p;
      assert (4 * p) % 4 == 0 && (4 * p + 1) % 4 == 1 && (4 * p + 2) % 4 == 2;
    }
  }

  /** The colours after the first subrectangle. */
  function Painted1(under: (nat, nat) -> Rgb, s: Sub, color: seq<byte>): (nat, nat) -> Rgb
    requires |color| >= 3
  {
    (i: nat, j: nat) => if s.Covers(i, j) then RgbOf(color) else under(i, j)
  }

  function OverAll(under: (nat, nat) -> Rgb, subs: seq<Sub>, coloured: bool, fg: Option<seq<byte>>): (nat, nat) -> Rgb {
    (i: nat, j: nat) => Over(under(i, j), subs, coloured, fg, i, j)
  }

  lemma SubBytesRead(s: Sub, tile: Rect, coloured: bool, more: seq<byte>)
    requires tile.w <= 16 && tile.h <= 16 && SubFits(s, tile, coloured)
    ensures var b := SubBytes(s, coloured) + more;
            var t := if coloured then b[4..] else b;
            && |t| >= 2 && t[2..] == more && (coloured ==> b[..4] == s.color)
            && t[0] / 16 == s.x && t[0] % 16 == s.y && t[1] / 16 + 1 == s.w && t[1] % 16 + 1 == s.h
  {
    var b := SubBytes(s, coloured) + more;
    var t := if coloured then b[4..] else b;
    assert t == [s.x * 16 + s.y, (s.w - 1) * 16 + (s.h - 1)] + more;
  }

  lemma FirstSubrect(data: seq<byte>, tile: Rect, subs: seq<Sub>, coloured: bool, fg: Option<seq<byte>>)
    requires tile.w <= 16 && tile.h <= 16 && SubsFit(subs, tile, coloured)
    requires subs != [] && ColorOk(fg) && (coloured || fg.Some?)
    ensures |SubsBytes(subs, tile, coloured)| == SubrectBytes(|subs|, coloured)
    ensures |SubsBytes(subs[1..], tile, coloured)| == SubrectBytes(|subs| - 1, coloured)
    ensures var s, color := subs[0], SubColor(subs[0], coloured, fg);
            |color| >= 3 &&
            PaintSubrects(data, tile.w, |subs|, coloured, fg, SubsBytes(subs, tile, coloured))
            == PaintSubrects(SubTile(data, tile.w, s.x, s.y, s.w, s.h, color), tile.w, |subs| - 1, coloured, fg,
                             SubsBytes(subs[1..], tile, coloured))
  {
    SubsLength(subs, tile, coloured);
    SubsLength(subs[1..], tile, coloured);
    SubBytesRead(subs[0], tile, coloured, SubsBytes(subs[1..], tile, coloured));
  }

  lemma OverStep(under: (nat, nat) -> Rgb, subs: seq<Sub>, coloured: bool, fg: Option<seq<byte>>, color: seq<byte>, i: nat, j: nat)
    requires subs != [] && |color| >= 3 && color == SubColor(subs[0], coloured, fg)
    ensures OverAll(Painted1(under, subs[0], color), subs[1..], coloured, fg)(i, j) == OverAll(under, subs, coloured, fg)(i, j)
  {
    var mid := Painted1(under, subs[0], color);
    var next := if subs[0].Covers(i, j) then RgbOf(color) else under(i, j);
    assert mid(i, j) == next;
    assert Over(under(i, j), subs, coloured, fg, i, j) == Over(next, subs[1..], coloured, fg, i, j);
  }

  lemma ShowsSame(data: seq<byte>, tile: Rect, f: (nat, nat) -> Rgb, g: (nat, nat) -> Rgb)
    requires Shows(data, tile, f) && forall i: nat, j: nat :: f(i, j) == g(i, j)
    ensures Shows(data, tile, g)
  {
  }

  /** Painting the printed subrectangles in order gives the overlay. */
  lemma {:induction false} SubrectsShow(data: seq<byte>, tile: Rect, under: (nat, nat) -> Rgb,
                                        subs: seq<Sub>, coloured: bool, fg: Option<seq<byte>>)
    requires tile.w <= 16 && tile.h <= 16 && SubsFit(subs, tile, coloured)
    requires Shows(data, tile, under) && ColorOk(fg) && (coloured || subs == [] || fg.Some?)
    ensures |SubsBytes(subs, tile, coloured)| == SubrectBytes(|subs|, coloured)
    ensures var r := PaintSubrects(data, tile.w, |subs|, coloured, fg, SubsBytes(subs, tile, coloured));
            r.Some? && Shows(r.value, tile, OverAll(under, subs, coloured, fg))
    decreases |subs|
  {
    SubsLength(subs, tile, coloured);
    var all := OverAll(under, subs, coloured, fg);
    if subs == [] {
      ShowsSame(data, tile, under, all);
    } else {
      hide Shows, SubsFit, SubFits, SubsBytes, RectSteps.SubTile, PaintSubrects, OverAll, Painted1;
      FirstSubrect(data, tile, subs, coloured, fg);
      var s, color := subs[0], SubColor(subs[0], coloured, fg);
      var next, mid := SubTile(data, tile.w, s.x, s.y, s.w, s.h, color), Painted1(under, s, color);
      StepShows(data, tile, under, subs, coloured, color);
      SubrectsShow(next, tile, mid, subs[1..], coloured, fg);
      forall i: nat, j: nat
        ensures OverAll(mid, subs[1..], coloured, fg)(i, j) == all(i, j)
      {
        OverStep(under, subs, coloured, fg, color, i, j);
      }
      var r := PaintSubrects(next, tile.w, |subs| - 1, coloured, fg, SubsBytes(subs[1..], tile, coloured));
      ShowsSame(r.value, tile, OverAll(mid, subs[1..], coloured, fg), all);
    }
  }

  lemma StepShows(data: seq<byte>, tile: Rect, under: (nat, nat) -> Rgb, subs: seq<Sub>, coloured: bool, color: seq<byte>)
    requires subs != [] && SubsFit(subs, tile, coloured) && Shows(data, tile, under) && |color| >= 3
    ensures var s := subs[0];
            Shows(SubTile(data, tile.w, s.x, s.y, s.w, s.h, color), tile, Painted1(under, s, color))
            && SubsFit(subs[1..], tile, coloured)
  {
    var s := subs[0];
    assert SubFits(s, tile, coloured);
    SubTileShows(data, tile, under, s, color, Painted1(under, s, color));
  }

  // The whole tile.

  lemma SolidShows(tile: Rect, color: seq<byte>, shown: (nat, nat) -> Rgb)
    requires |color| >= 3 && forall i: nat, j: nat :: shown(i, j) == RgbOf(color)
    ensures Shows(Solid(tile.w * tile.h, color), tile, shown)
  {
    var data := Solid(tile.w * tile.h, color);
    forall i: nat, j: nat | i < tile.w && j < tile.h && 4 * PixelIndex(tile.w, i, j) + 3 <= |data|
      ensures PixelOf(data, PixelIndex(tile.w, i, j)) == shown(i, j)
    {
      var p := PixelIndex(tile.w, i, j);
      assert (4 * p) % 4 == 0 && (4 * p + 1) % 4 == 1 && (4 * p + 2) % 4 == 2;
      assert data[4 * p] == Rgba(color)[0] && data[4 * p + 1] == Rgba(color)[1] && data[4 * p + 2] == Rgba(color)[2];
      assert shown(i, j) == RgbOf(color);
    }
  }

  lemma RawShows(tile: Rect, pixels: seq<byte>)
    requires |pixels| == tile.w * tile.h * 4
    ensures Shows(RowPixels(pixels, tile.w * tile.h, false), tile,
                  (i: nat, j: nat) => var p := PixelIndex(tile.w, i, j); if 4 * p + 3 <= |pixels| then PixelOf(pixels, p) else Rgb(0, 0, 0))
  {
    var data := RowPixels(pixels, tile.w * tile.h, false);
    forall i: nat, j: nat | i < tile.w && j < tile.h && 4 * PixelIndex(tile.w, i, j) + 3 <= |data|
      ensures PixelOf(data, PixelIndex(tile.w, i, j)) == PixelOf(pixels, PixelIndex(tile.w, i, j))
    {
      var p := PixelIndex(tile.w, i, j);
      assert (4 * p) % 4 == 0 && (4 * p + 1) % 4 == 1 && (4 * p + 2) % 4 == 2;
    }
  }

  /** The image of a tile, in the coordinates of the screen. */
  function TileImage(known: Colours, tile: Rect, t: Tile): (int, int) -> Rgb {
    (px: int, py: int) =>
      if tile.Contains(px, py) then Meaning(known, tile, t, px - tile.x, py - tile.y) else Rgb(0, 0, 0)
  }

  lemma ShownBlitPaints(known: Colours, tile: Rect, t: Tile, data: seq<byte>, shown: (nat, nat) -> Rgb)
    requires Shows(data, tile, shown)
    requires forall i: nat, j: nat | i < tile.w && j < tile.h :: shown(i, j) == Meaning(known, tile, t, i, j)
    ensures Paints(BlitImage(tile.x, tile.y, tile.w, tile.h, data), tile, TileImage(known, tile, t))
  {
    var image := TileImage(known, tile, t);
    forall px: int, py: int | tile.Contains(px, py)
      ensures var p := PixelIndex(tile.w, px - tile.x, py - tile.y);
              4 * p + 3 <= |data| ==> PixelOf(data, p) == image(px, py)
    {
      var i: nat, j: nat := px - tile.x, py - tile.y;
      assert shown(i, j) == Meaning(known, tile, t, i, j);
    }
    BlitPaints(tile, data, image);
  }

  lemma OverlayShows(tile: Rect, sub: byte, back: seq<byte>, fg: Option<seq<byte>>, overlay: Overlay)
    requires tile.w <= 16 && tile.h <= 16 && |back| >= 3 && ColorOk(fg)
    requires Flag(sub, 3) == overlay.Subrects? && (overlay.Subrects? ==> Flag(sub, 4) == overlay.coloured)
    requires overlay.Subrects? ==> |overlay.subs| < 256 && SubsFit(overlay.subs, tile, overlay.coloured)
                                   && (overlay.coloured || overlay.subs == [] || fg.Some?)
    ensures OverlayBytes(sub, OverlayWire(overlay, tile))
    ensures var r := HexOverlay(tile, sub, back, fg, OverlayWire(overlay, tile));
            var under := (i: nat, j: nat) => RgbOf(back);
            r.Some? && Shows(r.value, tile, if overlay.Subrects? then OverAll(under, overlay.subs, overlay.coloured, fg) else under)
  {
    var under := (i: nat, j: nat) => RgbOf(back);
    SolidShows(tile, back, under);
    if overlay.Subrects? {
      SubsLength(overlay.subs, tile, overlay.coloured);
      var s := OverlayWire(overlay, tile);
      assert s[1..] == SubsBytes(overlay.subs, tile, overlay.coloured);
      SubrectsShow(Solid(tile.w * tile.h, back), tile, under, overlay.subs, overlay.coloured, fg);
    }
  }

  lemma ColouredDecodes(hs: HexState, tile: Rect, t: Tile)
    requires tile.w <= 16 && tile.h <= 16 && HexOk(hs) && t.Coloured? && WellFormed(hs, tile, t) && TileFlags(t) != 0
    ensures HexBudget(tile, TileWire(tile, t)) == Bytes(|TileWire(tile, t)|)
    ensures TileWire(tile, t)[0] == TileFlags(t) && !Flag(TileFlags(t), 0)
    ensures var r := HexColoured(hs, tile, TileWire(tile, t));
            r.Some? && r.value.0 == Remembered(hs, t) && |r.value.1| == 1
            && Paints(r.value.1[0], tile, TileImage(Known(hs), tile, t))
  {
    var s, sub := TileWire(tile, t), TileFlags(t);
    BudgetIsExact(hs, tile, t, []);
    assert s + [] == s;
    FlagsRead(t.bg.Some?, t.fg.Some?, t.overlay.Subrects?, t.overlay.Subrects? && t.overlay.coloured);
    var back, fg := Carry(t.bg, hs.background), Carry(t.fg, hs.foreground);
    WireParts(tile, t);
    OverlayShows(tile, sub, back.value, fg, t.overlay);
    var painted := HexOverlay(tile, sub, back.value, fg, OverlayWire(t.overlay, tile));
    var under := (i: nat, j: nat) => RgbOf(back.value);
    ShownBlitPaints(Known(hs), tile, t, painted.value,
                    if t.overlay.Subrects? then OverAll(under, t.overlay.subs, t.overlay.coloured, fg) else under);
  }

  /** Where the parts of a coloured tile lie. */
  lemma WireParts(tile: Rect, t: Tile)
    requires tile.w <= 16 && tile.h <= 16 && t.Coloured? && ColorOk(t.bg) && ColorOk(t.fg)
    requires t.overlay.Subrects? ==> |t.overlay.subs| < 256 && SubsFit(t.overlay.subs, tile, t.overlay.coloured)
    ensures var s := TileWire(tile, t);
            var at := if t.bg.Some? then 5 else 1;
            var at' := if t.fg.Some? then at + 4 else at;
            && |s| >= at' && s[at'..] == OverlayWire(t.overlay, tile)
            && (t.bg.Some? ==> s[1..5] == t.bg.value) && (t.fg.Some? ==> s[at..at + 4] == t.fg.value)
  {
  }

  /** A well-formed tile, whatever the client remembered: its bytes are drawn as
      one call that paints exactly the tile with exactly its meaning. */
  lemma TileDecodes(hs: HexState, tile: Rect, t: Tile)
    requires tile.w <= 16 && tile.h <= 16 && HexOk(hs) && WellFormed(hs, tile, t)
    ensures HexBudget(tile, TileWire(tile, t)) == Bytes(|TileWire(tile, t)|)
    ensures var r := HexPaint(hs, tile, TileWire(tile, t));
            r.Some? && r.value.0 == Remembered(hs, t) && |r.value.1| == 1
            && Paints(r.value.1[0], tile, TileImage(Known(hs), tile, t))
  {
    var s := TileWire(tile, t);
    BudgetIsExact(hs, tile, t, []);
    assert s + [] == s;
    if t.RawTile? {
      assert s[0] == 1 && Flag(1, 0) && s[1..] == t.pixels;
      RawShows(tile, t.pixels);
      ShownBlitPaints(Known(hs), tile, t, RowPixels(t.pixels, tile.w * tile.h, false),
        (i: nat, j: nat) => var p := PixelIndex(tile.w, i, j); if 4 * p + 3 <= |t.pixels| then PixelOf(t.pixels, p) else Rgb(0, 0, 0));
    } else if TileFlags(t) == 0 {
      BlankPaints(hs, tile, t);
    } else {
      ColouredDecodes(hs, tile, t);
    }
  }

  lemma BlankPaints(hs: HexState, tile: Rect, t: Tile)
    requires tile.w <= 16 && tile.h <= 16 && HexOk(hs) && t.Coloured? && WellFormed(hs, tile, t) && TileFlags(t) == 0
    ensures TileWire(tile, t)[0] == 0
    ensures var r := HexBlank(hs, tile);
            r.Some? && r.value.0 == Remembered(hs, t) && |r.value.1| == 1
            && Paints(r.value.1[0], tile, TileImage(Known(hs), tile, t))
  {
    assert t.bg == None && t.fg == None && t.overlay == NoSubrects;
    var e := FillRect(tile.x, tile.y, tile.w, tile.h, hs.background.value);
    assert HexBlank(hs, tile).value.1 == [e];
  }

  // The whole rectangle.

  /** Well-formed tiles from number i on, each as the previous ones leave things. */
  ghost predicate TilesFit(hs: HexState, r: Rect, i: nat, ts: seq<Tile>)
    decreases |ts|
  {
    i + |ts| == TileCount(r, HEX_TILE) &&
    (ts != [] ==> WellFormed(hs, TileRect(r, HEX_TILE, i), ts[0]) && TilesFit(Remembered(hs, ts[0]), r, i + 1, ts[1..]))
  }

  ghost function TilesWire(hs: HexState, r: Rect, i: nat, ts: seq<Tile>): seq<byte>
    requires TilesFit(hs, r, i, ts)
    decreases |ts|
  {
    if ts == [] then [] else
    TileWire(TileRect(r, HEX_TILE, i), ts[0]) + TilesWire(Remembered(hs, ts[0]), r, i + 1, ts[1..])
  }

  /** The meaning of each tile, in the state the tiles before it leave. */
  ghost function Images(hs: HexState, r: Rect, i: nat, ts: seq<Tile>): (images: seq<(int, int) -> Rgb>)
    requires TilesFit(hs, r, i, ts)
    ensures |images| == |ts|
    decreases |ts|
  {
    if ts == [] then [] else
    [TileImage(Known(hs), TileRect(r, HEX_TILE, i), ts[0])] + Images(Remembered(hs, ts[0]), r, i + 1, ts[1..])
  }

  /** The decoder's steps from tile i to the end of the rectangle. */
  ghost function DecodeFrom(hs: HexState, r: Rect, q: seq<byte>): Option<(HexState, seq<byte>, seq<Event>)>
    requires HexOk(hs) && HexActive(hs, r) && hs.tiles > 0
    decreases hs.tiles
  {
    match HexStep(hs, r, q)
    case Done(next, n, out) => if n <= |q| then Some((next, q[n..], out)) else None
    case Go(next, n, out) =>
      if n > |q| || !(0 < next.tiles < hs.tiles) || !HexOk(next) || !HexActive(next, r) then None else
      (match DecodeFrom(next, r, q[n..])
       case None => None
       case Some((last, rest, more)) => Some((last, rest, out + more)))
    case _ => None
  }

  lemma TileStep(hs: HexState, r: Rect, t: Tile, rest: seq<byte>)
    requires HexOk(hs) && HexActive(hs, r) && hs.tiles > 0
    requires WellFormed(hs, TileRect(r, HEX_TILE, hs.totalTiles - hs.tiles), t)
    ensures var tile := TileRect(r, HEX_TILE, hs.totalTiles - hs.tiles);
            HexBudget(tile, TileWire(tile, t)) == Bytes(|TileWire(tile, t)|)
    ensures var tile := TileRect(r, HEX_TILE, hs.totalTiles - hs.tiles);
            var w := TileWire(tile, t);
            var p := HexPaint(hs, tile, w);
            && p.Some? && |p.value.1| == 1
            && Paints(p.value.1[0], tile, TileImage(Known(hs), tile, t))
            && (w + rest)[|w|..] == rest
            && HexStep(hs, r, w + rest)
               == (var next := Remembered(hs, t).(tiles := hs.tiles - 1);
                   if hs.tiles == 1 then Done(next, |w|, p.value.1) else Go(next, |w|, p.value.1))
  {
    var tile := TileRect(r, HEX_TILE, hs.totalTiles - hs.tiles);
    var w := TileWire(tile, t);
    TileDecodes(hs, tile, t);
    BudgetIsExact(hs, tile, t, rest);
    assert (w + rest)[..|w|] == w;
  }

  /** The call a tile is drawn with. */
  ghost function TileCall(hs: HexState, r: Rect, t: Tile): Event
    requires HexOk(hs) && HexActive(hs, r) && hs.tiles > 0
    requires WellFormed(hs, TileRect(r, HEX_TILE, hs.totalTiles - hs.tiles), t)
  {
    var tile := TileRect(r, HEX_TILE, hs.totalTiles - hs.tiles);
    TileDecodes(hs, tile, t);
    HexPaint(hs, tile, TileWire(tile, t)).value.1[0]
  }

  /** What decoding makes of the tiles' bytes and of what follows them. */
  ghost function Decoding(hs: HexState, r: Rect, ts: seq<Tile>, rest: seq<byte>): Option<(HexState, seq<byte>, seq<Event>)>
    requires HexOk(hs) && HexActive(hs, r) && hs.tiles > 0
    requires TilesFit(hs, r, hs.totalTiles - hs.tiles, ts)
  {
    DecodeFrom(hs, r, TilesWire(hs, r, hs.totalTiles - hs.tiles, ts) + rest)
  }

  function Preceded(e: Event, d: Option<(HexState, seq<byte>, seq<Event>)>): Option<(HexState, seq<byte>, seq<Event>)> {
    if d.Some? then Some((d.value.0, d.value.1, [e] + d.value.2)) else None
  }

  function NextState(hs: HexState, t: Tile): HexState
    requires hs.tiles > 0
  {
    Remembered(hs, t).(tiles := hs.tiles - 1)
  }

  /** One tile off the front of the stream. */
  lemma FirstTile(hs: HexState, r: Rect, ts: seq<Tile>, rest: seq<byte>)
    requires HexOk(hs) && HexActive(hs, r) && hs.tiles > 0
    requires TilesFit(hs, r, hs.totalTiles - hs.tiles, ts)
    ensures ts != [] && WellFormed(hs, TileRect(r, HEX_TILE, hs.totalTiles - hs.tiles), ts[0])
    ensures var next := NextState(hs, ts[0]);
            HexOk(next) && HexActive(next, r) && TilesFit(next, r, hs.totalTiles - hs.tiles + 1, ts[1..])
    ensures var i, next, e := hs.totalTiles - hs.tiles, NextState(hs, ts[0]), TileCall(hs, r, ts[0]);
            && Paints(e, TileRect(r, HEX_TILE, i), Images(hs, r, i, ts)[0])
            && Images(hs, r, i, ts)[1..] == Images(next, r, i + 1, ts[1..])
            && Decoding(hs, r, ts, rest) == Preceded(e, if hs.tiles == 1 then Some((next, rest, [])) else Decoding(next, r, ts[1..], rest))
  {
    hide TileRect, TileCount, CeilDiv, HexStep, HexPaint, HexBudget, TileWire, Paints;
    var i := hs.totalTiles - hs.tiles;
    var tile := TileRect(r, HEX_TILE, i);
    var w, next := TileWire(tile, ts[0]), NextState(hs, ts[0]);
    var later := TilesWire(Remembered(hs, ts[0]), r, i + 1, ts[1..]);
    assert TilesWire(hs, r, i, ts) + rest == w + (later + rest);
    TileStep(hs, r, ts[0], later + rest);
    var e := TileCall(hs, r, ts[0]);
    assert HexPaint(hs, tile, w).value.1 == [e];
    GeometryDoesNotMatter(Remembered(hs, ts[0]), next, r, i + 1, ts[1..]);
    if hs.tiles == 1 {
      assert later + rest == rest && [e] + [] == [e];
    }
  }

  /** Call number k paints tile number i + k with image number k. */
  ghost predicate PaintsAll(es: seq<Event>, r: Rect, i: nat, images: seq<(int, int) -> Rgb>) {
    |es| == |images| && i + |es| == TileCount(r, HEX_TILE) &&
    forall k | 0 <= k < |es| :: Paints(es[k], TileRect(r, HEX_TILE, i + k), images[k])
  }

  lemma PaintsAllCons(e: Event, es: seq<Event>, r: Rect, i: nat, images: seq<(int, int) -> Rgb>)
    requires images != [] && PaintsAll(es, r, i + 1, images[1..])
    requires Paints(e, TileRect(r, HEX_TILE, i), images[0])
    ensures PaintsAll([e] + es, r, i, images)
  {
    hide Paints, TileRect;
    forall k | 0 <= k < |[e] + es|
      ensures Paints(([e] + es)[k], TileRect(r, HEX_TILE, i + k), images[k])
    {
      if k > 0 {
        assert ([e] + es)[k] == es[k - 1] && images[k] == images[1..][k - 1] && i + k == i + 1 + (k - 1);
      }
    }
  }

  /** Decoding takes exactly the bytes of the tiles and makes one call a tile,
      the calls painting the tiles with their meanings. */
  ghost predicate Decodes(hs: HexState, r: Rect, ts: seq<Tile>, rest: seq<byte>)
    requires HexOk(hs) && HexActive(hs, r) && hs.tiles > 0
    requires TilesFit(hs, r, hs.totalTiles - hs.tiles, ts)
  {
    var i, d := hs.totalTiles - hs.tiles, Decoding(hs, r, ts, rest);
    d.Some? && d.value.1 == rest && PaintsAll(d.value.2, r, i, Images(hs, r, i, ts))
  }

  /** Every well-formed rectangle decodes. */
  lemma {:induction false} RectangleDecodes(hs: HexState, r: Rect, ts: seq<Tile>, rest: seq<byte>)
    requires HexOk(hs) && HexActive(hs, r) && hs.tiles > 0
    requires TilesFit(hs, r, hs.totalTiles - hs.tiles, ts)
    ensures Decodes(hs, r, ts, rest)
    decreases hs.tiles
  {
    hide TileRect, TileCount, CeilDiv, Decoding, Images, Paints, TilesFit, TileCall, Remembered;
    var i := hs.totalTiles - hs.tiles;
    FirstTile(hs, r, ts, rest);
    var e, next := TileCall(hs, r, ts[0]), NextState(hs, ts[0]);
    ImagesLength(hs, r, i, ts);
    if hs.tiles == 1 {
      PaintsAllCons(e, [], r, i, Images(hs, r, i, ts));
    } else {
      RectangleDecodes(next, r, ts[1..], rest);
      PaintsAllCons(e, Decoding(next, r, ts[1..], rest).value.2, r, i, Images(hs, r, i, ts));
    }
  }

  lemma ImagesLength(hs: HexState, r: Rect, i: nat, ts: seq<Tile>)
    requires TilesFit(hs, r, i, ts)
    ensures |Images(hs, r, i, ts)| == |ts| && i + |ts| == TileCount(r, HEX_TILE)
  {
  }

  /** When the tiles' meanings are the pieces of one image, the rectangle's calls
      paint that image: every pixel once, and nothing outside. */
  lemma RectanglePaintsImage(hs: HexState, r: Rect, ts: seq<Tile>, rest: seq<byte>, image: (int, int) -> Rgb)
    requires HexOk(hs) && hs.tiles == 0 && r.w > 0 && r.h > 0
    requires TilesFit(hs, r, 0, ts)
    requires forall k, px, py | 0 <= k < |ts| && TileRect(r, HEX_TILE, k).Contains(px, py) ::
               Images(hs, r, 0, ts)[k](px, py) == image(px, py)
    ensures var start := HexStep(hs, r, TilesWire(hs, r, 0, ts) + rest);
            && start.Go? && start.taken == 0 && start.out == []
            && HexOk(start.state) && HexActive(start.state, r) && start.state.tiles > 0
            && var d := DecodeFrom(start.state, r, TilesWire(hs, r, 0, ts) + rest);
               d.Some? && d.value.1 == rest
               && forall px, py :: Painted(d.value.2, px, py) == if r.Contains(px, py) then [image(px, py)] else []
  {
    var total := TileCount(r, HEX_TILE);
    IndexInside(CeilDiv(r.w, HEX_TILE), CeilDiv(r.h, HEX_TILE), 0, 0);
    var next := hs.(tilesX := CeilDiv(r.w, HEX_TILE), totalTiles := total, tiles := total);
    GeometryDoesNotMatter(hs, next, r, 0, ts);
    RectangleDecodes(next, r, ts, rest);
    assert Decoding(next, r, ts, rest) == DecodeFrom(next, r, TilesWire(hs, r, 0, ts) + rest);
    var es := DecodeFrom(next, r, TilesWire(hs, r, 0, ts) + rest).value.2;
    AsOneImage(es, r, Images(hs, r, 0, ts), image);
    TilesPaintImage(r, HEX_TILE, es, image);
  }

  lemma AsOneImage(es: seq<Event>, r: Rect, images: seq<(int, int) -> Rgb>, image: (int, int) -> Rgb)
    requires PaintsAll(es, r, 0, images)
    requires forall k, px, py | 0 <= k < |images| && TileRect(r, HEX_TILE, k).Contains(px, py) ::
               images[k](px, py) == image(px, py)
    ensures forall k | 0 <= k < |es| :: Paints(es[k], TileRect(r, HEX_TILE, k), image)
  {
    forall k | 0 <= k < |es|
      ensures Paints(es[k], TileRect(r, HEX_TILE, k), image)
    {
      assert Paints(es[k], TileRect(r, HEX_TILE, 0 + k), images[k]);
    }
  }

  /** The tile counters play no part in what tiles mean. */
  lemma {:induction false} GeometryDoesNotMatter(hs: HexState, hs': HexState, r: Rect, i: nat, ts: seq<Tile>)
    requires Known(hs) == Known(hs') && hs.lastsubencoding == hs'.lastsubencoding
    ensures TilesFit(hs, r, i, ts) == TilesFit(hs', r, i, ts)
    ensures TilesFit(hs, r, i, ts) ==> TilesWire(hs, r, i, ts) == TilesWire(hs', r, i, ts)
    ensures TilesFit(hs, r, i, ts) ==> Images(hs, r, i, ts) == Images(hs', r, i, ts)
    decreases |ts|
  {
    if ts != [] && i + |ts| == TileCount(r, HEX_TILE) {
      GeometryDoesNotMatter(Remembered(hs, ts[0]), Remembered(hs', ts[0]), r, i + 1, ts[1..]);
    }
  }
}
