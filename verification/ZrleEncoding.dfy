/** Every legal way of writing a ZRLE tile, and that it is read back exactly. */
module ZrleEncoding {
  import opened Bytes
  import opened Zrle

  /** A palette run: one index, written short or with a run length. */
  datatype Entry = Short(index: nat) | Long(index: nat, length: nat) {
    function Length(): nat {
      if Short? then 1 else length
    }
  }

  datatype Run = Run(color: Pixel, length: nat)

  /** A tile as a server may choose to write it. A packed row lists the fields of
      all its bytes: the row's indices, then whatever fills the last byte. */
  datatype Tile =
    | RawTile(px: seq<Pixel>)
    | SolidTile(color: Pixel)
    | PackedTile(pal: seq<Pixel>, rows: seq<seq<nat>>)
    | RunTile(runs: seq<Run>)
    | PaletteRunTile(palette: seq<Pixel>, entries: seq<Entry>)

  ghost predicate AllOpaque(px: seq<Pixel>) {
    forall i | 0 <= i < |px| :: px[i].a == 255
  }

  ghost predicate RowOk(row: seq<nat>, colours: nat, w: nat)
    requires colours <= 16
  {
    var bits := BitsPerPixel(colours);
    |row| == RowBytes(w, bits) * PerByte(bits) && w <= |row|
    && (forall x | 0 <= x < |row| :: row[x] < Pow2(bits))
    && (forall x | 0 <= x < w :: row[x] < colours)
  }

  /** The pixels a tile stands for, row by row. */
  ghost function Pixels(t: Tile, w: nat, h: nat): seq<Pixel>
    requires Legal(t, w, h)
  {
    match t
    case RawTile(px) => px
    case SolidTile(c) => Repeat(c, w * h)
    case PackedTile(pal, rows) => RowPixels(pal, rows, w)
    case RunTile(runs) => RunPixels(runs)
    case PaletteRunTile(pal, entries) => EntryPixels(pal, entries)
  }

  ghost function RowPixels(pal: seq<Pixel>, rows: seq<seq<nat>>, w: nat): seq<Pixel>
    requires |pal| <= 16 && forall y | 0 <= y < |rows| :: RowOk(rows[y], |pal|, w)
  {
    if rows == [] then [] else
    assert RowOk(rows[0], |pal|, w);
    seq(w, x requires 0 <= x < w => pal[rows[0][x]]) + RowPixels(pal, rows[1..], w)
  }

  function RunPixels(runs: seq<Run>): seq<Pixel> {
    if runs == [] then [] else Repeat(runs[0].color, runs[0].length) + RunPixels(runs[1..])
  }

  function EntryPixels(pal: seq<Pixel>, entries: seq<Entry>): seq<Pixel>
    requires forall i | 0 <= i < |entries| :: entries[i].index < |pal|
  {
    if entries == [] then [] else Repeat(pal[entries[0].index], entries[0].Length()) + EntryPixels(pal, entries[1..])
  }

  ghost predicate Legal(t: Tile, w: nat, h: nat) {
    match t
    case RawTile(px) => |px| == w * h && AllOpaque(px)
    case SolidTile(c) => c.a == 255
    case PackedTile(pal, rows) =>
      2 <= |pal| <= 16 && AllOpaque(pal) && |rows| == h && forall y | 0 <= y < h :: RowOk(rows[y], |pal|, w)
    case RunTile(runs) =>
      (forall i | 0 <= i < |runs| :: runs[i].length >= 1 && runs[i].color.a == 255) && |RunPixels(runs)| == w * h
    case PaletteRunTile(pal, entries) =>
      2 <= |pal| <= 127 && AllOpaque(pal)
      && (forall i | 0 <= i < |entries| :: entries[i].index < |pal| && entries[i].Length() >= 1)
      && |EntryPixels(pal, entries)| == w * h
  }

  // The wire form.

  function PixelBytes(px: seq<Pixel>): (r: seq<byte>)
    ensures |r| == 3 * |px|
  {
    if px == [] then [] else [px[0].r, px[0].g, px[0].b] + PixelBytes(px[1..])
  }

  function PackByte(f: seq<nat>, bits: nat): nat
    requires bits in {1, 2, 4} && |f| == PerByte(bits)
  {
    if bits == 1 then f[0] * 128 + f[1] * 64 + f[2] * 32 + f[3] * 16 + f[4] * 8 + f[5] * 4 + f[6] * 2 + f[7]
    else if bits == 2 then f[0] * 64 + f[1] * 16 + f[2] * 4 + f[3]
    else f[0] * 16 + f[1]
  }

  lemma PackByteIsByte(f: seq<nat>, bits: nat)
    requires bits in {1, 2, 4} && |f| == PerByte(bits) && forall k | 0 <= k < |f| :: f[k] < Pow2(bits)
    ensures PackByte(f, bits) < 256
  {
    PowersOfTwo();
  }

  lemma PowersOfTwo()
    ensures Pow2(0) == 1 && Pow2(1) == 2 && Pow2(2) == 4 && Pow2(3) == 8
    ensures Pow2(4) == 16 && Pow2(5) == 32 && Pow2(6) == 64 && Pow2(7) == 128
  {
    assert Pow2(3) == 2 * Pow2(2);
    assert Pow2(5) == 2 * Pow2(4);
    assert Pow2(7) == 2 * Pow2(6);
  }

  lemma WholeBytes(n: nat, m: nat)
    requires m > 0 && n > 0 && n % m == 0
    ensures n >= m && (n - m) % m == 0
  {
    if n < m {
      DivModUnique(n, m, 0, n);
    }
    NextCell(n, m);
  }

  /** A row's fields, packed eight bits at a time. */
  function PackFields(f: seq<nat>, bits: nat): (r: seq<byte>)
    requires bits in {1, 2, 4} && |f| % PerByte(bits) == 0
    requires forall k | 0 <= k < |f| :: f[k] < Pow2(bits)
    ensures |r| * PerByte(bits) == |f|
  {
    var m := PerByte(bits);
    if f == [] then [] else
    WholeBytes(|f|, m);
    PackByteIsByte(f[..m], bits);
    [PackByte(f[..m], bits)] + PackFields(f[m..], bits)
  }

  ghost function RowsBytes(rows: seq<seq<nat>>, colours: nat, w: nat): seq<byte>
    requires colours <= 16 && forall y | 0 <= y < |rows| :: RowOk(rows[y], colours, w)
  {
    if rows == [] then [] else
    RowWhole(rows[0], colours, w);
    PackFields(rows[0], BitsPerPixel(colours)) + RowsBytes(rows[1..], colours, w)
  }

  lemma RowWhole(row: seq<nat>, colours: nat, w: nat)
    requires colours <= 16 && RowOk(row, colours, w)
    ensures |row| % PerByte(BitsPerPixel(colours)) == 0
  {
    var m := PerByte(BitsPerPixel(colours));
    DivModUnique(|row|, m, RowBytes(w, BitsPerPixel(colours)), 0);
  }

  function LengthBytes(n: nat): seq<byte>
    requires n >= 1
  {
    if n <= 255 then [n - 1] else [255] + LengthBytes(n - 255)
  }

  function RunsBytes(runs: seq<Run>): seq<byte>
    requires forall i | 0 <= i < |runs| :: runs[i].length >= 1
  {
    if runs == [] then [] else
    PixelBytes([runs[0].color]) + LengthBytes(runs[0].length) + RunsBytes(runs[1..])
  }

  function EntryBytes(e: Entry): seq<byte>
    requires e.index < 128 && e.Length() >= 1
  {
    if e.Short? then [e.index] else [128 + e.index] + LengthBytes(e.length)
  }

  function EntriesBytes(entries: seq<Entry>): seq<byte>
    requires forall i | 0 <= i < |entries| :: entries[i].index < 128 && entries[i].Length() >= 1
  {
    if entries == [] then [] else EntryBytes(entries[0]) + EntriesBytes(entries[1..])
  }

  ghost function TileBytes(t: Tile, w: nat, h: nat): seq<byte>
    requires Legal(t, w, h)
  {
    match t
    case RawTile(px) => [0] + PixelBytes(px)
    case SolidTile(c) => [1] + PixelBytes([c])
    case PackedTile(pal, rows) => [|pal|] + (PixelBytes(pal) + RowsBytes(rows, |pal|, w))
    case RunTile(runs) => [128] + RunsBytes(runs)
    case PaletteRunTile(pal, entries) => [128 + |pal|] + (PixelBytes(pal) + EntriesBytes(entries))
  }

  // Reading back.

  lemma {:induction false} PixelBytesAt(px: seq<Pixel>, k: nat, rest: seq<byte>)
    requires k < |px| && AllOpaque(px)
    ensures Opaque((PixelBytes(px) + rest)[3 * k..]) == px[k]
  {
    var s := PixelBytes(px) + rest;
    if k > 0 {
      PixelBytesAt(px[1..], k - 1, rest);
      assert s == [px[0].r, px[0].g, px[0].b] + (PixelBytes(px[1..]) + rest);
      assert s[3 * k..] == (PixelBytes(px[1..]) + rest)[3 * (k - 1)..];
    }
  }

  lemma PixelsRead(buf: seq<Pixel>, px: seq<Pixel>, rest: seq<byte>)
    requires |px| <= |buf| && AllOpaque(px)
    ensures ReadPixels(buf, PixelBytes(px) + rest, |px|) == Ok(px + buf[|px|..], rest)
  {
    var s := PixelBytes(px) + rest;
    forall k | 0 <= k < |px|
      ensures Opaque(s[3 * k..]) == px[k]
    {
      PixelBytesAt(px, k, rest);
    }
    assert Expand(s, |px|) == px;
    assert s[3 * |px|..] == rest;
  }

  /** A bit below the digits q of n = q * d + r is the last digit of q. */
  lemma Digit(n: nat, d: nat, q: nat, r: nat, high: nat, base: nat, digit: nat)
    requires d > 0 && base > 0 && n == q * d + r && r < d && q == high * base + digit && digit < base
    ensures n / d % base == digit
  {
    DivModUnique(n, d, q, r);
    DivModUnique(q, base, high, digit);
  }

  lemma Bits8(a: nat, b: nat, c: nat, d: nat, e: nat, f: nat, g: nat, h: nat)
    requires a < 2 && b < 2 && c < 2 && d < 2 && e < 2 && f < 2 && g < 2 && h < 2
    ensures var n := a * 128 + b * 64 + c * 32 + d * 16 + e * 8 + f * 4 + g * 2 + h;
            && n / 128 % 2 == a && n / 64 % 2 == b && n / 32 % 2 == c && n / 16 % 2 == d
            && n / 8 % 2 == e && n / 4 % 2 == f && n / 2 % 2 == g && n / 1 % 2 == h
  {
    var n := a * 128 + b * 64 + c * 32 + d * 16 + e * 8 + f * 4 + g * 2 + h;
    Digit(n, 128, a, b * 64 + c * 32 + d * 16 + e * 8 + f * 4 + g * 2 + h, 0, 2, a);
    Digit(n, 64, a * 2 + b, c * 32 + d * 16 + e * 8 + f * 4 + g * 2 + h, a, 2, b);
    Digit(n, 32, a * 4 + b * 2 + c, d * 16 + e * 8 + f * 4 + g * 2 + h, a * 2 + b, 2, c);
    var q := a * 8 + b * 4 + c * 2 + d;
    Digit(n, 16, q, e * 8 + f * 4 + g * 2 + h, a * 4 + b * 2 + c, 2, d);
    Digit(n, 8, q * 2 + e, f * 4 + g * 2 + h, q, 2, e);
    Digit(n, 4, q * 4 + e * 2 + f, g * 2 + h, q * 2 + e, 2, f);
    Digit(n, 2, q * 8 + e * 4 + f * 2 + g, h, q * 4 + e * 2 + f, 2, g);
    Digit(n, 1, n, 0, q * 8 + e * 4 + f * 2 + g, 2, h);
  }

  lemma Pairs4(a: nat, b: nat, c: nat, d: nat)
    requires a < 4 && b < 4 && c < 4 && d < 4
    ensures var n := a * 64 + b * 16 + c * 4 + d;
            n / 64 % 4 == a && n / 16 % 4 == b && n / 4 % 4 == c && n / 1 % 4 == d
  {
    var n := a * 64 + b * 16 + c * 4 + d;
    Digit(n, 64, a, b * 16 + c * 4 + d, 0, 4, a);
    Digit(n, 16, a * 4 + b, c * 4 + d, a, 4, b);
    Digit(n, 4, a * 16 + b * 4 + c, d, a * 4 + b, 4, c);
    Digit(n, 1, n, 0, a * 16 + b * 4 + c, 4, d);
  }

  lemma Nibbles2(a: nat, b: nat)
    requires a < 16 && b < 16
    ensures var n := a * 16 + b;
            n / 16 % 16 == a && n / 1 % 16 == b
  {
    var n := a * 16 + b;
    Digit(n, 16, a, b, 0, 16, a);
    Digit(n, 1, n, 0, a, 16, b);
  }

  lemma FieldRead(f: seq<nat>, bits: nat, k: nat)
    requires bits in {1, 2, 4} && |f| == PerByte(bits) && k < |f|
    requires forall i | 0 <= i < |f| :: f[i] < Pow2(bits)
    requires PackByte(f, bits) < 256
    ensures Field(PackByte(f, bits), bits, k) == f[k]
  {
    PowersOfTwo();
    if bits == 1 {
      Bits8(f[0], f[1], f[2], f[3], f[4], f[5], f[6], f[7]);
    } else if bits == 2 {
      Pairs4(f[0], f[1], f[2], f[3]);
    } else {
      Nibbles2(f[0], f[1]);
    }
  }

  lemma NextCell(x: nat, m: nat)
    requires 0 < m <= x
    ensures x / m == (x - m) / m + 1 && x % m == (x - m) % m
  {
    var q, k := (x - m) / m, (x - m) % m;
    assert x - m == q * m + k;
    DivModUnique(x, m, q + 1, k);
  }

  lemma {:induction false} FieldsRead(f: seq<nat>, bits: nat, x: nat)
    requires bits in {1, 2, 4} && |f| % PerByte(bits) == 0 && x < |f|
    requires forall k | 0 <= k < |f| :: f[k] < Pow2(bits)
    ensures x / PerByte(bits) < |PackFields(f, bits)|
    ensures PackedIndex(PackFields(f, bits), bits, x) == f[x]
    decreases x
  {
    hide Pow2, Field;
    var m := PerByte(bits);
    if |f| < m {
      DivModUnique(|f|, m, 0, |f|);
    }
    PackByteIsByte(f[..m], bits);
    if x < m {
      DivModUnique(x, m, 0, x);
      FieldRead(f[..m], bits, x);
    } else {
      NextCell(|f|, m);
      NextCell(x, m);
      FieldsRead(f[m..], bits, x - m);
    }
  }

  lemma {:induction false} LengthRead(n: nat, rest: seq<byte>)
    requires n >= 1
    ensures RunLength(LengthBytes(n) + rest) == Ok(n, rest)
  {
    var s := LengthBytes(n) + rest;
    if n <= 255 {
      assert s[1..] == rest;
    } else {
      LengthRead(n - 255, rest);
      assert s[1..] == LengthBytes(n - 255) + rest;
    }
  }

  lemma FirstRun(r: Run, later: seq<byte>)
    requires r.length >= 1 && r.color.a == 255
    ensures var s := PixelBytes([r.color]) + LengthBytes(r.length) + later;
            |s| >= 3 && Opaque(s) == r.color && RunLength(s[3..]) == Ok(r.length, later)
  {
    var p := PixelBytes([r.color]);
    assert p == [r.color.r, r.color.g, r.color.b] + PixelBytes([r.color][1..]);
    assert (p + LengthBytes(r.length) + later)[3..] == LengthBytes(r.length) + later;
    LengthRead(r.length, later);
  }

  lemma {:induction false} RunsRead(runs: seq<Run>, rest: seq<byte>)
    requires forall i | 0 <= i < |runs| :: runs[i].length >= 1 && runs[i].color.a == 255
    ensures PlainRuns(RunsBytes(runs) + rest, |RunPixels(runs)|) == Ok(RunPixels(runs), rest)
    decreases |runs|
  {
    if runs == [] {
      assert RunsBytes(runs) + rest == rest;
    } else {
      var r, later := runs[0], RunsBytes(runs[1..]) + rest;
      assert RunsBytes(runs) + rest == PixelBytes([r.color]) + LengthBytes(r.length) + later;
      FirstRun(r, later);
      RunsRead(runs[1..], rest);
      var px := RunPixels(runs[1..]);
      assert RunPixels(runs) == Repeat(r.color, r.length) + px;
      if px == [] {
        NoPixelsNoRuns(runs[1..]);
        assert later == rest;
        assert Repeat(r.color, r.length) + px == Repeat(r.color, r.length);
      }
    }
  }

  lemma NoPixelsNoRuns(runs: seq<Run>)
    requires RunPixels(runs) == [] && forall i | 0 <= i < |runs| :: runs[i].length >= 1
    ensures runs == []
  {
  }

  lemma EntryRead(e: Entry, later: seq<byte>)
    requires e.index < 128 && e.Length() >= 1
    ensures PaletteEntry(EntryBytes(e) + later) == Ok((e.index, e.Length()), later)
  {
    var s := EntryBytes(e) + later;
    if e.Short? {
      assert s[1..] == later;
    } else {
      LengthRead(e.length, later);
      assert s[1..] == LengthBytes(e.length) + later;
    }
  }

  /** pal is the pixel buffer, of which the palette is the beginning. */
  lemma {:induction false} EntriesRead(pal: seq<Pixel>, palette: seq<Pixel>, entries: seq<Entry>, rest: seq<byte>)
    requires |pal| >= 128 && palette <= pal && |palette| < 128
    requires forall i | 0 <= i < |entries| :: entries[i].index < |palette| && entries[i].Length() >= 1
    ensures var px := EntryPixels(palette, entries);
            PaletteRuns(pal, |palette|, EntriesBytes(entries) + rest, |px|) == Ok(px, rest)
    decreases |entries|
  {
    if entries == [] {
      assert EntriesBytes(entries) + rest == rest;
    } else {
      var e, later := entries[0], EntriesBytes(entries[1..]) + rest;
      assert EntriesBytes(entries) + rest == EntryBytes(e) + later;
      EntryRead(e, later);
      EntriesRead(pal, palette, entries[1..], rest);
      assert pal[e.index] == palette[e.index];
    }
  }

  lemma RowRead(pal: seq<Pixel>, palette: seq<Pixel>, row: seq<nat>, w: nat)
    requires |pal| >= 16 && palette <= pal && |palette| <= 16 && RowOk(row, |palette|, w)
    ensures |row| % PerByte(BitsPerPixel(|palette|)) == 0
    ensures var bits := BitsPerPixel(|palette|);
            var b := PackFields(row, bits);
            |b| == RowBytes(w, bits)
            && PackedRow(pal, b, bits, w) == seq(w, x requires 0 <= x < w => palette[row[x]])
  {
    var bits := BitsPerPixel(|palette|);
    RowWhole(row, |palette|, w);
    var b := PackFields(row, bits);
    UniqueQuotient(PerByte(bits), |b|, 0, RowBytes(w, bits), 0);
    forall x | 0 <= x < w
      ensures PackedRow(pal, b, bits, w)[x] == palette[row[x]]
    {
      FieldsRead(row, bits, x);
      RowHolds(w, bits, x);
      assert pal[row[x]] == palette[row[x]];
    }
  }

  lemma {:induction false} RowsRead(pal: seq<Pixel>, palette: seq<Pixel>, rows: seq<seq<nat>>, w: nat, rest: seq<byte>)
    requires |pal| >= 16 && palette <= pal && |palette| <= 16
    requires forall y | 0 <= y < |rows| :: RowOk(rows[y], |palette|, w)
    ensures PackedRows(pal, RowsBytes(rows, |palette|, w) + rest, BitsPerPixel(|palette|), w, |rows|)
            == Ok(RowPixels(palette, rows, w), rest)
    decreases |rows|
  {
    if rows == [] {
      assert RowsBytes(rows, |palette|, w) + rest == rest;
    } else {
      var bits := BitsPerPixel(|palette|);
      RowRead(pal, palette, rows[0], w);
      var b, later := PackFields(rows[0], bits), RowsBytes(rows[1..], |palette|, w) + rest;
      var s := RowsBytes(rows, |palette|, w) + rest;
      assert s == b + later;
      assert s[..|b|] == b && s[|b|..] == later;
      RowsRead(pal, palette, rows[1..], w, rest);
    }
  }

  lemma {:induction false} RowPixelsLength(pal: seq<Pixel>, rows: seq<seq<nat>>, w: nat)
    requires |pal| <= 16 && forall y | 0 <= y < |rows| :: RowOk(rows[y], |pal|, w)
    ensures |RowPixels(pal, rows, w)| == w * |rows|
  {
    if rows != [] {
      RowPixelsLength(pal, rows[1..], w);
      OneMore(w, |rows|);
      hide RowOk;
    }
  }

  lemma OneMore(w: nat, n: nat)
    ensures w * n == w + w * (n - 1)
  {
  }

  /** The pixels a decoded tile shows. */
  function ShownPixels(shown: Shown, size: nat): seq<Pixel> {
    match shown
    case Plain(c) => Repeat(c, size)
    case Buffer(px) => px
  }

  /** A tile of `size` pixels has been read as px, leaving `rest`. */
  ghost predicate ReadsAs(d: Result<Decoded>, px: seq<Pixel>, size: nat, rest: seq<byte>) {
    |px| == size && d.Ok? && d.rest == rest && ShownPixels(d.value.shown, size) == px && |d.value.buf| == BUFFER_PIXELS
  }

  lemma RawRead(buf: seq<Pixel>, px: seq<Pixel>, rest: seq<byte>)
    requires |px| <= |buf| == BUFFER_PIXELS && AllOpaque(px)
    ensures ReadsAs(DecodeRaw(buf, PixelBytes(px) + rest, |px|), px, |px|, rest)
  {
    PixelsRead(buf, px, rest);
    assert (px + buf[|px|..])[..|px|] == px;
  }

  lemma SolidRead(buf: seq<Pixel>, c: Pixel, size: nat, rest: seq<byte>)
    requires |buf| == BUFFER_PIXELS && c.a == 255
    ensures ReadsAs(DecodeSolid(buf, PixelBytes([c]) + rest), Repeat(c, size), size, rest)
  {
    PixelsRead(buf, [c], rest);
  }

  lemma PackedRead(buf: seq<Pixel>, pal: seq<Pixel>, rows: seq<seq<nat>>, w: nat, rest: seq<byte>)
    requires |buf| == BUFFER_PIXELS && 2 <= |pal| <= 16 && AllOpaque(pal)
    requires forall y | 0 <= y < |rows| :: RowOk(rows[y], |pal|, w)
    ensures ReadsAs(DecodePacked(buf, PixelBytes(pal) + (RowsBytes(rows, |pal|, w) + rest), |pal|, w, |rows|),
                    RowPixels(pal, rows, w), w * |rows|, rest)
  {
    PixelsRead(buf, pal, RowsBytes(rows, |pal|, w) + rest);
    RowsRead(pal + buf[|pal|..], pal, rows, w, rest);
    RowPixelsLength(pal, rows, w);
  }

  lemma PlainRead(buf: seq<Pixel>, runs: seq<Run>, rest: seq<byte>)
    requires |buf| == BUFFER_PIXELS && forall i | 0 <= i < |runs| :: runs[i].length >= 1 && runs[i].color.a == 255
    ensures ReadsAs(DecodeRuns(buf, RunsBytes(runs) + rest, |RunPixels(runs)|), RunPixels(runs), |RunPixels(runs)|, rest)
  {
    RunsRead(runs, rest);
  }

  lemma PaletteRead(buf: seq<Pixel>, pal: seq<Pixel>, entries: seq<Entry>, rest: seq<byte>)
    requires |buf| == BUFFER_PIXELS && |pal| <= 127 && AllOpaque(pal)
    requires forall i | 0 <= i < |entries| :: entries[i].index < |pal| && entries[i].Length() >= 1
    ensures var px := EntryPixels(pal, entries);
            ReadsAs(DecodePaletteRuns(buf, PixelBytes(pal) + (EntriesBytes(entries) + rest), |pal|, |px|), px, |px|, rest)
  {
    PixelsRead(buf, pal, EntriesBytes(entries) + rest);
    EntriesRead(pal + buf[|pal|..], pal, entries, rest);
  }

  lemma Behind(b: byte, body: seq<byte>, rest: seq<byte>)
    ensures ([b] + body + rest)[0] == b && ([b] + body + rest)[1..] == body + rest
  {
  }

  lemma Behind3(b: byte, head: seq<byte>, body: seq<byte>, rest: seq<byte>)
    ensures ([b] + (head + body) + rest)[0] == b && ([b] + (head + body) + rest)[1..] == head + (body + rest)
  {
  }

  /** Whatever the buffers held and whatever follows, a tile is read back as the
      pixels it stands for, and exactly its own bytes are used. */
  lemma TileRoundTrip(buf: seq<Pixel>, t: Tile, w: nat, h: nat, rest: seq<byte>)
    requires |buf| == BUFFER_PIXELS && w * h <= BUFFER_PIXELS && Legal(t, w, h)
    ensures ReadsAs(DecodeTile(buf, TileBytes(t, w, h) + rest, w, h), Pixels(t, w, h), w * h, rest)
  {
    hide ReadsAs, DecodeRaw, DecodeSolid, DecodePacked, DecodeRuns, DecodePaletteRuns, RowOk, AllOpaque;
    hide PixelBytes, RowsBytes, RunsBytes, EntriesBytes, RowPixels, RunPixels, EntryPixels;
    match t
    case RawTile(px) =>
      Behind(0, PixelBytes(px), rest);
      RawRead(buf, px, rest);
    case SolidTile(c) =>
      Behind(1, PixelBytes([c]), rest);
      SolidRead(buf, c, w * h, rest);
    case PackedTile(pal, rows) =>
      Behind3(|pal|, PixelBytes(pal), RowsBytes(rows, |pal|, w), rest);
      PackedRead(buf, pal, rows, w, rest);
    case RunTile(runs) =>
      Behind(128, RunsBytes(runs), rest);
      PlainRead(buf, runs, rest);
    case PaletteRunTile(pal, entries) =>
      Behind3(128 + |pal|, PixelBytes(pal), EntriesBytes(entries), rest);
      PaletteRead(buf, pal, entries, rest);
  }
}
