/** Tight rectangles as a server prints them, and that the reader takes exactly
    their bytes and finds exactly what they hold. */
module TightWire {
  import opened Bytes
  import opened TightRects

  // Lengths

  /** A length below 2^22: seven low bits a byte, the lowest first, with a mark on
      every byte but the last; the third byte has eight. */
  function Printed(n: nat): (s: seq<byte>)
    requires n < 4194304
    ensures 1 <= |s| <= 3
  {
    if n < 128 then [n]
    else if n < 16384 then [128 + n % 128, n / 128]
    else [128 + n % 128, 128 + n / 128 % 128, n / 16384]
  }

  lemma LengthRead(n: nat, rest: seq<byte>)
    requires n < 4194304 && |Printed(n) + rest| >= 3
    ensures CompactLength(Printed(n) + rest) == (n, |Printed(n)|)
  {
    Low7Of(n % 128);
    Low7Of(n / 128 % 128);
    ThreeDigits(n);
    hide Low7;
  }

  lemma Low7Of(d: nat)
    requires d < 128
    ensures Low7(d) == d && Low7(128 + d) == d
  {
  }

  lemma ThreeDigits(n: nat)
    ensures n == n % 128 + n / 128 * 128
    ensures n / 16384 == n / 128 / 128 && n == n % 128 + n / 128 % 128 * 128 + n / 16384 * 16384
    ensures n < 16384 ==> n / 128 < 128 && n / 128 % 128 == n / 128
    ensures n < 4194304 ==> n / 16384 < 256
  {
    var a := n / 128;
    DivModUnique(n, 16384, a / 128, a % 128 * 128 + n % 128);
    if n < 16384 {
      DivModUnique(a, 128, 0, a);
    }
  }

  /** Data behind their length. */
  function Framed(data: seq<byte>): seq<byte>
    requires |data| < 4194304
  {
    Printed(|data|) + data
  }

  /** Data of any length are taken exactly, once three bytes are there: fewer are
      never looked at, even if they hold everything. */
  lemma DataRead(data: seq<byte>, rest: seq<byte>)
    requires |data| < 4194304
    ensures FetchData(0, Framed(data) + rest)
            == if |Framed(data) + rest| >= 3 then Got(data, rest) else Lacking(0, Framed(data) + rest)
  {
    var p, q := Printed(|data|), Framed(data) + rest;
    if |q| >= 3 {
      assert q == p + (data + rest);
      LengthRead(|data|, data + rest);
      assert q[|p|..] == data + rest;
      hide Printed, CompactLength;
      assert (data + rest)[..|data|] == data && (data + rest)[|data|..] == rest;
    }
  }

  // Rectangles

  datatype Filter = NoFilter | CopyFilter | PaletteFilter(colors: seq<byte>) | GradientFilter

  datatype Content =
    | Solid(color: seq<byte>)
    | Picture(data: seq<byte>)
    | Pixels(filter: Filter, stream: nat, data: seq<byte>)

  /** A rectangle: which of the four streams it resets first, and what it holds. */
  datatype Rectangle = Rectangle(reset0: bool, reset1: bool, reset2: bool, reset3: bool, content: Content)

  /** The size of a body before deflation. */
  function Inflated(filter: Filter, w: nat, h: nat): nat {
    match filter
    case PaletteFilter(colors) => if |colors| <= 6 then (w + 7) / 8 * h else w * h
    case _ => w * h * 3
  }

  predicate Sendable(c: Content, w: nat, h: nat) {
    match c
    case Solid(color) => |color| == 3
    case Picture(data) => |data| < 4194304
    case Pixels(filter, stream, data) =>
      && stream < 4
      && (filter.PaletteFilter? ==> 3 <= |filter.colors| <= 768 && |filter.colors| % 3 == 0)
      && (if Inflated(filter, w, h) < 12 then |data| == Inflated(filter, w, h) else |data| < 4194304)
  }

  function Bit(b: bool, value: nat): nat {
    if b then value else 0
  }

  /** The high half of the control byte. */
  function Kind(c: Content): (k: nat)
    requires c.Pixels? ==> c.stream < 4
    ensures k < 16
  {
    match c
    case Solid(_) => 8
    case Picture(_) => 9
    case Pixels(filter, stream, _) => stream + (if filter.NoFilter? then 0 else 4)
  }

  function Control(r: Rectangle): (b: nat)
    requires r.content.Pixels? ==> r.content.stream < 4
    ensures b < 256
  {
    16 * Kind(r.content) + Bit(r.reset0, 1) + Bit(r.reset1, 2) + Bit(r.reset2, 4) + Bit(r.reset3, 8)
  }

  function FilterBytes(filter: Filter): seq<byte>
    requires filter.PaletteFilter? ==> 3 <= |filter.colors| <= 768
  {
    match filter
    case NoFilter => []
    case CopyFilter => [0]
    case PaletteFilter(colors) => [1, |colors| / 3 - 1] + colors
    case GradientFilter => [2]
  }

  function BodyBytes(filter: Filter, data: seq<byte>, w: nat, h: nat): seq<byte>
    requires |data| < 4194304
  {
    if Inflated(filter, w, h) < 12 then data else Framed(data)
  }

  function ContentBytes(c: Content, w: nat, h: nat): seq<byte>
    requires Sendable(c, w, h)
  {
    match c
    case Solid(color) => color
    case Picture(data) => Framed(data)
    case Pixels(filter, _, data) => FilterBytes(filter) + BodyBytes(filter, data, w, h)
  }

  function Wire(r: Rectangle, w: nat, h: nat): seq<byte>
    requires Sendable(r.content, w, h)
  {
    [Control(r)] + ContentBytes(r.content, w, h)
  }

  /** Data behind a length are not looked at before three bytes are there. */
  predicate Ready(c: Content, w: nat, h: nat, rest: seq<byte>)
    requires Sendable(c, w, h)
  {
    match c
    case Solid(_) => true
    case Picture(data) => |Framed(data) + rest| >= 3
    case Pixels(filter, _, data) => Inflated(filter, w, h) >= 12 ==> |Framed(data) + rest| >= 3
  }

  function ResetsOf(r: Rectangle): seq<Out> {
    (if r.reset0 then [Reset(0)] else []) + (if r.reset1 then [Reset(1)] else [])
    + (if r.reset2 then [Reset(2)] else []) + (if r.reset3 then [Reset(3)] else [])
  }

  function FilterNumber(filter: Filter): nat {
    match filter
    case NoFilter => 0
    case CopyFilter => 0
    case PaletteFilter(_) => 1
    case GradientFilter => 2
  }

  function ColorsOf(filter: Filter): nat {
    if filter.PaletteFilter? then |filter.colors| / 3 else 0
  }

  /** What is drawn: nothing at all for a body of no size. */
  ghost predicate Draws(out: seq<Out>, c: Content, w: nat, h: nat, palette: seq<byte>) {
    match c
    case Solid(color) => out == [Fill(color)]
    case Picture(data) => out == [Jpeg(data)]
    case Pixels(filter, stream, data) =>
      var size := Inflated(filter, w, h);
      if size == 0 then out == [] else
      && |out| == 1 && out[0].Basic?
      && out[0].filter == FilterNumber(filter) && out[0].stream == stream && out[0].data == data
      && out[0].deflated == (size >= 12) && out[0].numColors == ColorsOf(filter) && out[0].palette == palette
  }

  // The control byte

  lemma ControlRead(r: Rectangle)
    requires r.content.Pixels? ==> r.content.stream < 4
    ensures Resets(Control(r), 4) == ResetsOf(r) && Control(r) / 16 == Kind(r.content)
  {
    hide Kind, Bit, Resets, ResetsOf, Shifted;
    NibbleBits(Kind(r.content), r.reset0, r.reset1, r.reset2, r.reset3);
    ResetsAre(Control(r), r);
  }

  lemma ResetsAre(b: nat, r: Rectangle)
    requires (Shifted(b, 0) % 2 == 1 <==> r.reset0) && (Shifted(b, 1) % 2 == 1 <==> r.reset1)
    requires (Shifted(b, 2) % 2 == 1 <==> r.reset2) && (Shifted(b, 3) % 2 == 1 <==> r.reset3)
    ensures Resets(b, 4) == ResetsOf(r)
  {
    hide Shifted;
    assert Resets(b, 1) == [] + (if r.reset0 then [Reset(0)] else []);
    assert [] + (if r.reset0 then [Reset(0)] else []) == if r.reset0 then [Reset(0)] else [];
    assert Resets(b, 3) == Resets(b, 2) + (if r.reset2 then [Reset(2)] else []);
  }

  lemma HalfOf(n: nat, b: bool)
    ensures (2 * n + Bit(b, 1)) / 2 == n && ((2 * n + Bit(b, 1)) % 2 == 1 <==> b)
  {
  }

  lemma NibbleBits(high: nat, b0: bool, b1: bool, b2: bool, b3: bool)
    ensures var b := 16 * high + Bit(b0, 1) + Bit(b1, 2) + Bit(b2, 4) + Bit(b3, 8);
            && b / 16 == high
            && (Shifted(b, 0) % 2 == 1 <==> b0) && (Shifted(b, 1) % 2 == 1 <==> b1)
            && (Shifted(b, 2) % 2 == 1 <==> b2) && (Shifted(b, 3) % 2 == 1 <==> b3)
  {
    var d := 2 * high + Bit(b3, 1);
    var c := 2 * d + Bit(b2, 1);
    var a := 2 * c + Bit(b1, 1);
    var b := 2 * a + Bit(b0, 1);
    assert b == 16 * high + Bit(b0, 1) + Bit(b1, 2) + Bit(b2, 4) + Bit(b3, 8);
    DivModUnique(b, 16, high, b - 16 * high);
    HalfOf(a, b0);
    HalfOf(c, b1);
    HalfOf(d, b2);
    HalfOf(high, b3);
    hide Bit;
    ShiftedBy(b, 0);
    ShiftedBy(b, 1);
    ShiftedBy(b, 2);
    hide Shifted;
    assert Shifted(b, 1) == a && Shifted(b, 2) == c && Shifted(b, 3) == d;
  }

  lemma ShiftedBy(b: nat, i: nat)
    ensures Shifted(b, 0) == b && Shifted(b, i + 1) == Shifted(b, i) / 2
  {
  }

  lemma StreamRead(stream: nat)
    requires stream < 4
    ensures StreamOf(stream) == stream && StreamOf(stream + 4) == stream
    ensures !HasBit2(stream) && HasBit2(stream + 4)
  {
  }

  // The parts of a rectangle

  /** The body, with everything before it read. */
  lemma BodyRead(filter: Filter, ctl: nat, data: seq<byte>, palette: seq<byte>, w: nat, h: nat, rest: seq<byte>)
    requires ctl < 8 && Sendable(Pixels(filter, StreamOf(ctl), data), w, h)
    requires Ready(Pixels(filter, StreamOf(ctl), data), w, h, rest)
    ensures var m := Marks(Some(ctl), Some(FilterNumber(filter)), ColorsOf(filter), palette, 0);
            var size := Inflated(filter, w, h);
            && InBody(m) && BodySize(m, w, h) == size
            && TightCall(m, BodyBytes(filter, data, w, h) + rest, w, h) ==
                 if size == 0 then Ends(m.(ctl := None, filter := None), rest, [])
                 else Ends(Marks(None, None, 0, palette, 0), rest,
                           [Basic(FilterNumber(filter), ColorsOf(filter), palette, StreamOf(ctl), size >= 12, data)])
  {
    var m := Marks(Some(ctl), Some(FilterNumber(filter)), ColorsOf(filter), palette, 0);
    SizeIs(filter, ctl, palette, w, h);
    var size, q := Inflated(filter, w, h), BodyBytes(filter, data, w, h) + rest;
    BodyCall(m, q, w, h);
    hide TightCall, StreamOf, BodySize, Inflated, FetchData;
    if size >= 12 {
      DataRead(data, rest);
    } else {
      assert q[..size] == data && q[size..] == rest;
    }
  }

  lemma SizeIs(filter: Filter, ctl: nat, palette: seq<byte>, w: nat, h: nat)
    requires filter.PaletteFilter? ==> 3 <= |filter.colors| <= 768 && |filter.colors| % 3 == 0
    ensures var m := Marks(Some(ctl), Some(FilterNumber(filter)), ColorsOf(filter), palette, 0);
            BodySize(m, w, h) == Inflated(filter, w, h)
  {
    if filter.PaletteFilter? {
      assert |filter.colors| / 3 <= 2 <==> |filter.colors| <= 6;
      assert (w * 8 + 7) / 8 == w;
    }
  }

  function PaletteAfter(palette: seq<byte>, filter: Filter): seq<byte> {
    if filter.PaletteFilter? then Overwrite(palette, filter.colors) else palette
  }

  /** The new palette begins with the colours sent. */
  lemma PaletteBegins(palette: seq<byte>, colors: seq<byte>)
    ensures var p := Overwrite(palette, colors);
            && |p| >= |colors| && p[..|colors|] == colors
            && (|palette| >= |colors| ==> |p| == |palette| && p[|colors|..] == palette[|colors|..])
  {
  }

  /** From the filter on. */
  lemma FilterRead(filter: Filter, ctl: nat, palette: seq<byte>, w: nat, h: nat, later: seq<byte>)
    requires filter.PaletteFilter? ==> 3 <= |filter.colors| <= 768 && |filter.colors| % 3 == 0
    requires ctl < 8 && (HasBit2(ctl) <==> !filter.NoFilter?)
    ensures var m := Marks(Some(ctl), Some(FilterNumber(filter)), ColorsOf(filter), PaletteAfter(palette, filter), 0);
            TightCall(Marks(Some(ctl), None, 0, palette, 0), FilterBytes(filter) + later, w, h) == TightCall(m, later, w, h)
  {
    hide TightCall, HasBit2, Overwrite, FilterBytes, PaletteStep;
    FilterCall(Marks(Some(ctl), None, 0, palette, 0), FilterBytes(filter) + later, w, h);
    FilterParts(filter, later);
    if filter.PaletteFilter? {
      PaletteRead(filter.colors, ctl, palette, w, h, later);
    }
  }

  lemma FilterParts(filter: Filter, later: seq<byte>)
    requires filter.PaletteFilter? ==> 3 <= |filter.colors| <= 768 && |filter.colors| % 3 == 0
    ensures var q := FilterBytes(filter) + later;
            if filter.NoFilter? then q == later else
            && q != [] && q[0] == FilterNumber(filter)
            && q[1..] == if filter.PaletteFilter? then [|filter.colors| / 3 - 1] + filter.colors + later else later
  {
    var q := FilterBytes(filter) + later;
    if filter.PaletteFilter? {
      assert q[1..] == [|filter.colors| / 3 - 1] + filter.colors + later;
    }
  }

  lemma PaletteRead(colors: seq<byte>, ctl: nat, palette: seq<byte>, w: nat, h: nat, later: seq<byte>)
    requires 3 <= |colors| <= 768 && |colors| % 3 == 0 && ctl < 8
    ensures TightCall(Marks(Some(ctl), Some(1), 0, palette, 0), [|colors| / 3 - 1] + colors + later, w, h)
            == TightCall(Marks(Some(ctl), Some(1), |colors| / 3, Overwrite(palette, colors), 0), later, w, h)
  {
    hide TightCall, Overwrite;
    var m, q := Marks(Some(ctl), Some(1), 0, palette, 0), [|colors| / 3 - 1] + colors + later;
    PaletteCall(m, q, w, h);
    assert q[1..1 + |colors|] == colors && q[1 + |colors|..] == later;
  }

  // Whole rectangles

  lemma PixelsRead(filter: Filter, stream: nat, data: seq<byte>, palette: seq<byte>, w: nat, h: nat, rest: seq<byte>)
    requires Sendable(Pixels(filter, stream, data), w, h) && Ready(Pixels(filter, stream, data), w, h, rest)
    ensures var c := Pixels(filter, stream, data);
            var ctl := stream + (if filter.NoFilter? then 0 else 4);
            var call := TightCall(Marks(Some(ctl), None, 0, palette, 0), ContentBytes(c, w, h) + rest, w, h);
            && call.Ends? && call.rest == rest && Draws(call.out, c, w, h, PaletteAfter(palette, filter))
            && call.marks == Marks(None, None, if Inflated(filter, w, h) == 0 then ColorsOf(filter) else 0, PaletteAfter(palette, filter), 0)
  {
    var ctl := stream + (if filter.NoFilter? then 0 else 4);
    StreamRead(stream);
    hide TightCall, HasBit2, StreamOf, FilterBytes, BodyBytes, Inflated, PaletteAfter, Framed;
    var later := BodyBytes(filter, data, w, h) + rest;
    assert FilterBytes(filter) + BodyBytes(filter, data, w, h) + rest == FilterBytes(filter) + later;
    FilterRead(filter, ctl, palette, w, h, later);
    BodyRead(filter, ctl, data, PaletteAfter(palette, filter), w, h, rest);
  }

  lemma OthersRead(c: Content, palette: seq<byte>, w: nat, h: nat, rest: seq<byte>)
    requires !c.Pixels? && Sendable(c, w, h) && Ready(c, w, h, rest)
    ensures var call := TightCall(Marks(Some(if c.Solid? then 8 else 9), None, 0, palette, 0), ContentBytes(c, w, h) + rest, w, h);
            && call.Ends? && call.rest == rest && Draws(call.out, c, w, h, palette)
            && call.marks == Marks(None, None, 0, palette, 0)
  {
    var q := ContentBytes(c, w, h) + rest;
    OtherCall(Marks(Some(if c.Solid? then 8 else 9), None, 0, palette, 0), q, w, h);
    hide TightCall, FetchData, Framed;
    if c.Solid? {
      assert q[..3] == c.color && q[3..] == rest;
    } else {
      DataRead(c.data, rest);
    }
  }

  /** From cleared markers, the reader ends every printed rectangle with exactly its
      resets and its drawing, and takes exactly its bytes. The marker of a palette
      stays set if the rectangle has no pixels. */
  lemma RectangleRead(r: Rectangle, palette: seq<byte>, w: nat, h: nat, rest: seq<byte>)
    requires Sendable(r.content, w, h) && Ready(r.content, w, h, rest)
    ensures var call := TightCall(Marks(None, None, 0, palette, 0), Wire(r, w, h) + rest, w, h);
            var filter := if r.content.Pixels? then r.content.filter else NoFilter;
            && call.Ends? && call.rest == rest
            && |ResetsOf(r)| <= |call.out| && call.out[..|ResetsOf(r)|] == ResetsOf(r)
            && Draws(call.out[|ResetsOf(r)|..], r.content, w, h, PaletteAfter(palette, filter))
            && call.marks == Marks(None, None, if r.content.Pixels? && Inflated(filter, w, h) == 0 then ColorsOf(filter) else 0,
                                   PaletteAfter(palette, filter), 0)
  {
    hide TightCall, Resets, ResetsOf, ContentBytes, Inflated, Draws, Control, Ready, PaletteAfter, After;
    var q, c := Wire(r, w, h) + rest, r.content;
    WireParts(r, w, h, rest);
    ControlCall(Marks(None, None, 0, palette, 0), q, w, h);
    ControlRead(r);
    var call := TightCall(Marks(Some(Kind(c)), None, 0, palette, 0), q[1..], w, h);
    NoPalette(palette);
    match c {
      case Pixels(filter, stream, data) => PixelsRead(filter, stream, data, palette, w, h, rest);
      case _ => OthersRead(c, palette, w, h, rest);
    }
    AfterParts(ResetsOf(r), call);
  }

  lemma NoPalette(palette: seq<byte>)
    ensures PaletteAfter(palette, NoFilter) == palette
  {
  }

  lemma WireParts(r: Rectangle, w: nat, h: nat, rest: seq<byte>)
    requires Sendable(r.content, w, h)
    ensures var q := Wire(r, w, h) + rest; q != [] && q[0] == Control(r) && q[1..] == ContentBytes(r.content, w, h) + rest
  {
    hide Control, ContentBytes;
  }

  lemma AfterParts(out: seq<Out>, c: Call)
    requires c.Ends?
    ensures var all := After(out, c);
            && all.Ends? && all.marks == c.marks && all.rest == c.rest
            && |out| <= |all.out| && all.out[..|out|] == out && all.out[|out|..] == c.out
  {
  }

  lemma BodyWaits(filter: Filter, ctl: nat, data: seq<byte>, palette: seq<byte>, w: nat, h: nat, rest: seq<byte>)
    requires ctl < 8 && Sendable(Pixels(filter, StreamOf(ctl), data), w, h)
    requires !Ready(Pixels(filter, StreamOf(ctl), data), w, h, rest)
    ensures var m := Marks(Some(ctl), Some(FilterNumber(filter)), ColorsOf(filter), palette, 0);
            TightCall(m, BodyBytes(filter, data, w, h) + rest, w, h).Waits?
  {
    var m := Marks(Some(ctl), Some(FilterNumber(filter)), ColorsOf(filter), palette, 0);
    SizeIs(filter, ctl, palette, w, h);
    BodyCall(m, BodyBytes(filter, data, w, h) + rest, w, h);
    hide TightCall, StreamOf, BodySize, Inflated, FetchData;
    DataRead(data, rest);
  }

  lemma ContentWaits(c: Content, palette: seq<byte>, w: nat, h: nat, rest: seq<byte>)
    requires Sendable(c, w, h) && !Ready(c, w, h, rest)
    ensures TightCall(Marks(Some(Kind(c)), None, 0, palette, 0), ContentBytes(c, w, h) + rest, w, h).Waits?
  {
    if c.Picture? {
      OtherCall(Marks(Some(9), None, 0, palette, 0), Framed(c.data) + rest, w, h);
      hide TightCall, FetchData, Framed;
      DataRead(c.data, rest);
    } else {
      var filter, ctl := c.filter, Kind(c);
      StreamRead(c.stream);
      hide TightCall, HasBit2, StreamOf, FilterBytes, BodyBytes, Inflated, PaletteAfter, Framed;
      var later := BodyBytes(filter, c.data, w, h) + rest;
      assert FilterBytes(filter) + BodyBytes(filter, c.data, w, h) + rest == FilterBytes(filter) + later;
      FilterRead(filter, ctl, palette, w, h, later);
      BodyWaits(filter, ctl, c.data, PaletteAfter(palette, filter), w, h, rest);
    }
  }

  /** A rectangle all of whose bytes are there is complete, unless it ends with a
      length and data that are less than three bytes together: that waits for a byte
      of what follows. */
  lemma EndsExactlyWhenReady(r: Rectangle, palette: seq<byte>, w: nat, h: nat, rest: seq<byte>)
    requires Sendable(r.content, w, h)
    ensures TightCall(Marks(None, None, 0, palette, 0), Wire(r, w, h) + rest, w, h).Ends? <==> Ready(r.content, w, h, rest)
  {
    hide TightCall, Resets, ResetsOf, ContentBytes, Inflated, Draws, Control, Ready, PaletteAfter;
    if Ready(r.content, w, h, rest) {
      RectangleRead(r, palette, w, h, rest);
    } else {
      var q := Wire(r, w, h) + rest;
      WireParts(r, w, h, rest);
      ControlCall(Marks(None, None, 0, palette, 0), q, w, h);
      ControlRead(r);
      ContentWaits(r.content, palette, w, h, rest);
    }
  }
}
