/** Whole streams of server messages, as printed: the client shows the rectangles of
    every update in order, each on its place, and ends each update with a flip. */
module UpdateStream {
  import opened Bytes
  import opened Tiles
  import opened RectSteps
  import opened Painting
  import opened UpdateLoop
  import opened RunFollowing
  import opened UpdateImage
  import H = HextileImage

  // One rectangle

  ghost function RectWire(c: Conn, r: Drawn): seq<byte>
    requires Fits(c, r)
  {
    Header(r.at, Encoding(r.picture)) + PictureWire(c, r)
  }

  lemma HeaderStepIs(c: Conn, q: seq<byte>)
    requires ConnOk(c) && c.rects > 0 && c.header == None && |q| >= 12
    ensures ConnStep(c, q) == Go(c.(header := Some(HeaderAt(q))), 12, [])
  {
    hide HeaderAt;
  }

  function Headed(c: Conn, r: Drawn): Conn {
    c.(header := Some(RectHeader(r.at, Encoding(r.picture))))
  }

  lemma EncodingBounds(p: Picture)
    ensures -TWO_31 <= Encoding(p) < TWO_31
  {
  }

  /** The header is taken first. */
  lemma HeaderRun(c: Conn, r: Drawn, rest: seq<byte>)
    requires Between(c) && c.rects > 0 && Fits(c, r)
    ensures Reaches(c, RectWire(c, r) + rest, [], Headed(c, r), PictureWire(c, r) + rest)
  {
    assert Printable(r.at);
    hide PictureWire, Reaches, ConnStep, ConnOk, Printable, Encoding, HeaderAt, Header, Fits;
    var q, later := RectWire(c, r) + rest, PictureWire(c, r) + rest;
    Joined(Header(r.at, Encoding(r.picture)), PictureWire(c, r), rest);
    EncodingBounds(r.picture);
    HeaderIsRead(r.at, Encoding(r.picture), later);
    HeaderStepIs(c, q);
    ReachesItself(c, q);
    var none: seq<Event> := [];
    assert none + none == none;
    ReachStep(c, q, [], c, q, Go(Headed(c, r), 12, []));
  }

  lemma {:induction false} EmptyRows(rows: seq<seq<Dot>>, depth8: bool)
    requires forall i | 0 <= i < |rows| :: rows[i] == []
    ensures RowsWire(rows, depth8) == []
  {
    if rows != [] {
      EmptyRows(rows[1..], depth8);
    }
  }

  lemma RowsLength(at: Rect, rows: seq<seq<Dot>>, depth8: bool)
    requires RowsFit(at, rows, depth8)
    ensures |rows| == at.h && forall i | 0 <= i < at.h :: |rows[i]| == at.w
  {
    forall i | 0 <= i < at.h
      ensures |rows[i]| == at.w
    {
      assert RowFits(rows[i], at.w, depth8);
    }
  }

  lemma RawStart(d: Conn, at: Rect, q: seq<byte>)
    requires ConnOk(d) && d.header == Some(RectHeader(at, ENCODING_RAW)) && d.lines == 0
    ensures d.rects > 0
    ensures ConnStep(d, q) == if at.w == 0 || at.h == 0 then FinishRect(d, 0, []) else Go(d.(lines := at.h), 0, [])
  {
    RawStepIs(d, at, q);
  }

  lemma RowsDraw(at: Rect, rows: seq<seq<Dot>>, depth8: bool)
    requires |rows| == at.h && forall i | 0 <= i < |rows| :: |rows[i]| == at.w
    ensures forall i | 0 <= i < |Rows(at, rows, depth8, 0)| :: Draws(Rows(at, rows, depth8, 0)[i])
  {
    hide Line;
  }

  lemma RowsShows(c: Conn, r: Drawn)
    requires Fits(c, r) && r.picture.Dots?
    ensures |r.picture.rows| == r.at.h && forall i | 0 <= i < r.at.h :: |r.picture.rows[i]| == r.at.w
    ensures Shows(c, r, Rows(r.at, r.picture.rows, c.depth8, 0))
    ensures PictureWire(c, r) == RowsWire(r.picture.rows, c.depth8)
  {
    hide RowsFit, Rows, Painted;
    RowsLength(r.at, r.picture.rows, c.depth8);
    RowsDraw(r.at, r.picture.rows, c.depth8);
    forall px, py
      ensures Painted(Rows(r.at, r.picture.rows, c.depth8, 0), px, py) == Strokes(c, r, px, py)
    {
      RowsShow(r.at, r.picture.rows, c.depth8, px, py);
    }
  }

  lemma NoDots(c: Conn, r: Drawn)
    requires Fits(c, r) && r.picture.Dots? && (r.at.w == 0 || r.at.h == 0)
    ensures Shows(c, r, []) && PictureWire(c, r) == []
  {
    RowsLength(r.at, r.picture.rows, c.depth8);
    EmptyRows(r.picture.rows, c.depth8);
    hide RowsFit, RowsWire;
  }

  lemma DotsRun(c: Conn, q0: seq<byte>, d: Conn, at: Rect, rows: seq<seq<Dot>>, rest: seq<byte>)
    requires d.header == Some(RectHeader(at, ENCODING_RAW)) && d.lines == 0 && at.w > 0 && at.h > 0
    requires |rows| == at.h && forall i | 0 <= i < at.h :: |rows[i]| == at.w
    requires Reaches(c, q0, [], d, RowsWire(rows, d.depth8) + rest)
    ensures Completes(c, q0, Rows(at, rows, d.depth8, 0), d, rest)
  {
    hide Reaches, Completes, ConnStep, ConnOk, RowsWire, Rows;
    var q := RowsWire(rows, d.depth8) + rest;
    ReachOk(c, q0, [], d, q);
    RawStart(d, at, q);
    var none: seq<Event> := [];
    assert none + none == none && q[0..] == q;
    ReachStep(c, q0, [], d, q, Go(d.(lines := at.h), 0, []));
    RowsRun(c, q0, [], d.(lines := at.h), at, rows, rest);
    assert [] + Rows(at, rows, d.depth8, 0) == Rows(at, rows, d.depth8, 0);
  }

  lemma NoDotsRun(c: Conn, q0: seq<byte>, d: Conn, at: Rect, rest: seq<byte>)
    requires d.header == Some(RectHeader(at, ENCODING_RAW)) && d.lines == 0 && (at.w == 0 || at.h == 0)
    requires Reaches(c, q0, [], d, rest)
    ensures Completes(c, q0, [], d, rest)
  {
    hide Reaches, Completes, ConnStep, ConnOk;
    ReachOk(c, q0, [], d, rest);
    RawStart(d, at, rest);
    var none: seq<Event> := [];
    assert none + none == none && rest[0..] == rest;
    ReachFinish(c, q0, [], d, rest, d, 0, []);
  }

  lemma DotsShown(c: Conn, r: Drawn, rest: seq<byte>) returns (es: seq<Event>)
    requires Between(c) && c.rects > 0 && Fits(c, r) && r.picture.Dots?
    ensures Shows(c, r, es) && Completes(c, RectWire(c, r) + rest, es, Headed(Kept(c, r), r), rest)
  {
    hide Reaches, Completes, ConnOk, RowsWire, RectWire, PictureWire, Shows, Rows, Fits, RowsFit;
    HeaderRun(c, r, rest);
    RowsShows(c, r);
    if r.at.w == 0 || r.at.h == 0 {
      NoDots(c, r);
      assert PictureWire(c, r) + rest == rest;
      NoDotsRun(c, RectWire(c, r) + rest, Headed(c, r), r.at, rest);
      es := [];
    } else {
      DotsRun(c, RectWire(c, r) + rest, Headed(c, r), r.at, r.picture.rows, rest);
      es := Rows(r.at, r.picture.rows, c.depth8, 0);
    }
  }

  lemma LayersShown(c: Conn, r: Drawn, rest: seq<byte>) returns (es: seq<Event>)
    requires Between(c) && c.rects > 0 && Fits(c, r) && r.picture.Layers?
    ensures Shows(c, r, es) && Completes(c, RectWire(c, r) + rest, es, Headed(Kept(c, r), r), rest)
  {
    var at, ground, extra, layers, d := r.at, r.picture.ground, r.picture.extra, r.picture.layers, Headed(c, r);
    var q0 := RectWire(c, r) + rest;
    HeaderRun(c, r, rest);
    hide Reaches, Completes, ConnOk, LayersFit, LayersWire, LayersAt, RectWire, U32;
    Joined(U32(|layers|) + ColorWire(ground, extra), LayersWire(layers), rest);
    LayeredRun(c, q0, d, at, ground, extra, layers, rest);
    es := [GroundCall(at, ground, extra)] + LayerCalls(at, layers);
    forall px, py
      ensures Painted(es, px, py) == Strokes(c, r, px, py)
    {
      LayeredShows(at, ground, extra, layers, px, py);
    }
  }

  lemma MosaicShown(c: Conn, r: Drawn, rest: seq<byte>) returns (es: seq<Event>)
    requires Between(c) && c.rects > 0 && Fits(c, r) && r.picture.Mosaic?
    ensures Shows(c, r, es) && Completes(c, RectWire(c, r) + rest, es, Headed(Kept(c, r), r), rest)
  {
    HeaderRun(c, r, rest);
    hide Reaches, Completes, ConnOk, MosaicAt, RectWire, HexLast, HexStarted, H.TilesFit, H.TilesWire;
    es := MosaicRun(c, RectWire(c, r) + rest, Headed(c, r), r.at, r.picture.tiles, rest);
  }

  lemma PseudoStepIs(d: Conn, h: RectHeader, q: seq<byte>)
    requires ConnOk(d) && d.header == Some(h) && h.encoding !in {ENCODING_RAW, ENCODING_RRE, ENCODING_HEXTILE}
    ensures d.rects > 0 && ConnStep(d, q) == PseudoRect(d, h)
  {
    hide PseudoRect;
  }

  lemma PseudoShown(c: Conn, r: Drawn, rest: seq<byte>) returns (es: seq<Event>)
    requires Between(c) && c.rects > 0 && Fits(c, r) && (r.picture.NewSize? || r.picture.Notice?)
    ensures Shows(c, r, es) && Completes(c, RectWire(c, r) + rest, es, Headed(Kept(c, r), r), rest)
  {
    var d, q0, q := Headed(c, r), RectWire(c, r) + rest, PictureWire(c, r) + rest;
    HeaderRun(c, r, rest);
    ReachOk(c, q0, [], d, q);
    PseudoStepIs(d, d.header.value, q);
    hide Reaches, Completes, ConnOk, ConnStep, RectWire;
    assert q == rest && q[0..] == q;
    es := if r.picture.Notice? then []
    else [Event.Resize(r.at.w, r.at.h)] + (if c.enabledContinuous then [EnableUpdates(r.at.w, r.at.h)] else []);
    assert [] + es == es;
    ReachFinish(c, q0, [], d, q, Headed(Kept(c, r), r), 0, es);
  }

  /** Every rectangle is shown, from its header to its end. */
  lemma RectShown(c: Conn, r: Drawn, rest: seq<byte>) returns (es: seq<Event>)
    requires Between(c) && c.rects > 0 && Fits(c, r)
    ensures Shows(c, r, es) && Completes(c, RectWire(c, r) + rest, es, Headed(Kept(c, r), r), rest)
  {
    hide Shows, Completes, Between, Fits, RectWire;
    match r.picture
    case Dots(_) => es := DotsShown(c, r, rest);
    case Layers(_, _, _) => es := LayersShown(c, r, rest);
    case Mosaic(_) => es := MosaicShown(c, r, rest);
    case _ => es := PseudoShown(c, r, rest);
  }

  // All rectangles of an update

  /** What the client remembers when a rectangle is done. */
  function Next(c: Conn, r: Drawn): Conn {
    Kept(c, r).(rects := if c.rects > 0 then c.rects - 1 else 0)
  }

  ghost predicate FitAll(c: Conn, rs: seq<Drawn>)
    decreases |rs|
  {
    rs != [] ==> Fits(c, rs[0]) && FitAll(Next(c, rs[0]), rs[1..])
  }

  ghost function RectsWire(c: Conn, rs: seq<Drawn>): seq<byte>
    requires FitAll(c, rs)
    decreases |rs|
  {
    if rs == [] then [] else RectWire(c, rs[0]) + RectsWire(Next(c, rs[0]), rs[1..])
  }

  function AfterAll(c: Conn, rs: seq<Drawn>): Conn
    decreases |rs|
  {
    if rs == [] then c else AfterAll(Next(c, rs[0]), rs[1..])
  }

  /** The calls show the rectangles one after the other. */
  ghost predicate ShowsAll(c: Conn, rs: seq<Drawn>, es: seq<Event>)
    requires FitAll(c, rs)
    decreases |rs|
  {
    if rs == [] then es == [] else
    exists k | 0 <= k <= |es| :: Shows(c, rs[0], es[..k]) && ShowsAll(Next(c, rs[0]), rs[1..], es[k..])
  }

  /** All colours that rectangles put on a point, in order. */
  ghost function StrokesAll(c: Conn, rs: seq<Drawn>, px: int, py: int): seq<Rgb>
    requires FitAll(c, rs)
    decreases |rs|
  {
    if rs == [] then [] else Strokes(c, rs[0], px, py) + StrokesAll(Next(c, rs[0]), rs[1..], px, py)
  }

  lemma ShowsPaints(c: Conn, r: Drawn, es: seq<Event>, px: int, py: int)
    requires Fits(c, r) && Shows(c, r, es)
    ensures Painted(es, px, py) == Strokes(c, r, px, py)
  {
    if r.picture.NewSize? {
      PaintedNowhere(es, px, py);
    }
  }

  lemma ShowsFirst(c: Conn, rs: seq<Drawn>, es: seq<Event>) returns (k: nat)
    requires FitAll(c, rs) && ShowsAll(c, rs, es) && rs != []
    ensures Fits(c, rs[0]) && FitAll(Next(c, rs[0]), rs[1..])
    ensures k <= |es| && Shows(c, rs[0], es[..k]) && ShowsAll(Next(c, rs[0]), rs[1..], es[k..])
  {
    hide Shows, Fits, Next;
    k :| 0 <= k <= |es| && Shows(c, rs[0], es[..k]) && ShowsAll(Next(c, rs[0]), rs[1..], es[k..]);
  }

  lemma StrokesFirst(c: Conn, rs: seq<Drawn>, px: int, py: int)
    requires FitAll(c, rs) && rs != []
    ensures Fits(c, rs[0]) && FitAll(Next(c, rs[0]), rs[1..])
    ensures StrokesAll(c, rs, px, py) == Strokes(c, rs[0], px, py) + StrokesAll(Next(c, rs[0]), rs[1..], px, py)
  {
    hide Strokes, Fits, Next;
  }

  lemma {:induction false} ShowsAllPaints(c: Conn, rs: seq<Drawn>, es: seq<Event>, px: int, py: int)
    requires FitAll(c, rs) && ShowsAll(c, rs, es)
    ensures Painted(es, px, py) == StrokesAll(c, rs, px, py)
    decreases |rs|
  {
    if rs != [] {
      hide Shows, Strokes, Fits, Next, ShowsAll, FitAll, StrokesAll, Painted;
      var k := ShowsFirst(c, rs, es);
      ShowsPaints(c, rs[0], es[..k], px, py);
      ShowsAllPaints(Next(c, rs[0]), rs[1..], es[k..], px, py);
      StrokesFirst(c, rs, px, py);
      PaintedTogether(es[..k], es[k..], px, py);
      assert es[..k] + es[k..] == es;
    }
  }

  lemma ShowsOneMore(c: Conn, rs: seq<Drawn>, first: seq<Event>, more: seq<Event>)
    requires FitAll(c, rs) && rs != [] && Shows(c, rs[0], first) && ShowsAll(Next(c, rs[0]), rs[1..], more)
    ensures ShowsAll(c, rs, first + more)
  {
    hide Shows, Fits, Next;
    var es, k := first + more, |first|;
    assert es[..k] == first && es[k..] == more;
  }

  lemma CompletesReaches(c: Conn, q0: seq<byte>, out: seq<Event>, d: Conn, q: seq<byte>)
    requires Completes(c, q0, out, d, q)
    ensures var e := d.(rects := d.rects - 1, header := None);
            ConnOk(e) && Reaches(c, q0, out + (if d.rects == 1 then EndUpdate(d) else []), e, q)
  {
    hide Run, EndUpdate;
  }

  /** One rectangle, and what follows it. */
  lemma RectThen(c: Conn, r: Drawn, rest: seq<byte>) returns (es: seq<Event>)
    requires Between(c) && c.rects > 0 && Fits(c, r)
    ensures Shows(c, r, es) && Between(Next(c, r))
    ensures Reaches(c, RectWire(c, r) + rest, es + (if c.rects == 1 then EndUpdate(Kept(c, r)) else []), Next(c, r), rest)
  {
    hide Shows, Fits, RectWire, Completes, Reaches, Kept, EndUpdate;
    es := RectShown(c, r, rest);
    KeptRects(c, r);
    CompletesReaches(c, RectWire(c, r) + rest, es, Headed(Kept(c, r), r), rest);
    EndIs(Kept(c, r));
    EndIs(Headed(Kept(c, r), r));
  }

  lemma KeptRects(c: Conn, r: Drawn)
    ensures Kept(c, r).rects == c.rects && Kept(c, r).lines == c.lines && Kept(c, r).subrects == c.subrects
    ensures Kept(c, r).header == c.header && Kept(c, r).depth8 == c.depth8 && Kept(c, r).enabledContinuous == c.enabledContinuous
  {
  }

  lemma ReachBoth(c: Conn, q0: seq<byte>, out: seq<Event>, d: Conn, q: seq<byte>, more: seq<Event>, e: Conn, q': seq<byte>)
    requires Reaches(c, q0, out, d, q) && Reaches(d, q, more, e, q')
    ensures Reaches(c, q0, out + more, e, q')
  {
    AfterTwice(out, more, Run(e, q'));
    hide Run;
  }

  /** What ends an update, if these are all its rectangles. */
  function Ending(c: Conn, rs: seq<Drawn>): seq<Event> {
    if rs != [] && |rs| == c.rects then EndUpdate(AfterAll(c, rs)) else []
  }

  lemma EndingLater(c: Conn, r: Drawn, rs: seq<Drawn>)
    requires |rs| < c.rects
    ensures Ending(c, [r] + rs) == (if c.rects == 1 then EndUpdate(Kept(c, r)) else []) + Ending(Next(c, r), rs)
  {
    assert ([r] + rs)[1..] == rs;
    assert AfterAll(c, [r] + rs) == AfterAll(Next(c, r), rs);
    if rs == [] {
      EndIs(Kept(c, r));
      EndIs(Next(c, r));
    }
    hide Kept, EndUpdate;
  }

  lemma {:induction false} RectsShown(c: Conn, rs: seq<Drawn>, rest: seq<byte>) returns (es: seq<Event>)
    requires Between(c) && |rs| <= c.rects && FitAll(c, rs)
    ensures ShowsAll(c, rs, es) && Between(AfterAll(c, rs)) && AfterAll(c, rs).rects == c.rects - |rs|
    ensures Reaches(c, RectsWire(c, rs) + rest, es + Ending(c, rs), AfterAll(c, rs), rest)
    decreases |rs|
  {
    hide Reaches, Between, Shows, Fits, RectWire, Kept, Ending, EndUpdate;
    if rs == [] {
      es := [];
      NothingEnds(c, rest);
    } else {
      var next, later := Next(c, rs[0]), RectsWire(Next(c, rs[0]), rs[1..]);
      var first := RectThen(c, rs[0], later + rest);
      var more := RectsShown(next, rs[1..], rest);
      es := first + more;
      ShowsOneMore(c, rs, first, more);
      Joined(RectWire(c, rs[0]), later, rest);
      var end := if c.rects == 1 then EndUpdate(Kept(c, rs[0])) else [];
      ReachBoth(c, RectsWire(c, rs) + rest, first + end, next, later + rest, more + Ending(next, rs[1..]), AfterAll(next, rs[1..]), rest);
      EndsOnce(c, rs, first, more);
    }
  }

  lemma NothingEnds(c: Conn, rest: seq<byte>)
    requires Between(c)
    ensures Reaches(c, RectsWire(c, []) + rest, [] + Ending(c, []), AfterAll(c, []), rest)
  {
    var none: seq<Event> := [];
    assert none + none == none && [] + rest == rest;
    ReachesItself(c, rest);
    hide Reaches;
  }

  /** The update ends behind its last rectangle, and not before. */
  lemma EndsOnce(c: Conn, rs: seq<Drawn>, first: seq<Event>, more: seq<Event>)
    requires rs != [] && |rs| <= c.rects && FitAll(c, rs) && ShowsAll(Next(c, rs[0]), rs[1..], more)
    ensures var end := if c.rects == 1 then EndUpdate(Kept(c, rs[0])) else [];
            first + end + (more + Ending(Next(c, rs[0]), rs[1..])) == first + more + Ending(c, rs)
  {
    assert rs == [rs[0]] + rs[1..];
    EndingLater(c, rs[0], rs[1..]);
    if c.rects == 1 {
      assert rs[1..] == [] && more == [];
    }
    hide EndUpdate, Kept, FitAll, Ending;
  }

  // Messages

  datatype Message =
    | Update(pad: byte, rects: seq<Drawn>)
    | OpenUpdate(pad: byte, count: nat, rects: seq<Drawn>, at: Rect)  // cut off by a last rectangle
    | Beep
    | EndOfContinuous

  ghost predicate MessageFits(c: Conn, m: Message) {
    match m
    case Update(_, rs) => |rs| < TWO_16 && FitAll(c.(rects := |rs|), rs)
    case OpenUpdate(_, count, rs, at) => |rs| < count < TWO_16 && FitAll(c.(rects := count), rs) && Printable(at)
    case _ => true
  }

  ghost function MessageWire(c: Conn, m: Message): seq<byte>
    requires MessageFits(c, m)
  {
    match m
    case Update(pad, rs) => [0, pad] + U16(|rs|) + RectsWire(c.(rects := |rs|), rs)
    case OpenUpdate(pad, count, rs, at) => [0, pad] + U16(count) + (RectsWire(c.(rects := count), rs) + Header(at, -224))
    case Beep => [2]
    case EndOfContinuous => [150]
  }

  /** The first end of continuous updates says that there are such; the server sends
      further ones when it stops. */
  function MessageAfter(c: Conn, m: Message): Conn {
    match m
    case Update(_, rs) => AfterAll(c.(rects := |rs|), rs)
    case OpenUpdate(_, count, rs, _) => AfterAll(c.(rects := count), rs).(rects := 0)
    case Beep => c
    case EndOfContinuous => c.(supportsContinuous := true, enabledContinuous := !c.supportsContinuous)
  }

  /** Rectangles, and then the flip and, unless the server goes on by itself, the
      request for the next update. */
  ghost predicate Updates(c: Conn, rs: seq<Drawn>, d: Conn, es: seq<Event>)
    requires FitAll(c, rs)
  {
    var end := [Flip] + (if d.enabledContinuous then [] else [UpdateRequest(d.fbW, d.fbH)]);
    exists calls :: es == calls + end && ShowsAll(c, rs, calls)
  }

  ghost predicate Does(c: Conn, m: Message, es: seq<Event>)
    requires MessageFits(c, m)
  {
    match m
    case Update(_, rs) => Updates(c.(rects := |rs|), rs, MessageAfter(c, m), es)
    case OpenUpdate(_, count, rs, _) => Updates(c.(rects := count), rs, MessageAfter(c, m), es)
    case Beep => es == [Event.Bell]
    case EndOfContinuous => es == if c.supportsContinuous then [] else [EnableUpdates(c.fbW, c.fbH)]
  }

  lemma UpdateHead(c: Conn, pad: byte, n: nat, later: seq<byte>)
    requires Between(c) && c.rects == 0 && n < TWO_16
    ensures Between(c.(rects := n))
    ensures Reaches(c, [0, pad] + U16(n) + later, if n == 0 then EndUpdate(c) else [], c.(rects := n), later)
  {
    var q := [0, pad] + U16(n) + later;
    assert q[2..4] == U16(n) && q[4..] == later;
    BigEndianInverts(n);
    hide U16, BigEndian, EndUpdate;
    assert ConnStep(c, q) == Go(c.(rects := n), 4, if n == 0 then EndUpdate(c) else []);
    ReachesItself(c, q);
    hide ConnStep, Reaches;
    assert [] + EndUpdate(c) == EndUpdate(c);
    ReachStep(c, q, [], c, q, Go(c.(rects := n), 4, if n == 0 then EndUpdate(c) else []));
  }

  lemma EndIs(d: Conn)
    ensures EndUpdate(d) == [Flip] + (if d.enabledContinuous then [] else [UpdateRequest(d.fbW, d.fbH)])
  {
  }

  lemma UpdateShown(c: Conn, pad: byte, rs: seq<Drawn>, rest: seq<byte>) returns (es: seq<Event>)
    requires Between(c) && c.rects == 0 && MessageFits(c, Update(pad, rs))
    ensures var m := Update(pad, rs);
            && Does(c, m, es) && Between(MessageAfter(c, m)) && MessageAfter(c, m).rects == 0
            && Reaches(c, MessageWire(c, m) + rest, es, MessageAfter(c, m), rest)
  {
    var d := c.(rects := |rs|);
    var later := RectsWire(d, rs);
    hide Reaches, Between, ShowsAll, RectsWire, FitAll, EndUpdate, U16;
    UpdateHead(c, pad, |rs|, later + rest);
    Joined([0, pad] + U16(|rs|), later, rest);
    var calls := RectsShown(d, rs, rest);
    EndIs(AfterAll(d, rs));
    var end := EndUpdate(AfterAll(d, rs));
    es := calls + end;
    ReachBoth(c, MessageWire(c, Update(pad, rs)) + rest, if |rs| == 0 then EndUpdate(c) else [], d, later + rest,
              calls + Ending(d, rs), AfterAll(d, rs), rest);
    UpdateEnds(c, rs, calls);
  }

  lemma UpdateEnds(c: Conn, rs: seq<Drawn>, calls: seq<Event>)
    requires c.rects == 0 && FitAll(c.(rects := |rs|), rs) && ShowsAll(c.(rects := |rs|), rs, calls)
    ensures var d := c.(rects := |rs|);
            (if |rs| == 0 then EndUpdate(c) else []) + (calls + Ending(d, rs)) == calls + EndUpdate(AfterAll(d, rs))
  {
    if rs == [] {
      assert calls == [];
    }
    hide FitAll, ShowsAll;
  }

  /** A last rectangle ends the update early. */
  lemma LastRun(c: Conn, at: Rect, rest: seq<byte>)
    requires Between(c) && c.rects > 0 && Printable(at)
    ensures Between(c.(rects := 0))
    ensures Reaches(c, Header(at, -224) + rest, EndUpdate(c), c.(rects := 0), rest)
  {
    hide Reaches, ConnStep, HeaderAt, Header, Printable, EndUpdate;
    var q := Header(at, -224) + rest;
    var d := c.(header := Some(RectHeader(at, -224)));
    HeaderIsRead(at, -224, rest);
    HeaderStepIs(c, q);
    ReachesItself(c, q);
    var none: seq<Event> := [];
    assert none + none == none && rest[0..] == rest;
    ReachStep(c, q, [], c, q, Go(d, 12, []));
    PseudoStepIs(d, RectHeader(at, -224), rest);
    EndIs(c);
    EndIs(d.(rects := 1));
    assert [] + EndUpdate(c) == EndUpdate(c) && none + EndUpdate(c) == EndUpdate(c);
    ReachStep(c, q, [], d, rest, Go(c.(rects := 0), 0, EndUpdate(c)));
  }

  lemma OpenUpdateShown(c: Conn, pad: byte, count: nat, rs: seq<Drawn>, at: Rect, rest: seq<byte>) returns (es: seq<Event>)
    requires Between(c) && c.rects == 0 && MessageFits(c, OpenUpdate(pad, count, rs, at))
    ensures var m := OpenUpdate(pad, count, rs, at);
            && Does(c, m, es) && Between(MessageAfter(c, m)) && MessageAfter(c, m).rects == 0
            && Reaches(c, MessageWire(c, m) + rest, es, MessageAfter(c, m), rest)
  {
    var d := c.(rects := count);
    var drawn, last := RectsWire(d, rs), Header(at, -224);
    hide Reaches, Between, ShowsAll, RectsWire, FitAll, EndUpdate, U16, Printable, Header;
    var q := MessageWire(c, OpenUpdate(pad, count, rs, at)) + rest;
    UpdateHead(c, pad, count, drawn + last + rest);
    Joined([0, pad] + U16(count), drawn + last, rest);
    Joined(drawn, last, rest);
    var calls := RectsShown(d, rs, last + rest);
    var e := AfterAll(d, rs);
    assert Ending(d, rs) == [] && calls + [] == calls && [] + calls == calls;
    ReachBoth(c, q, [], d, drawn + (last + rest), calls, e, last + rest);
    LastRun(e, at, rest);
    ReachBoth(c, q, calls, e, last + rest, EndUpdate(e), e.(rects := 0), rest);
    es := calls + EndUpdate(e);
    EndIs(e);
  }

  lemma BeepShown(c: Conn, m: Message, rest: seq<byte>) returns (es: seq<Event>)
    requires Between(c) && c.rects == 0 && MessageFits(c, m) && (m.Beep? || m.EndOfContinuous?)
    ensures Does(c, m, es) && Between(MessageAfter(c, m)) && MessageAfter(c, m).rects == 0
    ensures Reaches(c, MessageWire(c, m) + rest, es, MessageAfter(c, m), rest)
  {
    var q := MessageWire(c, m) + rest;
    es := if m.Beep? then [Event.Bell] else if c.supportsContinuous then [] else [EnableUpdates(c.fbW, c.fbH)];
    assert q[0] == (if m.Beep? then 2 else 150) && q[1..] == rest;
    assert ConnStep(c, q) == Go(MessageAfter(c, m), 1, es);
    ReachesItself(c, q);
    hide ConnStep, Reaches;
    assert [] + es == es;
    ReachStep(c, q, [], c, q, Go(MessageAfter(c, m), 1, es));
  }

  lemma MessageShown(c: Conn, m: Message, rest: seq<byte>) returns (es: seq<Event>)
    requires Between(c) && c.rects == 0 && MessageFits(c, m)
    ensures Does(c, m, es) && Between(MessageAfter(c, m)) && MessageAfter(c, m).rects == 0
    ensures Reaches(c, MessageWire(c, m) + rest, es, MessageAfter(c, m), rest)
  {
    hide Reaches, Between, Does, MessageWire, MessageFits, MessageAfter;
    match m
    case Update(pad, rs) => es := UpdateShown(c, pad, rs, rest);
    case OpenUpdate(pad, count, rs, at) => es := OpenUpdateShown(c, pad, count, rs, at, rest);
    case _ => es := BeepShown(c, m, rest);
  }

  // Streams of messages

  ghost predicate StreamFits(c: Conn, ms: seq<Message>)
    decreases |ms|
  {
    ms != [] ==> MessageFits(c, ms[0]) && StreamFits(MessageAfter(c, ms[0]), ms[1..])
  }

  ghost function StreamWire(c: Conn, ms: seq<Message>): seq<byte>
    requires StreamFits(c, ms)
    decreases |ms|
  {
    if ms == [] then [] else MessageWire(c, ms[0]) + StreamWire(MessageAfter(c, ms[0]), ms[1..])
  }

  function StreamAfter(c: Conn, ms: seq<Message>): Conn
    decreases |ms|
  {
    if ms == [] then c else StreamAfter(MessageAfter(c, ms[0]), ms[1..])
  }

  /** The client does what the messages say, one after the other. */
  ghost predicate DoesAll(c: Conn, ms: seq<Message>, es: seq<Event>)
    requires StreamFits(c, ms)
    decreases |ms|
  {
    if ms == [] then es == [] else
    exists k | 0 <= k <= |es| :: Does(c, ms[0], es[..k]) && DoesAll(MessageAfter(c, ms[0]), ms[1..], es[k..])
  }

  lemma DoesOneMore(c: Conn, ms: seq<Message>, first: seq<Event>, more: seq<Event>)
    requires StreamFits(c, ms) && ms != [] && Does(c, ms[0], first) && DoesAll(MessageAfter(c, ms[0]), ms[1..], more)
    ensures DoesAll(c, ms, first + more)
  {
    hide Does, MessageFits, MessageAfter;
    var es, k := first + more, |first|;
    assert es[..k] == first && es[k..] == more;
  }

  lemma {:induction false} StreamShown(c: Conn, ms: seq<Message>, rest: seq<byte>) returns (es: seq<Event>)
    requires Between(c) && c.rects == 0 && StreamFits(c, ms)
    ensures DoesAll(c, ms, es) && Between(StreamAfter(c, ms)) && StreamAfter(c, ms).rects == 0
    ensures Reaches(c, StreamWire(c, ms) + rest, es, StreamAfter(c, ms), rest)
    decreases |ms|
  {
    hide Reaches, Between, Does, MessageWire, MessageFits, MessageAfter;
    if ms == [] {
      es := [];
      assert [] + rest == rest;
      BetweenOk(c);
      ReachesItself(c, rest);
    } else {
      var next, later := MessageAfter(c, ms[0]), StreamWire(MessageAfter(c, ms[0]), ms[1..]);
      var first := MessageShown(c, ms[0], later + rest);
      var more := StreamShown(next, ms[1..], rest);
      es := first + more;
      DoesOneMore(c, ms, first, more);
      Joined(MessageWire(c, ms[0]), later, rest);
      ReachBoth(c, StreamWire(c, ms) + rest, first, next, later + rest, more, StreamAfter(next, ms[1..]), rest);
    }
  }

  lemma BetweenOk(c: Conn)
    requires Between(c)
    ensures ConnOk(c)
  {
  }

  /** Every stream of printed messages: the client takes exactly its bytes and does what
      they say, in order. */
  lemma StreamIsShown(c: Conn, ms: seq<Message>)
    requires Between(c) && c.rects == 0 && StreamFits(c, ms)
    ensures var p := Run(c, StreamWire(c, ms));
            p.c == StreamAfter(c, ms) && p.rest == [] && DoesAll(c, ms, p.out)
  {
    var es := StreamShown(c, ms, []);
    var d := StreamAfter(c, ms);
    assert StreamWire(c, ms) + [] == StreamWire(c, ms);
    assert Run(d, []) == Progress(d, [], []);
    assert es + [] == es;
    hide Run, DoesAll, StreamAfter, StreamWire, StreamFits, Between;
  }
}
