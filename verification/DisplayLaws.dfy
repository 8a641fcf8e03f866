/** What the display's operations do, told by positions, sizes and pixels: where
    the viewport goes, how large it becomes, and what each drawing leaves. */
module DisplayLaws {
  import opened Bytes
  import opened Painting
  import opened DisplayView
  import opened DisplayRuns

  // Moving

  /** With clipping the viewport goes where it is asked to go, or to the nearer
      edge of the framebuffer. Without, it goes its own size up and left. */
  ghost predicate Goes(v: View, dx: int, dy: int, t: View) {
    && (v.clip ==> Nearest(t.x, v.x + dx, v.fbW - v.w) && Nearest(t.y, v.y + dy, v.fbH - v.h))
    && (!v.clip ==> Nearest(t.x, v.x - v.w, v.fbW - v.w) && Nearest(t.y, v.y - v.h, v.fbH - v.h))
  }

  /** A move changes the place and nothing else of the geometry or of what is drawn. */
  ghost predicate SameBut(v: View, t: View) {
    t.fbW == v.fbW && t.fbH == v.fbH && t.w == v.w && t.h == v.h && t.clip == v.clip && t.back == v.back
  }

  lemma MoveGoes(s: State, dx: int, dy: int)
    requires s.view.w <= s.view.fbW && s.view.h <= s.view.fbH
    ensures var t := ChangePos(s, dx, dy).view; Goes(s.view, dx, dy, t) && SameBut(s.view, t)
  {
  }

  /** With clipping, two moves that stay inside are one move by the sum. */
  lemma MovesAdd(s: State, dx: int, dy: int, dx': int, dy': int)
    requires s.view.Placed() && s.view.clip
    requires 0 <= s.view.x + dx <= s.view.fbW - s.view.w && 0 <= s.view.y + dy <= s.view.fbH - s.view.h
    requires 0 <= s.view.x + dx + dx' <= s.view.fbW - s.view.w && 0 <= s.view.y + dy + dy' <= s.view.fbH - s.view.h
    ensures var twice, once := ChangePos(ChangePos(s, dx, dy), dx', dy').view, ChangePos(s, dx + dx', dy + dy').view;
            twice.x == once.x == s.view.x + dx + dx' && twice.y == once.y == s.view.y + dy + dy'
  {
    MoveGoes(s, dx, dy);
    MoveGoes(ChangePos(s, dx, dy), dx', dy');
    MoveGoes(s, dx + dx', dy + dy');
    hide ChangePos;
  }

  /** Moving there and back again, if there is room. */
  lemma MoveBack(s: State, dx: int, dy: int)
    requires s.view.Placed() && s.view.clip
    requires 0 <= s.view.x + dx <= s.view.fbW - s.view.w && 0 <= s.view.y + dy <= s.view.fbH - s.view.h
    ensures var t := ChangePos(ChangePos(s, dx, dy), -dx, -dy).view; t.x == s.view.x && t.y == s.view.y
  {
    MovesAdd(s, dx, dy, -dx, -dy);
    MoveGoes(s, 0, 0);
    hide ChangePos;
  }

  // Sizes

  /** The size asked for as far as there is room, or all there is. */
  ghost predicate Fits(w: nat, wanted: Option<nat>, most: nat) {
    w == if wanted.Some? && wanted.value <= most then wanted.value else most
  }

  lemma RefreshKeeps(s: State)
    ensures var t := Refresh(s).view; SameBut(s.view, t) && t.x == s.view.x && t.y == s.view.y && t.target.w == s.view.target.w && t.target.h == s.view.target.h
  {
  }

  lemma MoveKeepsTarget(s: State, dx: int, dy: int)
    ensures var t := ChangePos(s, dx, dy).view; t.target.w == s.view.target.w && t.target.h == s.view.target.h
  {
  }

  /** A new size blanks the target. */
  ghost predicate Sized(v: View, t: View) {
    && t.fbW == v.fbW && t.fbH == v.fbH && t.clip == v.clip && t.back == v.back
    && (t.w == v.w && t.h == v.h ==> t == v)
    && (t.w != v.w || t.h != v.h ==> Goes(v.(w := t.w, h := t.h), 0, 0, t) && t.target.w == t.w && t.target.h == t.h)
  }

  lemma SizeBecomes(s: State, size: Option<(nat, nat)>)
    ensures var v, t := s.view, ChangeSize(s, size).view;
            && Fits(t.w, if v.clip && size.Some? then Some(size.value.0) else None, v.fbW)
            && Fits(t.h, if v.clip && size.Some? then Some(size.value.1) else None, v.fbH)
            && Sized(v, t)
  {
    var w, h := WantedWidth(s.view, size), WantedHeight(s.view, size);
    if w != s.view.w || h != s.view.h {
      NewSizeBecomes(s, w, h);
    }
    hide ChangePos, Refresh, Sized;
  }

  lemma NewSizeBecomes(s: State, w: nat, h: nat)
    requires w <= s.view.fbW && h <= s.view.fbH && (w != s.view.w || h != s.view.h)
    ensures var t := Refresh(ChangePos(s.(view := Blank(s.view, w, h)), 0, 0)).view; t.w == w && t.h == h && Sized(s.view, t)
  {
    hide ChangePos, Refresh;
    var blank := s.(view := Blank(s.view, w, h));
    MoveGoes(blank, 0, 0);
    MoveKeepsTarget(blank, 0, 0);
    RefreshKeeps(ChangePos(blank, 0, 0));
  }

  /** Readjusting keeps as much of the size as there is room for, and then the
      place that is nearest. */
  lemma ReadjustBecomes(s: State)
    ensures var v, t := s.view, Readjust(s).view;
            && Fits(t.w, if v.clip then Some(v.w) else None, v.fbW) && Fits(t.h, if v.clip then Some(v.h) else None, v.fbH)
            && t.fbW == v.fbW && t.fbH == v.fbH && t.clip == v.clip && t.back == v.back
            && (v.clip ==> Nearest(t.x, v.x, v.fbW - t.w) && Nearest(t.y, v.y, v.fbH - t.h))
            && (!v.clip ==> t.x == 0 && t.y == 0)
  {
    var size := Some((s.view.w, s.view.h));
    SizeBecomes(s, size);
    MoveGoes(ChangeSize(s, size), 0, 0);
    hide ChangeSize, ChangePos;
  }

  /** A resize gives the framebuffer its new size and keeps the pixels inside. */
  lemma ResizeBecomes(s: State, w: nat, h: nat, p: Point)
    ensures var t := Step(s, Resize(w, h)).view;
            && t.fbW == w && t.fbH == h && t.back.w == w && t.back.h == h
            && t.back.At(p) == (if 0 <= p.0 < w && 0 <= p.1 < h then s.view.back.At(p) else None)
            && Fits(t.w, if s.view.clip then Some(s.view.w) else None, w)
            && Fits(t.h, if s.view.clip then Some(s.view.h) else None, h)
  {
    ReadjustBecomes(s.(view := NewSize(s.view, w, h)));
    hide Readjust;
  }

  /** Without clipping the viewport is the whole framebuffer. */
  ghost predicate Whole(v: View) {
    !v.clip ==> v.x == 0 && v.y == 0 && v.w == v.fbW && v.h == v.fbH
  }

  lemma {:induction false} ScanKeepsPlace(s: State)
    ensures SamePlace(s.view, Scan(s).view)
    decreases |s.queue|
  {
    hide Drawn, View.Fresh, Canvas.Overlay;
    if s.queue != [] && HeadIs(s, s.queue[0]) == Runs {
      ScanKeepsPlace(s.(queue := s.queue[1..]).Execute(s.queue[0]));
    }
  }

  ghost predicate SamePlace(v: View, t: View) {
    t.fbW == v.fbW && t.fbH == v.fbH && t.x == v.x && t.y == v.y && t.w == v.w && t.h == v.h && t.clip == v.clip
  }

  lemma RequestKeepsPlace(s: State, op: Op)
    ensures SamePlace(s.view, Request(s, op).view)
  {
    hide Drawn, View.Fresh, Canvas.Overlay;
  }

  lemma StepKeepsWhole(s: State, a: Action)
    requires Legal(a) && Whole(s.view)
    ensures Whole(Step(s, a).view)
  {
    hide ChangeSize, ChangePos, Readjust, Scan, Request;
    match a
    case Draw(op) =>
      ScanKeepsPlace(s.(queue := [op]));
      RequestKeepsPlace(s, op);
    case BlitImage(_, _, _, _, _, _) => RequestKeepsPlace(s, BlitOp(s, a));
    case Move(dx, dy) =>
      MoveKeepsClip(s, dx, dy);
      if !s.view.clip {
        MoveGoes(s, dx, dy);
      }
    case Size(size) => SizeBecomes(s, size);
    case Clip(clip) => ReadjustBecomes(s.(view := s.view.(clip := clip)));
    case Resize(w, h) => ReadjustBecomes(s.(view := NewSize(s.view, w, h)));
    case Flush =>
    case Ready(id) =>
    case Resume => ScanKeepsPlace(s);
  }

  lemma MoveKeepsClip(s: State, dx: int, dy: int)
    ensures ChangePos(s, dx, dy).view.clip == s.view.clip
  {
  }

  /** In every state that any run can reach: without clipping the viewport is the
      whole framebuffer, and every move leaves it there. */
  lemma {:induction false} UnclippedIsWhole(pictures: nat -> Canvas, actions: seq<Action>)
    requires AllLegal(actions)
    ensures Whole(Run(Initial(pictures), actions).view)
  {
    hide Step, Legal;
    if actions != [] {
      var before := actions[..|actions| - 1];
      UnclippedIsWhole(pictures, before);
      StepKeepsWhole(Run(Initial(pictures), before), actions[|actions| - 1]);
    }
  }

  // Drawing

  /** The point of a source that a point of the screen shows, when the source is
      drawn with its point `from` at (x, y). */
  function Behind(p: Point, x: int, y: int, fromX: int, fromY: int): Point {
    (p.0 - x + fromX, p.1 - y + fromY)
  }

  /** The operation's own pixel for a point in the part it covers. */
  function PixelOf(c: Canvas, op: Op, pictures: nat -> Canvas, p: Point): Option<Rgb> {
    match op
    case Flip => None
    case Fill(_, _, _, _, color) => Some(color)
    case Copy(fromX, fromY, x, y, _, _) => c.At(Behind(p, x, y, fromX, fromY))
    case Blit(x, y, w, _, data) => PixelInRow(data, w, p.0 - x, p.1 - y)
    case Img(x, y, _, _, id) => pictures(id).At(Behind(p, x, y, 0, 0))
    case Frame(x, y, _, _, id) => pictures(id).At(Behind(p, x, y, 0, 0))
  }

  /** The pixel in a column of a row, row after row. */
  function PixelInRow(data: seq<Rgb>, w: nat, column: int, row: int): Option<Rgb> {
    var i := row * w + column;
    if 0 <= i < |data| then Some(data[i]) else None
  }

  /** An operation's ink is its own pixels, in the part it covers. */
  ghost predicate InkIs(c: Canvas, op: Op, pictures: nat -> Canvas, p: Point) {
    var ink := Ink(op, c, pictures);
    && (p in ink <==> Covers(op, p) && PixelOf(c, op, pictures, p).Some?)
    && (p in ink ==> Some(ink[p]) == PixelOf(c, op, pictures, p))
  }

  lemma InkPixel(c: Canvas, op: Op, pictures: nat -> Canvas, p: Point)
    ensures InkIs(c, op, pictures, p)
  {
    hide Ink, PixelOf, Covers, InkIs;
    match op
    case Flip => FlipInk(c, pictures, p);
    case Fill(x, y, w, h, color) => FillInk(c, x, y, w, h, color, pictures, p);
    case Copy(fromX, fromY, x, y, w, h) => CopyInk(c, fromX, fromY, x, y, w, h, pictures, p);
    case Img(x, y, w, h, id) => PictureInk(c, x, y, w, h, id, pictures, p);
    case Frame(x, y, w, h, id) => PictureInk(c, x, y, w, h, id, pictures, p);
    case Blit(x, y, w, h, data) => BlitInk(c, x, y, w, h, data, pictures, p);
  }

  lemma FlipInk(c: Canvas, pictures: nat -> Canvas, p: Point)
    ensures InkIs(c, Flip, pictures, p)
  {
  }

  lemma FillInk(c: Canvas, x: int, y: int, w: nat, h: nat, color: Rgb, pictures: nat -> Canvas, p: Point)
    ensures InkIs(c, Fill(x, y, w, h, color), pictures, p)
  {
    hide Cells;
  }

  lemma CopyInk(c: Canvas, fromX: int, fromY: int, x: int, y: int, w: nat, h: nat, pictures: nat -> Canvas, p: Point)
    ensures InkIs(c, Copy(fromX, fromY, x, y, w, h), pictures, p)
  {
    hide Moved;
    MovedAt(c.px, fromX, fromY, w, h, x, y, p);
  }

  lemma PictureInk(c: Canvas, x: int, y: int, w: nat, h: nat, id: nat, pictures: nat -> Canvas, p: Point)
    ensures InkIs(c, Img(x, y, w, h, id), pictures, p) && InkIs(c, Frame(x, y, w, h, id), pictures, p)
  {
    hide Moved;
    MovedAt(pictures(id).px, 0, 0, w, h, x, y, p);
  }

  lemma BlitInk(c: Canvas, x: int, y: int, w: nat, h: nat, data: seq<Rgb>, pictures: nat -> Canvas, p: Point)
    ensures InkIs(c, Blit(x, y, w, h, data), pictures, p)
  {
    hide RowIndex, Cells, PixelInRow;
    PixelIs(data, w, p.0 - x, p.1 - y);
  }

  lemma PixelIs(data: seq<Rgb>, w: nat, column: int, row: int)
    ensures column >= 0 && row >= 0 ==>
              var i := RowIndex(w, column, row);
              i >= 0 && PixelInRow(data, w, column, row) == if i < |data| then Some(BlitPixel(data, i)) else None
  {
    if column >= 0 && row >= 0 {
      AtLeastZero(w, row);
    }
  }

  lemma AtLeastZero(w: nat, row: nat)
    ensures row * w >= 0
  {
  }

  /** What a point shows after an operation: the operation's pixel where it has
      one, and what was there before everywhere else. */
  lemma DrawnPixel(c: Canvas, op: Op, pictures: nat -> Canvas, p: Point)
    ensures var pixel := PixelOf(c, op, pictures, p);
            Drawn(c, op, pictures).At(p) ==
              if Covers(op, p) && 0 <= p.0 < c.w && 0 <= p.1 < c.h && pixel.Some? then pixel else c.At(p)
  {
    hide Ink, PixelOf, Covers;
    OverlayAt(c, Ink(op, c, pictures), p);
    InkPixel(c, op, pictures, p);
  }

  /** With nothing waiting, a drawing is on the back buffer at once, and all it
      covers is damaged. */
  lemma DrawnAtOnce(s: State, op: Op, p: Point)
    requires s.queue == [] && (op.Fill? || op.Copy? || op.Blit?)
    ensures var t := Step(s, Draw(op));
            && t.queue == [] && t.view.back == Drawn(s.view.back, op, s.pictures) && t.view.target == s.view.target
            && (s.view.box.Has(p) || Covers(op, p) ==> t.view.box.Has(p))
  {
    hide Drawn;
  }
}
