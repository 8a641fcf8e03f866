/** The display's two canvases: a back buffer that is drawn on, and a viewport
    that caches part of it, up to date outside a damage box. */
module DisplayView {
  import opened Bytes
  import opened Painting

  type Point = (int, int)

  /** The pixels drawn so far; the others are transparent. */
  datatype Canvas = Canvas(w: nat, h: nat, px: map<Point, Rgb>) {
    ghost predicate Valid() {
      forall p | p in px :: Holds(p)
    }

    predicate Holds(p: Point) {
      0 <= p.0 < w && 0 <= p.1 < h
    }

    function At(p: Point): Option<Rgb> {
      if p in px then Some(px[p]) else None
    }

    /** Draws pixels over the canvas, cut off at its edges. */
    function Overlay(top: map<Point, Rgb>): (c: Canvas)
      ensures c.w == w && c.h == h
      ensures Valid() ==> c.Valid()
    {
      Canvas(w, h, px + map p | p in top && Holds(p) :: top[p])
    }

    /** Changing a canvas's size clears it; the display saves and restores it. */
    function Resized(width: nat, height: nat): (c: Canvas)
      ensures c.w == width && c.h == height
      ensures Valid() ==> c.Valid()
      ensures forall p | p in c.px :: p in px && px[p] == c.px[p]
      ensures forall p | p in px && c.Holds(p) :: p in c.px
    {
      Canvas(width, height, map p | p in px && 0 <= p.0 < width && 0 <= p.1 < height :: px[p])
    }
  }

  /** The part of a source inside a rectangle, moved elsewhere: what the canvas
      call drawImage draws. Transparent pixels draw nothing. */
  function Moved(source: map<Point, Rgb>, x: int, y: int, w: int, h: int, toX: int, toY: int): map<Point, Rgb> {
    map p | p in source && x <= p.0 < x + w && y <= p.1 < y + h :: (p.0 - x + toX, p.1 - y + toY) := source[p]
  }

  lemma MovedAt(source: map<Point, Rgb>, x: int, y: int, w: int, h: int, toX: int, toY: int, p: Point)
    ensures var m := Moved(source, x, y, w, h, toX, toY);
            var q := (p.0 - toX + x, p.1 - toY + y);
            && (p in m <==> toX <= p.0 < toX + w && toY <= p.1 < toY + h && q in source)
            && (p in m ==> q in source && m[p] == source[q])
  {
    var q := (p.0 - toX + x, p.1 - toY + y);
    assert p == (q.0 - x + toX, q.1 - y + toY);
    forall o: Point | p == (o.0 - x + toX, o.1 - y + toY)
      ensures o == q
    {
      assert o == (o.0, o.1);
    }
  }

  // Drawing

  datatype Op =
    | Flip
    | Fill(x: int, y: int, w: nat, h: nat, color: Rgb)
    | Copy(fromX: int, fromY: int, x: int, y: int, w: nat, h: nat)
    | Blit(x: int, y: int, w: nat, h: nat, data: seq<Rgb>)
    | Img(x: int, y: int, w: nat, h: nat, id: nat)
    | Frame(x: int, y: int, w: nat, h: nat, id: nat)

  /** What an operation draws on a canvas; `pictures` are the decoded images and
      video frames. */
  function Ink(op: Op, c: Canvas, pictures: nat -> Canvas): map<Point, Rgb> {
    match op
    case Flip => map[]
    case Fill(x, y, w, h, color) =>
      map p | p in Cells(x, y, w, h) :: color
    case Copy(fromX, fromY, x, y, w, h) => Moved(c.px, fromX, fromY, w, h, x, y)
    case Blit(x, y, w, h, data) =>
      map p | p in Cells(x, y, w, h) && RowIndex(w, p.0 - x, p.1 - y) < |data| ::
        BlitPixel(data, RowIndex(w, p.0 - x, p.1 - y))
    case Img(x, y, w, h, id) => Moved(pictures(id).px, 0, 0, w, h, x, y)
    case Frame(x, y, w, h, id) => Moved(pictures(id).px, 0, 0, w, h, x, y)
  }

  /** The points of a rectangle. */
  function Cells(x: int, y: int, w: nat, h: nat): (s: set<Point>)
    ensures forall p: Point :: p in s <==> x <= p.0 < x + w && y <= p.1 < y + h
  {
    var s := set px: int, py: int | x <= px < x + w && y <= py < y + h :: (px, py);
    assert forall p: Point :: p == (p.0, p.1);
    s
  }

  /** Row after row. */
  function RowIndex(w: nat, column: int, row: int): int {
    row * w + column
  }

  function BlitPixel(data: seq<Rgb>, i: int): Rgb {
    if 0 <= i < |data| then data[i] else Rgb(0, 0, 0)
  }

  function Drawn(c: Canvas, op: Op, pictures: nat -> Canvas): Canvas {
    c.Overlay(Ink(op, c, pictures))
  }

  /** Whether a point lies in the part of the screen that an operation covers. */
  predicate Covers(op: Op, p: Point) {
    !op.Flip? && op.x <= p.0 < op.x + op.w && op.y <= p.1 < op.y + op.h
  }

  lemma InkIsCovered(op: Op, c: Canvas, pictures: nat -> Canvas, p: Point)
    requires p in Ink(op, c, pictures)
    ensures Covers(op, p)
  {
    match op
    case Copy(fromX, fromY, x, y, w, h) => MovedAt(c.px, fromX, fromY, w, h, x, y, p);
    case Img(x, y, w, h, id) => MovedAt(pictures(id).px, 0, 0, w, h, x, y, p);
    case Frame(x, y, w, h, id) => MovedAt(pictures(id).px, 0, 0, w, h, x, y, p);
    case _ =>
  }

  // The viewport

  datatype Box = Box(left: int, top: int, right: int, bottom: int) {
    predicate Has(p: Point) {
      left <= p.0 < right && top <= p.1 < bottom
    }

    function Include(x: int, y: int, w: nat, h: nat): Box {
      Box(if x < left then x else left, if y < top then y else top,
          if x + w > right then x + w else right, if y + h > bottom then y + h else bottom)
    }
  }

  const NOTHING: Box := Box(65535, 65535, 0, 0)

  datatype View = View(fbW: nat, fbH: nat, x: int, y: int, w: nat, h: nat, clip: bool,
                       box: Box, back: Canvas, target: Canvas)
  {
    /** Where a point of the framebuffer is on the target. */
    function Place(p: Point): Point {
      (p.0 - x, p.1 - y)
    }

    predicate Sees(p: Point) {
      x <= p.0 < x + w && y <= p.1 < y + h
    }

    /** The viewport lies in the framebuffer, and that in the back buffer. */
    ghost predicate Placed() {
      && Sized() && x + w <= fbW && y + h <= fbH
    }

    ghost predicate Sized() {
      && 0 <= x && 0 <= y && fbW <= back.w && fbH <= back.h && back.Valid()
      && target.w == w && target.h == h
    }

    /** What is drawn in the back buffer shows on the target, except where damaged. */
    ghost predicate Shows() {
      forall p | p in back.px && Sees(p) && !box.Has(p) :: target.At(Place(p)) == Some(back.px[p])
    }

    ghost predicate Valid() {
      Placed() && Shows()
    }

    function Damage(dx: int, dy: int, dw: nat, dh: nat): View {
      this.(box := box.Include(dx, dy, dw, dh))
    }

    /** Everything damaged and in sight, where it goes on the target. */
    function Fresh(): map<Point, Rgb> {
      map p | p in back.px && Sees(p) && box.Has(p) :: Place(p) := back.px[p]
    }

    function Flipped(): View {
      this.(target := target.Overlay(Fresh()), box := NOTHING)
    }

    function Exec(op: Op, pictures: nat -> Canvas): View {
      if op.Flip? then Flipped()
      else this.(back := Drawn(back, op, pictures)).Damage(op.x, op.y, op.w, op.h)
    }

    /** The viewport's place after a move, kept inside the framebuffer. Without
        clipping it goes as far up and left as it can. */
    function MovedX(dx: int): int {
      Clamp(x + (if clip then dx else 0 - w), fbW - w)
    }

    function MovedY(dy: int): int {
      Clamp(y + (if clip then dy else 0 - h), fbH - h)
    }
  }

  function Clamp(n: int, most: int): int {
    if n < 0 then 0 else if n > most then most else n
  }

  lemma OverlayAt(c: Canvas, top: map<Point, Rgb>, p: Point)
    ensures c.Overlay(top).At(p) == if p in top && c.Holds(p) then Some(top[p]) else c.At(p)
  {
  }

  lemma DrawnAt(c: Canvas, op: Op, pictures: nat -> Canvas, p: Point)
    requires !Covers(op, p)
    ensures Drawn(c, op, pictures).At(p) == c.At(p)
  {
    OverlayAt(c, Ink(op, c, pictures), p);
    if p in Ink(op, c, pictures) {
      InkIsCovered(op, c, pictures, p);
    }
  }

  lemma DrawKeepsValid(v: View, op: Op, pictures: nat -> Canvas)
    requires v.Valid() && !op.Flip?
    ensures v.Exec(op, pictures).Valid()
  {
    var v' := v.Exec(op, pictures);
    hide Ink;
    forall p | p in v'.back.px && v'.Sees(p) && !v'.box.Has(p)
      ensures v'.target.At(v'.Place(p)) == Some(v'.back.px[p])
    {
      DrawnAt(v.back, op, pictures, p);
      assert v'.back.At(p) == v.back.At(p) == Some(v'.back.px[p]);
    }
  }

  lemma FreshAt(v: View, p: Point)
    ensures v.Place(p) in v.Fresh() <==> p in v.back.px && v.Sees(p) && v.box.Has(p)
    ensures v.Place(p) in v.Fresh() ==> p in v.back.px && v.Fresh()[v.Place(p)] == v.back.px[p]
  {
  }

  /** After a flip that is executed, a point of the target shows the back buffer
      where that has been drawn, and is left alone where it has not. */
  lemma FlipShowsBackBuffer(v: View, p: Point)
    requires v.Valid() && v.Sees(p)
    ensures v.Flipped().target.At(v.Place(p)) == if p in v.back.px then Some(v.back.px[p]) else v.target.At(v.Place(p))
  {
    FreshAt(v, p);
    OverlayAt(v.target, v.Fresh(), v.Place(p));
  }

  lemma FlipKeepsValid(v: View)
    requires v.Valid()
    ensures v.Flipped().Valid()
  {
    var f := v.Flipped();
    forall p | p in v.back.px && v.Sees(p)
      ensures f.target.At(f.Place(p)) == Some(f.back.px[p])
    {
      FlipShowsBackBuffer(v, p);
    }
  }

  ghost predicate SameInSight(v: View) {
    forall p | v.Sees(p) :: v.target.At(v.Place(p)) == v.back.At(p)
  }

  /** The whole target equals the back buffer after an executed flip, exactly when
      no pixel is in sight that shows something but was never drawn. */
  lemma FlipMakesEqual(v: View)
    requires v.Valid()
    ensures SameInSight(v.Flipped())
            <==> forall p | v.Sees(p) && p !in v.back.px :: v.target.At(v.Place(p)) == None
  {
    var f := v.Flipped();
    forall p | v.Sees(p)
      ensures f.target.At(f.Place(p)) == f.back.At(p)
              <==> p in v.back.px || v.target.At(v.Place(p)) == None
    {
      FlipShowsBackBuffer(v, p);
    }
    hide View.Flipped;
    assert forall p | v.Sees(p) :: f.Sees(p);
  }

  /** Once the whole viewport is damaged, nothing is promised about the target. */
  lemma DamageAllKeepsValid(v: View)
    requires v.Placed()
    ensures v.Damage(v.x, v.y, v.w, v.h).Valid()
  {
  }

  /** A place between 0 and `most` as near to the wanted one as there is. */
  ghost predicate Nearest(place: int, wanted: int, most: int) {
    && 0 <= place <= most
    && (0 <= wanted <= most ==> place == wanted) && (wanted < 0 ==> place == 0) && (wanted > most ==> place == most)
  }

  lemma MoveStaysInside(v: View, dx: int, dy: int)
    requires v.w <= v.fbW && v.h <= v.fbH
    ensures 0 <= v.MovedX(dx) <= v.fbW - v.w && 0 <= v.MovedY(dy) <= v.fbH - v.h
  {
  }

  lemma ResizeKeepsShowing(v: View, width: nat, height: nat)
    requires v.Valid()
    ensures var v' := v.(fbW := width, fbH := height, back := v.back.Resized(width, height));
            v'.Sized() && v'.Shows()
  {
  }
}
