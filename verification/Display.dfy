/** The display's methods, each proved to be one step of DisplayRuns. */
module Display {
  import opened Bytes
  import opened Painting
  import opened DisplayView
  import opened DisplayRuns
  import DisplayLaws

  class Display {
    var fbWidth: nat
    var fbHeight: nat
    var viewportX: int
    var viewportY: int
    var viewportW: nat
    var viewportH: nat
    var left: int
    var top: int
    var right: int
    var bottom: int
    var clipViewport: bool
    var backbuffer: Canvas
    var target: Canvas
    var renderQ: seq<Op>
    var flushPending: bool
    var flushesResolved: nat
    var ready: set<nat>               // the pictures that are decoded
    const pictures: nat -> Canvas     // ... and what they show
    ghost var done: seq<Op>

    ghost function AsView(): View
      reads this
    {
      View.View(fbWidth, fbHeight, viewportX, viewportY, viewportW, viewportH, clipViewport,
                Box(left, top, right, bottom), backbuffer, target)
    }

    ghost function Now(): State
      reads this
    {
      State.State(AsView(), renderQ, ready, flushPending, flushesResolved, done, pictures)
    }

    constructor (pictures: nat -> Canvas)
      ensures Now() == Initial(pictures)
    {
      fbWidth, fbHeight := 0, 0;
      viewportX, viewportY, viewportW, viewportH := 0, 0, 0, 0;
      target := Canvas(0, 0, map[]);
      backbuffer := Canvas(300, 150, map[]);
      left, top, right, bottom := 0, 0, 300, 150;
      clipViewport := false;
      renderQ, flushPending, flushesResolved := [], false, 0;
      ready := {};
      this.pictures := pictures;
      done := [];
    }

    method Damage(x: int, y: int, w: nat, h: nat)
      modifies `left, `top, `right, `bottom
      ensures AsView() == old(AsView()).Damage(x, y, w, h)
    {
      if x < left {
        left := x;
      }
      if y < top {
        top := y;
      }
      if x + w > right {
        right := x + w;
      }
      if y + h > bottom {
        bottom := y + h;
      }
    }

    /** The damaged part of the viewport, copied to the target. */
    method ShowDamage()
      requires AsView().Sized() && AsView().Placed()
      modifies `target, `left, `top, `right, `bottom
      ensures AsView() == old(AsView()).Flipped()
    {
      var x, y, w, h := left, top, right - left, bottom - top;
      var vx, vy := x - viewportX, y - viewportY;
      if vx < 0 {
        w := w + vx;
        x := x - vx;
        vx := 0;
      }
      if vy < 0 {
        h := h + vy;
        y := y - vy;
        vy := 0;
      }
      if vx + w > viewportW {
        w := viewportW - vx;
      }
      if vy + h > viewportH {
        h := viewportH - vy;
      }
      MovedIsFresh(AsView(), x, y, w, h);
      if w > 0 && h > 0 {
        target := target.Overlay(Moved(backbuffer.px, x, y, w, h, vx, vy));
      }
      left, top, right, bottom := 65535, 65535, 0, 0;
    }

    /** Draws one operation at once. */
    method Execute(op: Op)
      requires AsView().Valid()
      modifies `target, `left, `top, `right, `bottom, `backbuffer, `done
      ensures Now() == old(Now()).Execute(op) && AsView().Valid()
    {
      ExecuteKeepsView(Now(), op);
      if op.Flip? {
        ShowDamage();
      } else {
        backbuffer := Drawn(backbuffer, op, pictures);
        Damage(op.x, op.y, op.w, op.h);
      }
      done := done + [op];
    }

    method ScanRenderQ()
      requires AsView().Valid()
      modifies this
      ensures Now() == Scan(old(Now())) && AsView().Valid()
    {
      hide View.Valid;
      ghost var goal := Scan(Now());
      var going := true;
      while going && renderQ != []
        invariant AsView().Valid()
        invariant going ==> Scan(Now()) == goal
        invariant !going ==> Now() == goal && renderQ != []
        decreases |renderQ|, going
      {
        var op := renderQ[0];
        if op.Img? && op.id in ready && (pictures(op.id).w != op.w || pictures(op.id).h != op.h) {
          return;
        }
        if (op.Img? || op.Frame?) && op.id !in ready {
          going := false;
        } else {
          ghost var s := Now();
          Execute(op);
          renderQ := renderQ[1..];
          assert Now() == s.(queue := s.queue[1..]).Execute(op);
        }
      }
      if renderQ == [] && flushPending {
        flushesResolved := flushesResolved + 1;
        flushPending := false;
      }
    }

    method RenderQPush(op: Op)
      requires AsView().Valid() && (renderQ != [] || op.Img? || op.Frame?)
      modifies this
      ensures Now() == RequestPicture(old(Now()), op) && AsView().Valid()
    {
      ghost var s := Now();
      renderQ := renderQ + [op];
      if |renderQ| == 1 {
        assert renderQ == [op];
        ScanRenderQ();
      }
    }

    /** Fills, copies and flips. */
    method Request(op: Op)
      requires AsView().Valid()
      modifies this
      ensures Now() == DisplayRuns.Request(old(Now()), op) && AsView().Valid()
    {
      if |renderQ| != 0 {
        RenderQPush(op);
      } else {
        Execute(op);
      }
    }

    method ImageRect(x: int, y: int, w: nat, h: nat, id: nat)
      requires AsView().Valid()
      modifies this
      ensures Now() == Step(old(Now()), Draw(Img(x, y, w, h, id))) && AsView().Valid()
    {
      if w == 0 || h == 0 {
        return;
      }
      RenderQPush(Img(x, y, w, h, id));
    }

    method BlitImage(x: int, y: int, w: nat, h: nat, arr: seq<Rgb>, at: nat)
      requires AsView().Valid() && at + w * h <= |arr|
      modifies this
      ensures Now() == Step(old(Now()), Action.BlitImage(x, y, w, h, arr, at)) && AsView().Valid()
    {
      hide Drawn, View.Flipped, View.Valid, Scan;
      var n := w * h;
      var op := Blit(x, y, w, h, if |renderQ| != 0 then arr[0..0 + n] else arr[at..at + n]);
      assert op == BlitOp(Now(), Action.BlitImage(x, y, w, h, arr, at));
      Request(op);
    }

    /** Asks to be told when everything is drawn; the answer is whether it is. */
    method Flush() returns (resolved: bool)
      modifies `flushPending, `flushesResolved
      ensures Now() == Step(old(Now()), Action.Flush) && resolved == (renderQ == [])
    {
      if renderQ == [] {
        flushesResolved := flushesResolved + 1;
        return true;
      }
      flushPending := true;
      return false;
    }

    /** How far the viewport goes, when asked to go (deltaX, deltaY). */
    method ClampMove(deltaX: int, deltaY: int) returns (dx: int, dy: int)
      requires AsView().Sized() && viewportW <= fbWidth && viewportH <= fbHeight
      ensures viewportX + dx == AsView().MovedX(deltaX) && viewportY + dy == AsView().MovedY(deltaY)
    {
      dx, dy := deltaX, deltaY;
      if !clipViewport {
        dx, dy := 0 - viewportW, 0 - viewportH;
      }
      var vx2, vy2 := viewportX + viewportW - 1, viewportY + viewportH - 1;
      if dx < 0 && viewportX + dx < 0 {
        dx := -viewportX;
      }
      if vx2 + dx >= fbWidth {
        dx := dx - (vx2 + dx - fbWidth + 1);
      }
      if viewportY + dy < 0 {
        dy := -viewportY;
      }
      if vy2 + dy >= fbHeight {
        dy := dy - (vy2 + dy - fbHeight + 1);
      }
    }

    /** Damages and shows the whole viewport. */
    method Refresh()
      requires AsView().Placed()
      modifies this
      ensures Now() == DisplayRuns.Refresh(old(Now())) && AsView().Valid()
    {
      DamageAllKeepsValid(AsView());
      hide View.Shows, Drawn, DisplayRuns.Request, View.Placed, View.Damage;
      Damage(viewportX, viewportY, viewportW, viewportH);
      Request(Flip);
    }

    /** The viewport may not be inside the framebuffer any more, but must fit. */
    method ViewportChangePos(deltaX: real, deltaY: real)
      requires AsView().Sized() && viewportW <= fbWidth && viewportH <= fbHeight
      modifies this
      ensures Now() == ChangePos(old(Now()), deltaX.Floor, deltaY.Floor)
      ensures viewportW == old(viewportW) && viewportH == old(viewportH)
      ensures clipViewport ==>
                && Nearest(viewportX, old(viewportX) + deltaX.Floor, fbWidth - viewportW)
                && Nearest(viewportY, old(viewportY) + deltaY.Floor, fbHeight - viewportH)
      ensures !clipViewport ==>
                && Nearest(viewportX, old(viewportX) - viewportW, fbWidth - viewportW)
                && Nearest(viewportY, old(viewportY) - viewportH, fbHeight - viewportH)
      ensures AsView().Placed() && (old(AsView().Shows()) ==> AsView().Valid())
    {
      var x, y := deltaX.Floor, deltaY.Floor;
      DisplayLaws.MoveGoes(Now(), x, y);
      hide View.Shows, View.Sized, ChangePos, Nearest;
      MoveViewport(x, y);
    }

    method MoveViewport(deltaX: int, deltaY: int)
      requires AsView().Sized() && viewportW <= fbWidth && viewportH <= fbHeight
      modifies this
      ensures Now() == ChangePos(old(Now()), deltaX, deltaY)
      ensures AsView().Placed() && (old(AsView().Shows()) ==> AsView().Valid())
    {
      ChangePosPlaces(Now(), deltaX, deltaY);
      hide View.Flipped, View.Shows, Drawn, DisplayRuns.Request, View.MovedX, View.MovedY, View.Sized, Scan;
      ghost var moved := AsView().(x := AsView().MovedX(deltaX), y := AsView().MovedY(deltaY));
      var dx, dy := ClampMove(deltaX, deltaY);
      if dx == 0 && dy == 0 {
        return;
      }
      MoveKeepsPlaced(AsView(), deltaX, deltaY);
      hide View.Damage, View.Placed;
      viewportX := viewportX + dx;
      viewportY := viewportY + dy;
      assert AsView() == moved;
      Refresh();
    }

    /** Sizes are not negative; none given means all of the framebuffer. */
    method WantedSize(size: Option<(real, real)>) returns (w: nat, h: nat)
      requires size.Some? ==> size.value.0 >= 0.0 && size.value.1 >= 0.0
      ensures w == WantedWidth(AsView(), Floors(size)) && h == WantedHeight(AsView(), Floors(size))
    {
      w, h := fbWidth, fbHeight;
      if clipViewport && size.Some? {
        w, h := size.value.0.Floor, size.value.1.Floor;
      }
      if w > fbWidth {
        w := fbWidth;
      }
      if h > fbHeight {
        h := fbHeight;
      }
    }

    method NewViewport(w: nat, h: nat)
      requires AsView().Sized() && w <= fbWidth && h <= fbHeight
      modifies this
      ensures Now() == DisplayRuns.Refresh(ChangePos(old(Now()).(view := Blank(old(AsView()), w, h)), 0, 0))
      ensures AsView().Valid()
    {
      hide View.Flipped, View.Shows, Drawn, DisplayRuns.Request, ChangePos, Scan, View.Damage;
      viewportW, viewportH := w, h;
      target := Canvas(w, h, map[]);
      assert AsView() == Blank(old(AsView()), w, h);
      ViewportChangePos(0.0, 0.0);
      Refresh();
    }

    method ViewportChangeSize(size: Option<(real, real)>)
      requires size.Some? ==> size.value.0 >= 0.0 && size.value.1 >= 0.0
      requires AsView().Sized() && AsView().Shows()
      modifies this
      ensures Now() == ChangeSize(old(Now()), Floors(size))
      ensures AsView().Sized() && AsView().Shows() && viewportW <= fbWidth && viewportH <= fbHeight
      ensures old(AsView().Placed()) ==> AsView().Valid()
    {
      ChangeSizeKeepsView(Now(), Floors(size));
      var w, h := WantedSize(size);
      hide View.Shows, View.Placed, DisplayRuns.Refresh, ChangePos, Floors;
      if viewportW != w || viewportH != h {
        NewViewport(w, h);
      }
    }

    method ReadjustViewport()
      requires AsView().Sized() && AsView().Shows()
      modifies this
      ensures Now() == Readjust(old(Now())) && AsView().Valid()
    {
      ReadjustKeepsView(Now());
      ViewportChangeSize(Some((viewportW as real, viewportH as real)));
      ViewportChangePos(0.0, 0.0);
    }

    method SetClipViewport(clip: bool)
      requires AsView().Valid()
      modifies this
      ensures Now() == Step(old(Now()), Clip(clip)) && AsView().Valid()
    {
      clipViewport := clip;
      ReadjustViewport();
    }

    method Resize(width: nat, height: nat)
      requires AsView().Valid()
      modifies this
      ensures Now() == Step(old(Now()), Action.Resize(width, height)) && AsView().Valid()
    {
      ResizeKeepsShowing(AsView(), width, height);
      assert Step(Now(), Action.Resize(width, height)) == Readjust(Now().(view := NewSize(AsView(), width, height)));
      hide Step, View.Shows, Readjust, View.Placed, Canvas.Resized, Canvas.Valid, NewSize;
      SetSize(width, height);
      ReadjustViewport();
    }

    method SetSize(width: nat, height: nat)
      requires backbuffer.Valid()
      modifies `fbWidth, `fbHeight, `backbuffer
      ensures AsView() == NewSize(old(AsView()), width, height)
    {
      SameSize(backbuffer);
      hide Canvas.Resized, Canvas.Valid;
      fbWidth, fbHeight := width, height;
      if backbuffer.w != width || backbuffer.h != height {
        backbuffer := backbuffer.Resized(width, height);
      }
    }
  }

  function Floors(size: Option<(real, real)>): Option<(nat, nat)>
    requires size.Some? ==> size.value.0 >= 0.0 && size.value.1 >= 0.0
  {
    if size.None? then None else Some((size.value.0.Floor, size.value.1.Floor))
  }

  lemma MoveKeepsPlaced(v: View, dx: int, dy: int)
    requires v.Sized() && v.w <= v.fbW && v.h <= v.fbH
    ensures v.(x := v.MovedX(dx), y := v.MovedY(dy)).Placed()
  {
  }

  lemma SameSize(c: Canvas)
    requires c.Valid()
    ensures c.Resized(c.w, c.h) == c
  {
    assert c.Resized(c.w, c.h).px == c.px;
  }

  /** The rectangle that a flip copies is the damage box within the viewport. */
  lemma MovedIsFresh(v: View, x: int, y: int, w: int, h: int)
    requires x == (if v.box.left < v.x then v.x else v.box.left) && y == (if v.box.top < v.y then v.y else v.box.top)
    requires x + w == if v.box.right > v.x + v.w then v.x + v.w else v.box.right
    requires y + h == if v.box.bottom > v.y + v.h then v.y + v.h else v.box.bottom
    ensures Moved(v.back.px, x, y, w, h, x - v.x, y - v.y) == v.Fresh()
    ensures w <= 0 || h <= 0 ==> v.target.Overlay(v.Fresh()) == v.target
  {
    var m, f := Moved(v.back.px, x, y, w, h, x - v.x, y - v.y), v.Fresh();
    hide Moved, View.Fresh;
    forall q: Point
      ensures q in m <==> q in f
      ensures q in m ==> w > 0 && h > 0 && m[q] == f[q]
    {
      var p := (q.0 + v.x, q.1 + v.y);
      MovedAt(v.back.px, x, y, w, h, x - v.x, y - v.y, q);
      FreshAt(v, p);
      assert v.Place(p) == q;
    }
    assert m == f;
    NothingOver(v.target);
  }

  lemma NothingOver(c: Canvas)
    ensures c.Overlay(map[]) == c
  {
    assert c.Overlay(map[]).px == c.px;
  }
}
