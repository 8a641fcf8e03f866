/** Every run of the display: drawing, scrolling, resizing, and the queue that
    holds operations back while an image or a video frame is being decoded. */
module DisplayRuns {
  import opened Bytes
  import opened Painting
  import opened Tiles
  import opened DisplayView

  datatype State = State(view: View, queue: seq<Op>, ready: set<nat>, waiting: bool, resolved: nat, done: seq<Op>,
                         pictures: nat -> Canvas)
  {
    function Execute(op: Op): State {
      this.(view := view.Exec(op, pictures), done := done + [op])
    }
  }

  /** The operation at the head of the queue can run, has to wait for its
      picture, or has a picture of the wrong size. */
  datatype Readiness = Runs | Waits | Broken

  function HeadIs(s: State, op: Op): Readiness {
    if op.Img? then
      if op.id !in s.ready then Waits else if WrongSize(s, op) then Broken else Runs
    else if op.Frame? then
      if op.id !in s.ready then Waits else Runs
    else Runs
  }

  predicate WrongSize(s: State, op: Op) {
    op.Img? && (s.pictures(op.id).w != op.w || s.pictures(op.id).h != op.h)
  }

  /** An empty queue fulfils the flush promise. */
  function Settled(s: State): State {
    if s.waiting then s.(waiting := false, resolved := s.resolved + 1) else s
  }

  function Scan(s: State): State
    decreases |s.queue|
  {
    if s.queue == [] then Settled(s)
    else if HeadIs(s, s.queue[0]) != Runs then s
    else Scan(s.(queue := s.queue[1..]).Execute(s.queue[0]))
  }

  /** Drawn at once, unless something is already waiting. */
  function Request(s: State, op: Op): State {
    if s.queue == [] then s.Execute(op) else s.(queue := s.queue + [op])
  }

  /** Images and frames always pass through the queue. */
  function RequestPicture(s: State, op: Op): State {
    if s.queue == [] then Scan(s.(queue := [op])) else s.(queue := s.queue + [op])
  }

  function ChangePos(s: State, dx: int, dy: int): State {
    var x, y := s.view.MovedX(dx), s.view.MovedY(dy);
    if x == s.view.x && y == s.view.y then s
    else Request(s.(view := s.view.(x := x, y := y).Damage(x, y, s.view.w, s.view.h)), Flip)
  }

  /** The size asked for, if clipping is on and one is given, else all there is. */
  function WantedWidth(v: View, size: Option<(nat, nat)>): nat {
    if v.clip && size.Some? then Least(size.value.0, v.fbW) else v.fbW
  }

  function WantedHeight(v: View, size: Option<(nat, nat)>): nat {
    if v.clip && size.Some? then Least(size.value.1, v.fbH) else v.fbH
  }

  function DamageAll(v: View): View {
    v.Damage(v.x, v.y, v.w, v.h)
  }

  function Refresh(s: State): State {
    Request(s.(view := DamageAll(s.view)), Flip)
  }

  /** A viewport of a new size has a blank target. */
  function Blank(v: View, w: nat, h: nat): View {
    v.(w := w, h := h, target := Canvas(w, h, map[]))
  }

  function ChangeSize(s: State, size: Option<(nat, nat)>): State {
    var w, h := WantedWidth(s.view, size), WantedHeight(s.view, size);
    if w == s.view.w && h == s.view.h then s
    else Refresh(ChangePos(s.(view := Blank(s.view, w, h)), 0, 0))
  }

  function Readjust(s: State): State {
    ChangePos(ChangeSize(s, Some((s.view.w, s.view.h))), 0, 0)
  }

  function SetClip(s: State, clip: bool): State {
    Readjust(s.(view := s.view.(clip := clip)))
  }

  function NewSize(v: View, w: nat, h: nat): View {
    v.(fbW := w, fbH := h, back := v.back.Resized(w, h))
  }

  function ResizeTo(s: State, w: nat, h: nat): State {
    Readjust(s.(view := NewSize(s.view, w, h)))
  }

  datatype Action =
    | Draw(op: Op)
    | BlitImage(x: int, y: int, w: nat, h: nat, arr: seq<Rgb>, at: nat)
    | Move(dx: int, dy: int)
    | Size(size: Option<(nat, nat)>)
    | Clip(clip: bool)
    | Resize(width: nat, height: nat)
    | Flush
    | Ready(id: nat)
    | Resume

  predicate Legal(a: Action) {
    a.BlitImage? ==> a.at + a.w * a.h <= |a.arr|
  }

  function PixelsAt(a: Action, from: nat): seq<Rgb>
    requires a.BlitImage? && from + a.w * a.h <= |a.arr|
  {
    a.arr[from..from + a.w * a.h]
  }

  /** A blit that has to wait takes its pixels from the start of the buffer that
      its array lies in, wherever in that buffer the array begins. */
  function BlitOp(s: State, a: Action): Op
    requires a.BlitImage? && Legal(a)
  {
    Blit(a.x, a.y, a.w, a.h, PixelsAt(a, if s.queue == [] then a.at else 0))
  }

  function DrawStep(s: State, op: Op): State {
    if op.Img? then
      if op.w == 0 || op.h == 0 then s else RequestPicture(s, op)
    else if op.Frame? then RequestPicture(s, op)
    else Request(s, op)
  }

  function Step(s: State, a: Action): State
    requires Legal(a)
  {
    match a
    case Draw(op) => DrawStep(s, op)
    case BlitImage(_, _, _, _, _, _) => Request(s, BlitOp(s, a))
    case Move(dx, dy) => ChangePos(s, dx, dy)
    case Size(size) => ChangeSize(s, size)
    case Clip(clip) => SetClip(s, clip)
    case Resize(w, h) => ResizeTo(s, w, h)
    case Flush => if s.queue == [] then s.(resolved := s.resolved + 1) else s.(waiting := true)
    case Ready(id) => s.(ready := s.ready + {id})
    case Resume => Scan(s)
  }

  ghost predicate AllLegal(actions: seq<Action>) {
    forall i | 0 <= i < |actions| :: Legal(actions[i])
  }

  function Run(s: State, actions: seq<Action>): State
    requires AllLegal(actions)
  {
    if actions == [] then s else Step(Run(s, actions[..|actions| - 1]), actions[|actions| - 1])
  }

  /** A display on a target of no size. */
  function Initial(pictures: nat -> Canvas): State {
    State(View(0, 0, 0, 0, 0, 0, false, Box(0, 0, 300, 150), Canvas(300, 150, map[]), Canvas(0, 0, map[])),
          [], {}, false, 0, [], pictures)
  }

  // What stays true

  lemma ExecuteKeepsView(s: State, op: Op)
    requires s.view.Valid()
    ensures s.Execute(op).view.Valid()
  {
    if op.Flip? {
      FlipKeepsValid(s.view);
    } else {
      DrawKeepsValid(s.view, op, s.pictures);
    }
  }

  lemma RequestKeepsView(s: State, op: Op)
    requires s.view.Valid()
    ensures Request(s, op).view.Valid()
  {
    ExecuteKeepsView(s, op);
  }

  lemma {:induction false} ScanKeepsView(s: State)
    requires s.view.Valid()
    ensures Scan(s).view.Valid()
    decreases |s.queue|
  {
    hide View.Valid;
    if s.queue != [] && HeadIs(s, s.queue[0]) == Runs {
      ExecuteKeepsView(s.(queue := s.queue[1..]), s.queue[0]);
      ScanKeepsView(s.(queue := s.queue[1..]).Execute(s.queue[0]));
    }
  }

  /** A viewport that fits may be moved from anywhere to inside the framebuffer. */
  lemma ChangePosPlaces(s: State, dx: int, dy: int)
    requires s.view.Sized() && s.view.w <= s.view.fbW && s.view.h <= s.view.fbH
    ensures var t := ChangePos(s, dx, dy);
            t.view.Placed() && (s.view.Shows() ==> t.view.Valid())
            && t.view.w == s.view.w && t.view.h == s.view.h && t.view.clip == s.view.clip
            && t.view.fbW == s.view.fbW && t.view.fbH == s.view.fbH
  {
    MoveStaysInside(s.view, dx, dy);
    var x, y := s.view.MovedX(dx), s.view.MovedY(dy);
    if x != s.view.x || y != s.view.y {
      var v := s.view.(x := x, y := y);
      DamageAllKeepsValid(v);
      RequestKeepsView(s.(view := DamageAll(v)), Flip);
    }
  }

  lemma ChangeSizeKeepsView(s: State, size: Option<(nat, nat)>)
    requires s.view.Sized() && s.view.Shows()
    ensures var t := ChangeSize(s, size);
            t.view.Sized() && t.view.Shows() && t.view.w <= t.view.fbW && t.view.h <= t.view.fbH
            && (s.view.Placed() ==> t.view.Valid())
  {
    var w, h := WantedWidth(s.view, size), WantedHeight(s.view, size);
    if w != s.view.w || h != s.view.h {
      var v := s.view.(w := w, h := h, target := Canvas(w, h, map[]));
      ChangePosPlaces(s.(view := v), 0, 0);
      var moved := ChangePos(s.(view := v), 0, 0);
      DamageAllKeepsValid(moved.view);
      RequestKeepsView(moved.(view := DamageAll(moved.view)), Flip);
    }
  }

  lemma ReadjustKeepsView(s: State)
    requires s.view.Sized() && s.view.Shows()
    ensures Readjust(s).view.Valid()
  {
    hide ChangeSize, ChangePos;
    var size := Some((s.view.w, s.view.h));
    ChangeSizeKeepsView(s, size);
    ChangePosPlaces(ChangeSize(s, size), 0, 0);
  }

  lemma StepKeepsView(s: State, a: Action)
    requires s.view.Valid() && Legal(a)
    ensures Step(s, a).view.Valid()
  {
    hide ChangeSize, ChangePos, Readjust, Scan, Request;
    match a
    case Draw(op) =>
      ScanKeepsView(s.(queue := [op]));
      RequestKeepsView(s, op);
    case BlitImage(_, _, _, _, _, _) => RequestKeepsView(s, BlitOp(s, a));
    case Move(dx, dy) => ChangePosPlaces(s, dx, dy);
    case Size(size) => ChangeSizeKeepsView(s, size);
    case Clip(clip) => ReadjustKeepsView(s.(view := s.view.(clip := clip)));
    case Resize(w, h) =>
      ResizeKeepsShowing(s.view, w, h);
      ReadjustKeepsView(s.(view := NewSize(s.view, w, h)));
    case Flush =>
    case Ready(id) =>
    case Resume => ScanKeepsView(s);
  }

  /** In every state that any run can reach, the viewport lies inside the
      framebuffer, and each of its pixels outside the damage box shows what has
      been drawn in the back buffer there. */
  lemma {:induction false} ReachableViews(pictures: nat -> Canvas, actions: seq<Action>)
    requires AllLegal(actions)
    ensures Run(Initial(pictures), actions).view.Valid()
  {
    hide Step, View.Valid, Legal;
    if actions == [] {
      InitialView(pictures);
    } else {
      var before := actions[..|actions| - 1];
      ReachableViews(pictures, before);
      StepKeepsView(Run(Initial(pictures), before), actions[|actions| - 1]);
    }
  }

  lemma InitialView(pictures: nat -> Canvas)
    ensures Initial(pictures).view.Valid()
  {
  }

  /** A clipped viewport of one pixel at the left of a framebuffer of two. */
  ghost predicate OnePixel(s: State, x: int) {
    var v := s.view;
    s.queue == [] && v.Valid() && v.clip && v.fbW == 2 && v.fbH == 1 && v.x == x && v.y == 0 && v.w == 1 && v.h == 1
  }

  lemma SetUp(pictures: nat -> Canvas)
    ensures var s := Step(Step(Step(Initial(pictures), Clip(true)), Resize(2, 1)), Size(Some((1, 1))));
            OnePixel(s, 0) && s.view.back.px == map[]
  {
    var s0 := Initial(pictures);
    InitialView(pictures);
    StepKeepsView(s0, Clip(true));
    var s1 := Step(s0, Clip(true));
    assert s1 == s0.(view := s0.view.(clip := true));
    StepKeepsView(s1, Resize(2, 1));
    var s2 := Step(s1, Resize(2, 1));
    assert s2 == s1.(view := NewSize(s1.view, 2, 1));
    StepKeepsView(s2, Size(Some((1, 1))));
  }

  lemma FillOne(s: State, c: Rgb)
    requires OnePixel(s, 0) && s.view.back.px == map[]
    ensures var t := Step(s, Draw(Fill(0, 0, 1, 1, c)));
            OnePixel(t, 0) && t.view.back.At((0, 0)) == Some(c) && t.view.back.At((1, 0)) == None
  {
    var op := Fill(0, 0, 1, 1, c);
    StepKeepsView(s, Draw(op));
    OverlayAt(s.view.back, Ink(op, s.view.back, s.pictures), (0, 0));
    OverlayAt(s.view.back, Ink(op, s.view.back, s.pictures), (1, 0));
  }

  lemma FlipOne(s: State, c: Rgb)
    requires OnePixel(s, 0) && s.view.back.At((0, 0)) == Some(c)
    ensures var t := Step(s, Draw(Flip));
            OnePixel(t, 0) && t.view.target.At((0, 0)) == Some(c) && t.view.back == s.view.back
  {
    StepKeepsView(s, Draw(Flip));
    FlipShowsBackBuffer(s.view, (0, 0));
    assert Step(s, Draw(Flip)) == s.Execute(Flip);
    hide Step, View.Valid, Canvas.Overlay, View.Fresh, Canvas.At;
  }

  lemma ScrollOne(s: State, c: Rgb)
    requires OnePixel(s, 0) && s.view.target.At((0, 0)) == Some(c) && s.view.back.At((1, 0)) == None
    ensures var v := Step(s, Move(1, 0)).view;
            v.box == NOTHING && !SameInSight(v) && v.target.At((0, 0)) == Some(c)
  {
    var moved := s.view.(x := 1);
    DamageAllKeepsValid(moved);
    FlipShowsBackBuffer(DamageAll(moved), (1, 0));
    var v := Step(s, Move(1, 0)).view;
    hide View.Flipped;
    assert s.view.MovedX(1) == 1 && s.view.MovedY(0) == 0;
    assert v == DamageAll(moved).Flipped();
    assert v.Sees((1, 0)) && v.Place((1, 0)) == (0, 0);
  }

  /** What the target can keep showing although it is gone: after scrolling, a
      part of the screen that was never drawn shows what was there before. */
  lemma StalePixelStays(pictures: nat -> Canvas, c: Rgb)
    ensures var actions := [Clip(true), Resize(2, 1), Size(Some((1, 1))), Draw(Fill(0, 0, 1, 1, c)), Draw(Flip), Move(1, 0)];
            AllLegal(actions) &&
            var v := Run(Initial(pictures), actions).view;
            v.box == NOTHING && !SameInSight(v) && v.target.At((0, 0)) == Some(c)
  {
    var s0 := Initial(pictures);
    var s3 := Step(Step(Step(s0, Clip(true)), Resize(2, 1)), Size(Some((1, 1))));
    SetUp(pictures);
    FillOne(s3, c);
    var s4 := Step(s3, Draw(Fill(0, 0, 1, 1, c)));
    FlipOne(s4, c);
    ScrollOne(Step(s4, Draw(Flip)), c);
    hide Step, OnePixel, SameInSight, Legal;
    SixSteps(s0, Clip(true), Resize(2, 1), Size(Some((1, 1))), Draw(Fill(0, 0, 1, 1, c)), Draw(Flip), Move(1, 0));
  }

  lemma RunLast(s: State, before: seq<Action>, a: Action)
    requires AllLegal(before) && Legal(a)
    ensures AllLegal(before + [a]) && Run(s, before + [a]) == Step(Run(s, before), a)
  {
    hide Step, Legal;
    assert (before + [a])[..|before + [a]| - 1] == before;
  }

  lemma SixSteps(s: State, a: Action, b: Action, c: Action, d: Action, e: Action, f: Action)
    requires Legal(a) && Legal(b) && Legal(c) && Legal(d) && Legal(e) && Legal(f)
    ensures AllLegal([a, b, c, d, e, f])
    ensures Run(s, [a, b, c, d, e, f]) == Step(Step(Step(Step(Step(Step(s, a), b), c), d), e), f)
  {
    hide Step, Legal;
    FourSteps(s, a, b, c, d);
    RunLast(s, [a, b, c, d], e);
    RunLast(s, [a, b, c, d, e], f);
    assert [a, b, c, d] + [e] == [a, b, c, d, e] && [a, b, c, d, e] + [f] == [a, b, c, d, e, f];
  }

  // Order

  function Draws(ops: seq<Op>): (r: seq<Op>)
  {
    if ops == [] then [] else Draws(ops[..|ops| - 1]) + (if ops[|ops| - 1].Flip? then [] else [ops[|ops| - 1]])
  }

  lemma {:induction false} DrawsConcat(a: seq<Op>, b: seq<Op>)
    ensures Draws(a + b) == Draws(a) + Draws(b)
  {
    if b == [] {
      assert a + b == a;
    } else {
      assert (a + b)[..|a + b| - 1] == a + b[..|b| - 1];
      DrawsConcat(a, b[..|b| - 1]);
    }
  }

  /** What the callers asked to be drawn. */
  function Asked(a: Action): seq<Op>
    requires Legal(a)
  {
    match a
    case Draw(op) => if op.Flip? || (op.Img? && (op.w == 0 || op.h == 0)) then [] else [op]
    case BlitImage(x, y, w, h, arr, at) => [Blit(x, y, w, h, PixelsAt(a, at))]
    case _ => []
  }

  function AllAsked(actions: seq<Action>): seq<Op>
    requires AllLegal(actions)
  {
    if actions == [] then [] else AllAsked(actions[..|actions| - 1]) + Asked(actions[|actions| - 1])
  }

  /** Drawn, or still waiting to be, in order. */
  function Taken(s: State): seq<Op> {
    Draws(s.done) + Draws(s.queue)
  }

  /** Nothing is queued, or the pixels are the ones at the buffer's start. */
  predicate Unmoved(s: State, a: Action)
    requires Legal(a)
  {
    a.BlitImage? && s.queue != [] ==> PixelsAt(a, 0) == PixelsAt(a, a.at)
  }

  /** The operations in order, flips aside. */
  function DrawAll(c: Canvas, ops: seq<Op>, pictures: nat -> Canvas): Canvas
    decreases |ops|
  {
    if ops == [] then c
    else if ops[0].Flip? then DrawAll(c, ops[1..], pictures)
    else DrawAll(Drawn(c, ops[0], pictures), ops[1..], pictures)
  }

  lemma {:induction false} DrawAllConcat(c: Canvas, a: seq<Op>, b: seq<Op>, pictures: nat -> Canvas)
    ensures DrawAll(c, a + b, pictures) == DrawAll(DrawAll(c, a, pictures), b, pictures)
    decreases |a|
  {
    hide Drawn;
    if a == [] {
      assert a + b == b;
    } else {
      assert (a + b)[1..] == a[1..] + b;
      DrawAllConcat(if a[0].Flip? then c else Drawn(c, a[0], pictures), a[1..], b, pictures);
    }
  }

  /** What the back buffer will be when nothing waits any more. */
  function Outcome(s: State): Canvas {
    DrawAll(s.view.back, s.queue, s.pictures)
  }

  /** From s to t, just these operations were added to what is to be drawn. */
  ghost predicate Adds(s: State, t: State, ops: seq<Op>) {
    t.pictures == s.pictures && Taken(t) == Taken(s) + ops && Outcome(t) == DrawAll(Outcome(s), ops, s.pictures)
  }

  function Kept(op: Op): (ops: seq<Op>)
    ensures ops == Draws([op])
  {
    if op.Flip? then [] else [op]
  }

  lemma DrawOne(c: Canvas, op: Op, pictures: nat -> Canvas)
    ensures DrawAll(c, [op], pictures) == DrawAll(c, Kept(op), pictures)
    ensures DrawAll(c, [op], pictures) == if op.Flip? then c else Drawn(c, op, pictures)
  {
    assert [op][1..] == [];
  }

  lemma ExecuteAdds(s: State, op: Op, later: seq<Op>)
    ensures Taken(s.(queue := later).Execute(op)) == Taken(s.(queue := [op] + later))
    ensures Outcome(s.(queue := later).Execute(op)) == Outcome(s.(queue := [op] + later))
  {
    DrawsConcat(s.done, [op]);
    DrawsConcat([op], later);
    DrawAllConcat(s.view.back, [op], later, s.pictures);
    DrawOne(s.view.back, op, s.pictures);
    hide Drawn, Draws, DrawAll;
    Regroup(Draws(s.done), Kept(op), Draws(later));
  }

  lemma Regroup(a: seq<Op>, b: seq<Op>, c: seq<Op>)
    ensures a + (b + c) == a + b + c
  {
  }

  lemma QueueAdds(s: State, op: Op)
    ensures Adds(s, s.(queue := s.queue + [op]), Kept(op))
  {
    DrawsConcat(s.queue, [op]);
    DrawAllConcat(s.view.back, s.queue, [op], s.pictures);
    DrawOne(Outcome(s), op, s.pictures);
    hide Drawn, Draws, DrawAll;
    Regroup(Draws(s.done), Draws(s.queue), Kept(op));
  }

  lemma RequestAdds(s: State, op: Op)
    ensures Adds(s, Request(s, op), Kept(op))
  {
    QueueAdds(s, op);
    if s.queue == [] {
      ExecuteAdds(s, op, []);
      assert s.queue + [op] == [op] + [] && s.(queue := []) == s;
      hide Taken, Outcome, State.Execute;
    }
  }

  lemma NothingAdded(s: State)
    ensures Adds(s, s, [])
  {
    assert Taken(s) + [] == Taken(s);
  }

  lemma {:induction false} ScanAdds(s: State)
    ensures Adds(s, Scan(s), [])
    decreases |s.queue|
  {
    NothingAdded(s);
    if s.queue != [] && HeadIs(s, s.queue[0]) == Runs {
      var op, later := s.queue[0], s.queue[1..];
      assert s.queue == [op] + later && s.(queue := [op] + later) == s;
      ExecuteAdds(s, op, later);
      ScanAdds(s.(queue := later).Execute(op));
      hide Drawn, View.Flipped, Draws, DrawAll;
    } else {
      hide Drawn, View.Flipped, Draws, DrawAll;
    }
  }

  lemma PictureAdds(s: State, op: Op)
    ensures Adds(s, RequestPicture(s, op), Kept(op))
  {
    QueueAdds(s, op);
    ScanAdds(s.(queue := s.queue + [op]));
    assert s.queue == [] ==> s.queue + [op] == [op];
    hide Taken, Outcome, Scan;
  }

  lemma ChangePosAdds(s: State, dx: int, dy: int)
    ensures Adds(s, ChangePos(s, dx, dy), [])
  {
    var x, y := s.view.MovedX(dx), s.view.MovedY(dy);
    RequestAdds(s.(view := s.view.(x := x, y := y).Damage(x, y, s.view.w, s.view.h)), Flip);
  }

  lemma ChangeSizeAdds(s: State, size: Option<(nat, nat)>)
    ensures Adds(s, ChangeSize(s, size), [])
  {
    var w, h := WantedWidth(s.view, size), WantedHeight(s.view, size);
    var t := s.(view := s.view.(w := w, h := h, target := Canvas(w, h, map[])));
    ChangePosAdds(t, 0, 0);
    var moved := ChangePos(t, 0, 0);
    RequestAdds(moved.(view := DamageAll(moved.view)), Flip);
  }

  lemma ReadjustAdds(s: State)
    ensures Adds(s, Readjust(s), [])
  {
    var size := Some((s.view.w, s.view.h));
    ChangeSizeAdds(s, size);
    ChangePosAdds(ChangeSize(s, size), 0, 0);
  }

  lemma LastDiffers(s: seq<Op>, a: Op, b: Op)
    ensures s + [a] == s + [b] <==> a == b
  {
    assert (s + [a])[|s|] == a && (s + [b])[|s|] == b;
  }

  /** One step takes exactly what it was asked for, last, if and only if a queued
      blit's pixels are at the start of their buffer. */
  lemma StepTakesWhatIsAsked(s: State, a: Action)
    requires Legal(a)
    ensures Taken(Step(s, a)) == Taken(s) + Asked(a) <==> Unmoved(s, a)
    ensures Unmoved(s, a) && !a.Resize? ==> Outcome(Step(s, a)) == DrawAll(Outcome(s), Asked(a), s.pictures)
    ensures Step(s, a).pictures == s.pictures
  {
    hide ChangeSize, ChangePos, Readjust, Scan, Request, RequestPicture, Drawn;
    match a
    case Draw(op) =>
      PictureAdds(s, op);
      RequestAdds(s, op);
    case BlitImage(_, _, _, _, _, _) =>
      RequestAdds(s, BlitOp(s, a));
      LastDiffers(Taken(s), BlitOp(s, a), Asked(a)[0]);
    case Move(dx, dy) => ChangePosAdds(s, dx, dy);
    case Size(size) => ChangeSizeAdds(s, size);
    case Clip(clip) => ReadjustAdds(s.(view := s.view.(clip := clip)));
    case Resize(w, h) => ReadjustAdds(s.(view := NewSize(s.view, w, h)));
    case Flush =>
    case Ready(id) =>
    case Resume => ScanAdds(s);
  }

  /** No blit had to wait with its pixels elsewhere than at their buffer's start. */
  ghost predicate AllUnmoved(s: State, actions: seq<Action>)
    requires AllLegal(actions)
  {
    forall i | 0 <= i < |actions| :: Unmoved(Run(s, actions[..i]), actions[i])
  }

  /** Whenever the pictures become ready, everything is drawn in the order in
      which it was asked for, each operation once. */
  lemma {:induction false} DrawnInOrder(pictures: nat -> Canvas, actions: seq<Action>)
    requires AllLegal(actions) && AllUnmoved(Initial(pictures), actions)
    ensures var s := Run(Initial(pictures), actions);
            Draws(s.done) + Draws(s.queue) == AllAsked(actions)
  {
    hide Step, Legal, Draws, Unmoved;
    var s0 := Initial(pictures);
    if actions == [] {
      NoDraws();
    } else {
      var n := |actions| - 1;
      assert forall i | 0 <= i < n :: actions[..n][..i] == actions[..i];
      DrawnInOrder(pictures, actions[..n]);
      StepTakesWhatIsAsked(Run(s0, actions[..n]), actions[n]);
    }
  }

  lemma NoDraws()
    ensures Draws([]) == []
  {
  }

  // Meaning

  /** The same actions without a queue: everything is drawn at once. */
  function Plain(c: Canvas, actions: seq<Action>, pictures: nat -> Canvas): Canvas
    requires AllLegal(actions)
  {
    if actions == [] then c else
    var n := |actions| - 1;
    var before := Plain(c, actions[..n], pictures);
    if actions[n].Resize? then before.Resized(actions[n].width, actions[n].height)
    else DrawAll(before, Asked(actions[n]), pictures)
  }

  // A resize does not wait for the queue. What is queued is drawn on the new back
  // buffer, cut off at its edges and not at those of the old one.

  ghost predicate NoCopies(ops: seq<Op>) {
    forall op | op in ops :: !op.Copy?
  }

  /** The colour that the operations leave at a point, if any of them draws there. */
  ghost function TopInk(ops: seq<Op>, pictures: nat -> Canvas, p: Point): Option<Rgb> {
    if ops == [] then None else
    var later := TopInk(ops[1..], pictures, p);
    var ink := Ink(ops[0], Canvas(0, 0, map[]), pictures);
    if later.Some? then later else if p in ink then Some(ink[p]) else None
  }

  lemma {:induction false} TopInkIs(ops: seq<Op>, c: Canvas, pictures: nat -> Canvas, p: Point)
    requires NoCopies(ops)
    ensures TopInk(ops, pictures, p).Some? <==> exists op :: op in ops && p in Ink(op, c, pictures)
  {
    if ops != [] {
      TopInkIs(ops[1..], c, pictures, p);
      SameInk(ops[0], c, Canvas(0, 0, map[]), pictures);
      hide Ink;
    }
  }

  lemma SameInk(op: Op, c: Canvas, d: Canvas, pictures: nat -> Canvas)
    requires !op.Copy?
    ensures Ink(op, c, pictures) == Ink(op, d, pictures)
  {
  }

  lemma {:induction false} DrawAllAt(c: Canvas, ops: seq<Op>, pictures: nat -> Canvas, p: Point)
    requires NoCopies(ops)
    ensures var d, top := DrawAll(c, ops, pictures), TopInk(ops, pictures, p);
            d.w == c.w && d.h == c.h && d.At(p) == if c.Holds(p) && top.Some? then top else c.At(p)
    decreases |ops|
  {
    if ops != [] {
      var op := ops[0];
      SameInk(op, c, Canvas(0, 0, map[]), pictures);
      FlipInk(c, pictures);
      hide Ink;
      OverlayAt(c, Ink(op, c, pictures), p);
      DrawAllAt(if op.Flip? then c else Drawn(c, op, pictures), ops[1..], pictures, p);
    }
  }

  lemma FlipInk(c: Canvas, pictures: nat -> Canvas)
    ensures Ink(Flip, c, pictures) == map[]
  {
  }

  lemma SameCanvas(a: Canvas, b: Canvas)
    requires a.w == b.w && a.h == b.h && forall p: Point :: a.At(p) == b.At(p)
    ensures a == b
  {
    forall p | p in a.px || p in b.px
      ensures p in a.px && p in b.px && a.px[p] == b.px[p]
    {
      assert a.At(p) == b.At(p);
    }
  }

  /** What waits draws nothing inside the new size but outside the old back buffer. */
  ghost predicate Harmless(s: State, w: nat, h: nat) {
    forall op, p | op in s.queue && p in Ink(op, s.view.back, s.pictures) && 0 <= p.0 < w && 0 <= p.1 < h ::
      s.view.back.Holds(p)
  }

  ghost predicate HarmlessAt(s: State, w: nat, h: nat, p: Point) {
    0 <= p.0 < w && 0 <= p.1 < h && TopInk(s.queue, s.pictures, p).Some? ==> s.view.back.Holds(p)
  }

  lemma HarmlessPoints(s: State, w: nat, h: nat)
    requires NoCopies(s.queue)
    ensures Harmless(s, w, h) <==> forall p: Point :: HarmlessAt(s, w, h, p)
  {
    forall p: Point
      ensures TopInk(s.queue, s.pictures, p).Some? <==> exists op :: op in s.queue && p in Ink(op, s.view.back, s.pictures)
    {
      TopInkIs(s.queue, s.view.back, s.pictures, p);
    }
    hide Ink, TopInk;
    if Harmless(s, w, h) {
      forall p: Point
        ensures HarmlessAt(s, w, h, p)
      {
      }
    }
    if forall p: Point :: HarmlessAt(s, w, h, p) {
      forall op, p | op in s.queue && p in Ink(op, s.view.back, s.pictures) && 0 <= p.0 < w && 0 <= p.1 < h
        ensures s.view.back.Holds(p)
      {
        assert HarmlessAt(s, w, h, p);
      }
    }
  }

  lemma ResizedAt(c: Canvas, w: nat, h: nat, p: Point)
    ensures c.Resized(w, h).At(p) == if 0 <= p.0 < w && 0 <= p.1 < h then c.At(p) else None
  {
  }

  lemma OutcomeAfterResize(s: State, w: nat, h: nat)
    ensures Outcome(Step(s, Resize(w, h))) == DrawAll(s.view.back.Resized(w, h), s.queue, s.pictures)
  {
    ReadjustAdds(s.(view := NewSize(s.view, w, h)));
    hide Readjust, Drawn, Taken, Canvas.Resized;
  }

  lemma ResizeCommutesAt(s: State, w: nat, h: nat, p: Point)
    requires NoCopies(s.queue) && s.view.back.Valid()
    ensures Outcome(Step(s, Resize(w, h))).At(p) == Outcome(s).Resized(w, h).At(p) <==> HarmlessAt(s, w, h, p)
    ensures var a, b := Outcome(Step(s, Resize(w, h))), Outcome(s).Resized(w, h); a.w == b.w && a.h == b.h
  {
    OutcomeAfterResize(s, w, h);
    DrawAllAt(s.view.back.Resized(w, h), s.queue, s.pictures, p);
    DrawAllAt(s.view.back, s.queue, s.pictures, p);
    ResizedAt(s.view.back, w, h, p);
    ResizedAt(Outcome(s), w, h, p);
    assert p in s.view.back.px ==> s.view.back.Holds(p);
    hide Step, DrawAll, TopInk, Canvas.Resized;
  }

  /** A resize with something queued, copies aside, gives what it gives when
      everything is drawn first if and only if it is harmless. */
  lemma ResizeCommutesExactlyWhenHarmless(s: State, w: nat, h: nat)
    requires NoCopies(s.queue) && s.view.back.Valid()
    ensures Outcome(Step(s, Resize(w, h))) == Outcome(s).Resized(w, h) <==> Harmless(s, w, h)
  {
    HarmlessPoints(s, w, h);
    var a, b := Outcome(Step(s, Resize(w, h))), Outcome(s).Resized(w, h);
    hide Step, Outcome, Harmless, HarmlessAt, Canvas.Resized;
    forall p: Point
      ensures a.At(p) == b.At(p) <==> HarmlessAt(s, w, h, p)
    {
      ResizeCommutesAt(s, w, h, p);
    }
    ResizeCommutesAt(s, w, h, (0, 0));
    if forall p: Point :: HarmlessAt(s, w, h, p) {
      SameCanvas(a, b);
    }
  }

  /** At every resize nothing waits, or what waits is harmless. */
  ghost predicate ResizesHarmless(s: State, actions: seq<Action>)
    requires AllLegal(actions)
  {
    forall i | 0 <= i < |actions| :: actions[i].Resize? ==> ResizeHarmless(Run(s, actions[..i]), actions[i])
  }

  ghost predicate ResizeHarmless(s: State, a: Action)
    requires a.Resize?
  {
    s.queue == [] || (NoCopies(s.queue) && Harmless(s, a.width, a.height))
  }

  lemma HarmlessResize(s: State, a: Action)
    requires a.Resize? && s.view.Valid() && ResizeHarmless(s, a)
    ensures Outcome(Step(s, a)) == Outcome(s).Resized(a.width, a.height) && Step(s, a).pictures == s.pictures
  {
    ResizeCommutesExactlyWhenHarmless(s, a.width, a.height);
    ReadjustAdds(s.(view := NewSize(s.view, a.width, a.height)));
    hide Readjust, Outcome, Taken, Harmless;
  }

  /** Holding operations back is invisible, if every resize is harmless: what is
      drawn, with what is still to be drawn, is what plain drawing gives. */
  lemma {:induction false} QueueIsInvisible(pictures: nat -> Canvas, actions: seq<Action>)
    requires AllLegal(actions) && AllUnmoved(Initial(pictures), actions) && ResizesHarmless(Initial(pictures), actions)
    ensures var s := Run(Initial(pictures), actions);
            s.pictures == pictures
            && DrawAll(s.view.back, s.queue, pictures) == Plain(Initial(pictures).view.back, actions, pictures)
            && (s.queue == [] ==> s.view.back == Plain(Initial(pictures).view.back, actions, pictures))
  {
    hide Legal, Unmoved, Drawn, Asked, Readjust, ResizeHarmless, View.Valid, Step;
    var s0 := Initial(pictures);
    if actions != [] {
      var n := |actions| - 1;
      assert forall i | 0 <= i < n :: actions[..n][..i] == actions[..i];
      QueueIsInvisible(pictures, actions[..n]);
      var s, a := Run(s0, actions[..n]), actions[n];
      if a.Resize? {
        ReachableViews(pictures, actions[..n]);
        HarmlessResize(s, a);
      } else {
        StepTakesWhatIsAsked(s, a);
      }
    }
  }

  lemma OvertakingState(pictures: nat -> Canvas, frame: Op, fill: Op)
    requires frame.Frame? && fill.Fill?
    ensures var s := Step(Step(Step(Step(Initial(pictures), Draw(frame)), Draw(fill)), Resize(0, 0)), Resize(1, 1));
            s.queue == [frame, fill, Flip] && s.view.back == Canvas(1, 1, map[]) && s.pictures == pictures
  {
    var s0 := Initial(pictures);
    var s1 := Step(s0, Draw(frame));
    assert s1 == s0.(queue := [frame]);
    var s2 := Step(s1, Draw(fill));
    assert s2 == s0.(queue := [frame, fill]);
    var s3 := Step(s2, Resize(0, 0));
    assert s3 == s2.(view := NewSize(s2.view, 0, 0));
  }

  lemma FillLast(c: Canvas, frame: Op, fill: Op, pictures: nat -> Canvas)
    requires frame.Frame? && fill.Fill? && fill == Fill(0, 0, 1, 1, fill.color) && c.w == c.h == 1
    ensures DrawAll(c, [frame, fill, Flip], pictures).At((0, 0)) == Some(fill.color)
  {
    var after := Drawn(c, frame, pictures);
    OverlayAt(after, Ink(fill, after, pictures), (0, 0));
    assert Drawn(after, fill, pictures).At((0, 0)) == Some(fill.color);
    hide Drawn, Ink;
    var ops := [frame, fill, Flip];
    assert ops[1..] == [fill, Flip] && [fill, Flip][1..] == [Flip];
    DrawOne(Drawn(after, fill, pictures), Flip, pictures);
    assert DrawAll(after, [fill, Flip], pictures) == DrawAll(Drawn(after, fill, pictures), [Flip], pictures);
  }

  /** A resize overtakes what is queued: a fill that waits behind an undecoded
      frame survives a resize that would have cut it off. */
  lemma ResizeOvertakes(pictures: nat -> Canvas, c: Rgb)
    ensures var actions := [Draw(Frame(0, 0, 1, 1, 0)), Draw(Fill(0, 0, 1, 1, c)), Resize(0, 0), Resize(1, 1)];
            AllLegal(actions) &&
            var s := Run(Initial(pictures), actions);
            Outcome(s).At((0, 0)) == Some(c) && Plain(Initial(pictures).view.back, actions, pictures).At((0, 0)) == None
  {
    var frame, fill := Frame(0, 0, 1, 1, 0), Fill(0, 0, 1, 1, c);
    var s0 := Initial(pictures);
    OvertakingState(pictures, frame, fill);
    FillLast(Canvas(1, 1, map[]), frame, fill, pictures);
    hide Step, Drawn, Ink, Legal, DrawAll, Asked, Initial;
    var a, b, d, e := Draw(frame), Draw(fill), Resize(0, 0), Resize(1, 1);
    assert Legal(a) && Legal(b) && Legal(d) && Legal(e) by { AlwaysLegal(a); AlwaysLegal(b); AlwaysLegal(d); AlwaysLegal(e); }
    FourSteps(s0, a, b, d, e);
    PlainLast(s0.view.back, [a, b, d], 1, 1, pictures);
    PlainLast(s0.view.back, [a, b], 0, 0, pictures);
    assert [a, b] + [d] == [a, b, d] && [a, b, d] + [e] == [a, b, d, e];
  }

  lemma AlwaysLegal(a: Action)
    requires !a.BlitImage?
    ensures Legal(a)
  {
  }

  lemma PlainLast(c: Canvas, before: seq<Action>, w: nat, h: nat, pictures: nat -> Canvas)
    requires AllLegal(before)
    ensures AllLegal(before + [Resize(w, h)])
    ensures Plain(c, before + [Resize(w, h)], pictures) == Plain(c, before, pictures).Resized(w, h)
  {
    AlwaysLegal(Resize(w, h));
    hide Legal, DrawAll, Asked;
    assert (before + [Resize(w, h)])[..|before|] == before;
  }

  lemma FourSteps(s: State, a: Action, b: Action, c: Action, d: Action)
    requires Legal(a) && Legal(b) && Legal(c) && Legal(d)
    ensures AllLegal([a, b, c, d]) && AllLegal([a, b, c]) && AllLegal([a, b])
    ensures Run(s, [a, b, c, d]) == Step(Step(Step(Step(s, a), b), c), d)
  {
    hide Step, Legal;
    RunLast(s, [], a);
    RunLast(s, [a], b);
    RunLast(s, [a, b], c);
    RunLast(s, [a, b, c], d);
    assert [] + [a] == [a] && [a] + [b] == [a, b] && [a, b] + [c] == [a, b, c] && [a, b, c] + [d] == [a, b, c, d];
  }

  // Flushing

  ghost predicate PromiseOpen(s: State) {
    s.waiting ==> s.queue != []
  }

  /** From s to t no flush promise was kept, and an open one has cause to be. */
  ghost predicate Quiet(s: State, t: State) {
    t.resolved == s.resolved && t.waiting == s.waiting && (s.queue != [] ==> t.queue != [])
  }

  lemma ChangePosQuiet(s: State, dx: int, dy: int)
    ensures Quiet(s, ChangePos(s, dx, dy))
  {
  }

  lemma ChangeSizeQuiet(s: State, size: Option<(nat, nat)>)
    ensures Quiet(s, ChangeSize(s, size))
  {
    hide View.MovedX, View.MovedY, WantedWidth, WantedHeight, View.Damage, View.Exec;
  }

  lemma {:induction false} ScanSettles(s: State)
    requires PromiseOpen(s)
    ensures PromiseOpen(Scan(s))
    ensures s.resolved <= Scan(s).resolved
    ensures Scan(s).resolved != s.resolved ==> s.waiting && Scan(s).queue == []
    ensures s.waiting && Scan(s).queue == [] ==> Scan(s).resolved == s.resolved + 1
    decreases |s.queue|
  {
    hide View.Exec;
    if s.queue != [] && HeadIs(s, s.queue[0]) == Runs && |s.queue| > 1 {
      ScanSettles(s.(queue := s.queue[1..]).Execute(s.queue[0]));
    }
  }

  /** A flush promise is kept only when the queue is empty, and an open promise
      means that it is not. */
  lemma FlushWaitsForQueue(s: State, a: Action)
    requires Legal(a) && PromiseOpen(s)
    ensures PromiseOpen(Step(s, a))
    ensures Step(s, a).resolved != s.resolved ==> Step(s, a).queue == []
    ensures s.waiting && Step(s, a).queue == [] ==> Step(s, a).resolved == s.resolved + 1
  {
    hide ChangeSize, ChangePos, Scan, View.Exec;
    match a
    case Draw(op) => if s.queue == [] { ScanSettles2(s, op); }
    case Move(dx, dy) => ChangePosQuiet(s, dx, dy);
    case Size(size) => ChangeSizeQuiet(s, size);
    case Clip(clip) => ReadjustQuiet(s.(view := s.view.(clip := clip)));
    case Resize(w, h) => ReadjustQuiet(s.(view := NewSize(s.view, w, h)));
    case Resume => ScanSettles(s);
    case _ =>
  }

  lemma ScanSettles2(s: State, op: Op)
    requires PromiseOpen(s) && s.queue == []
    ensures PromiseOpen(Scan(s.(queue := [op]))) && Scan(s.(queue := [op])).resolved == s.resolved
  {
    ScanSettles(s.(queue := [op]));
  }

  lemma ReadjustQuiet(s: State)
    ensures Quiet(s, Readjust(s))
  {
    hide ChangeSize, ChangePos;
    var size := Some((s.view.w, s.view.h));
    ChangeSizeQuiet(s, size);
    ChangePosQuiet(ChangeSize(s, size), 0, 0);
  }

  // An image of the wrong size

  /** When every picture is ready, a scan empties the queue if and only if no
      image in it has the wrong size. */
  lemma {:induction false} ScanEmptiesQueue(s: State)
    requires forall op | op in s.queue && (op.Img? || op.Frame?) :: op.id in s.ready
    ensures Scan(s).queue == [] <==> forall op | op in s.queue :: !WrongSize(s, op)
    decreases |s.queue|
  {
    hide View.Exec;
    if s.queue != [] {
      assert s.queue[0] in s.queue;
      if !WrongSize(s, s.queue[0]) {
        var t := s.(queue := s.queue[1..]).Execute(s.queue[0]);
        assert forall op | op in t.queue :: op in s.queue;
        assert forall op | op in s.queue :: op == s.queue[0] || op in t.queue;
        ScanEmptiesQueue(t);
      }
    }
  }

  ghost predicate Stuck(s: State, op: Op) {
    op in s.queue && WrongSize(s, op)
  }

  /** Still stuck, and no flush promise was kept. */
  ghost predicate StillStuck(s: State, t: State, op: Op) {
    Stuck(t, op) && t.resolved == s.resolved
  }

  lemma {:induction false} ScanStaysStuck(s: State, op: Op)
    requires Stuck(s, op)
    ensures StillStuck(s, Scan(s), op)
    decreases |s.queue|
  {
    hide View.Exec;
    if HeadIs(s, s.queue[0]) == Runs {
      ScanStaysStuck(s.(queue := s.queue[1..]).Execute(s.queue[0]), op);
    }
  }

  lemma MoveStaysStuck(s: State, dx: int, dy: int, op: Op)
    requires Stuck(s, op)
    ensures StillStuck(s, ChangePos(s, dx, dy), op)
  {
  }

  lemma SizeStaysStuck(s: State, size: Option<(nat, nat)>, op: Op)
    requires Stuck(s, op)
    ensures StillStuck(s, ChangeSize(s, size), op)
  {
    hide View.MovedX, View.MovedY, WantedWidth, WantedHeight, View.Damage, View.Exec;
  }

  lemma StepStaysStuck(s: State, a: Action, op: Op)
    requires Legal(a) && Stuck(s, op)
    ensures StillStuck(s, Step(s, a), op)
  {
    hide ChangeSize, ChangePos, Scan, View.Exec;
    match a
    case Move(dx, dy) => MoveStaysStuck(s, dx, dy, op);
    case Size(size) => SizeStaysStuck(s, size, op);
    case Clip(clip) => ReadjustStaysStuck(s.(view := s.view.(clip := clip)), op);
    case Resize(w, h) => ReadjustStaysStuck(s.(view := NewSize(s.view, w, h)), op);
    case Resume => ScanStaysStuck(s, op);
    case _ =>
  }

  lemma ReadjustStaysStuck(s: State, op: Op)
    requires Stuck(s, op)
    ensures StillStuck(s, Readjust(s), op)
  {
    hide ChangeSize, ChangePos;
    var size := Some((s.view.w, s.view.h));
    SizeStaysStuck(s, size, op);
    MoveStaysStuck(ChangeSize(s, size), 0, 0, op);
  }

  /** Once an image of the wrong size is queued, it stays queued whatever happens,
      and no flush promise is ever kept again. */
  lemma {:induction false} WrongImageBlocksForever(s: State, actions: seq<Action>, op: Op)
    requires AllLegal(actions) && Stuck(s, op)
    ensures StillStuck(s, Run(s, actions), op)
  {
    hide Step, Legal;
    if actions != [] {
      var before := actions[..|actions| - 1];
      WrongImageBlocksForever(s, before, op);
      StepStaysStuck(Run(s, before), actions[|actions| - 1], op);
    }
  }
}
