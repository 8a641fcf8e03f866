/** The server-message loop as a machine of atomic steps, and the proof that the
    way the stream is cut into arrivals does not matter. */
module UpdateLoop {
  import opened Bytes
  import opened Tiles
  import opened RectSteps

  const ENCODING_RAW: int := 0
  const ENCODING_RRE: int := 2
  const ENCODING_HEXTILE: int := 5
  const PSEUDO_DESKTOP_SIZE: int := -223
  const PSEUDO_LAST_RECT: int := -224
  const PSEUDO_QEMU_KEY: int := -258
  const PSEUDO_MOUSE_BUTTONS: int := -316

  datatype RectHeader = RectHeader(rect: Rect, encoding: int)

  /** Everything the connection remembers between two arrivals. */
  datatype Conn = Conn(
    live: bool,
    rects: nat, header: Option<RectHeader>,
    lines: nat, subrects: nat, hex: HexState,
    fbW: nat, fbH: nat, depth8: bool,
    supportsContinuous: bool, enabledContinuous: bool)

  ghost predicate ConnOk(c: Conn) {
    && HexOk(c.hex)
    && (c.header.Some? ==> c.rects > 0)
    && (c.header.Some? && c.header.value.encoding == ENCODING_HEXTILE ==> HexActive(c.hex, c.header.value.rect))
    && (!(c.header.Some? && c.header.value.encoding == ENCODING_HEXTILE) ==> c.hex.tiles == 0)
  }

  /** What ends an update: the flip and, unless the server pushes, a new request. */
  function EndUpdate(c: Conn): seq<Event> {
    if c.enabledContinuous then [Flip] else [Flip, UpdateRequest(c.fbW, c.fbH)]
  }

  /** The end of a rectangle, and of the update when it was the last one. */
  function FinishRect(c: Conn, taken: nat, out: seq<Event>): Step<Conn>
    requires c.rects > 0
  {
    Go(c.(rects := c.rects - 1, header := None), taken, out + (if c.rects == 1 then EndUpdate(c) else []))
  }

  function SignedEncoding(s: seq<byte>): int
    requires |s| == 4
  {
    var n := BigEndian(s);
    if n < TWO_31 then n else n - TWO_32
  }

  function RawRect(c: Conn, r: Rect, q: seq<byte>): Step<Conn>
    requires c.rects > 0
  {
    match RawStep(c.lines, r, c.depth8, q)
    case Wait => Wait
    case Stop(e) => Stop(e)
    case Go(l, n, out) => Go(c.(lines := l), n, out)
    case Done(l, n, out) => FinishRect(c.(lines := l), n, out)
  }

  function RreRect(c: Conn, r: Rect, q: seq<byte>): Step<Conn>
    requires c.rects > 0
  {
    match RreStep(c.subrects, r, q)
    case Wait => Wait
    case Stop(e) => Stop(e)
    case Go(s, n, out) => Go(c.(subrects := s), n, out)
    case Done(s, n, out) => FinishRect(c.(subrects := s), n, out)
  }

  ghost function HexRect(c: Conn, r: Rect, q: seq<byte>): Step<Conn>
    requires c.rects > 0 && HexOk(c.hex) && HexActive(c.hex, r)
  {
    match HexStep(c.hex, r, q)
    case Wait => Wait
    case Stop(e) => Stop(e)
    case Go(x, n, out) => Go(c.(hex := x), n, out)
    case Done(x, n, out) => FinishRect(c.(hex := x), n, out)
  }

  function PseudoRect(c: Conn, h: RectHeader): Step<Conn>
    requires c.rects > 0
  {
    if h.encoding == PSEUDO_LAST_RECT then FinishRect(c.(rects := 1), 0, [])
    else if h.encoding == PSEUDO_DESKTOP_SIZE then
      FinishRect(c.(fbW := h.rect.w, fbH := h.rect.h), 0,
                 [Event.Resize(h.rect.w, h.rect.h)]
                 + (if c.enabledContinuous then [EnableUpdates(h.rect.w, h.rect.h)] else []))
    else if h.encoding == PSEUDO_QEMU_KEY || h.encoding == PSEUDO_MOUSE_BUTTONS then FinishRect(c, 0, [])
    else Stop(Unmodelled)
  }

  ghost function RectStep(c: Conn, h: RectHeader, q: seq<byte>): Step<Conn>
    requires ConnOk(c) && c.header == Some(h)
  {
    if h.encoding == ENCODING_RAW then RawRect(c, h.rect, q)
    else if h.encoding == ENCODING_RRE then RreRect(c, h.rect, q)
    else if h.encoding == ENCODING_HEXTILE then HexRect(c, h.rect, q)
    else PseudoRect(c, h)
  }

  /** A message type byte, with nothing else in progress. */
  function MessageStep(c: Conn, q: seq<byte>): Step<Conn>
    requires c.rects == 0
  {
    if q == [] then Wait
    else if q[0] == 0 then
      if |q| < 4 then Wait else
      var n := BigEndian(q[2..4]);
      Go(c.(rects := n), 4, if n == 0 then EndUpdate(c) else [])
    else if q[0] == 2 then Go(c, 1, [Bell])
    else if q[0] == 150 then
      var first := !c.supportsContinuous;
      Go(c.(supportsContinuous := true, enabledContinuous := first), 1,
         if first then [EnableUpdates(c.fbW, c.fbH)] else [])
    else if q[0] == 1 then Stop(Failed)
    else if q[0] in {3, 248, 250} then Stop(Unmodelled)
    else Go(c.(live := false), 1, [Failed])  // the loop goes on all the same
  }

  function HeaderAt(q: seq<byte>): RectHeader
    requires |q| >= 12
  {
    RectHeader(Rect(BigEndian(q[0..2]), BigEndian(q[2..4]), BigEndian(q[4..6]), BigEndian(q[6..8])),
               SignedEncoding(q[8..12]))
  }

  function HeaderStep(c: Conn, q: seq<byte>): Step<Conn>
    requires c.rects > 0
  {
    if |q| < 12 then Wait else Go(c.(header := Some(HeaderAt(q))), 12, [])
  }

  ghost function ConnStep(c: Conn, q: seq<byte>): Step<Conn>
    requires ConnOk(c)
  {
    if c.rects == 0 then MessageStep(c, q)
    else if c.header == None then HeaderStep(c, q)
    else RectStep(c, c.header.value, q)
  }

  // Termination: steps that take nothing finish a rectangle or start a decoder.

  ghost function Idle(c: Conn): nat {
    if c.header == None then 0
    else if c.header.value.encoding == ENCODING_RAW then (if c.lines == 0 then 1 else 0)
    else if c.header.value.encoding == ENCODING_HEXTILE then (if c.hex.tiles == 0 then 1 else 0)
    else 0
  }

  lemma HexStepKeeps(hs: HexState, r: Rect, q: seq<byte>)
    requires HexOk(hs) && HexActive(hs, r)
    ensures match HexStep(hs, r, q)
            case Go(x, n, _) => HexOk(x) && HexActive(x, r) && n <= |q| && x.tiles > 0 && (n > 0 || hs.tiles == 0)
            case Done(x, n, _) => HexOk(x) && x.tiles == 0 && n <= |q|
            case _ => true
  {
  }

  /** A step progresses: it takes bytes, ends a rectangle or starts a decoder. */
  ghost predicate Progresses(c: Conn, q: seq<byte>, s: Step<Conn>) {
    s.Go? ==> ConnOk(s.state) && s.taken <= |q|
              && (s.taken > 0 || s.state.rects < c.rects || (s.state.rects == c.rects && Idle(s.state) < Idle(c)))
  }

  lemma RawRectProgress(c: Conn, h: RectHeader, q: seq<byte>)
    requires ConnOk(c) && c.header == Some(h) && h.encoding == ENCODING_RAW
    ensures Progresses(c, q, RawRect(c, h.rect, q))
  {
    if !(h.rect.w == 0 || h.rect.h == 0) && c.lines > 0 {
      assert BytesPerLine(h.rect, c.depth8) > 0;
    }
  }

  lemma RreRectProgress(c: Conn, h: RectHeader, q: seq<byte>)
    requires ConnOk(c) && c.header == Some(h) && h.encoding == ENCODING_RRE
    ensures Progresses(c, q, RreRect(c, h.rect, q))
  {
  }

  lemma HexRectProgress(c: Conn, h: RectHeader, q: seq<byte>)
    requires ConnOk(c) && c.header == Some(h) && h.encoding == ENCODING_HEXTILE
    ensures Progresses(c, q, HexRect(c, h.rect, q))
  {
    HexStepKeeps(c.hex, h.rect, q);
  }

  lemma PseudoRectProgress(c: Conn, h: RectHeader, q: seq<byte>)
    requires ConnOk(c) && c.header == Some(h)
    requires h.encoding !in {ENCODING_RAW, ENCODING_RRE, ENCODING_HEXTILE}
    ensures Progresses(c, q, PseudoRect(c, h))
  {
  }

  lemma HeaderProgress(c: Conn, q: seq<byte>)
    requires ConnOk(c) && c.rects > 0 && c.header == None
    ensures Progresses(c, q, HeaderStep(c, q))
  {
  }

  lemma MessageProgress(c: Conn, q: seq<byte>)
    requires ConnOk(c) && c.rects == 0
    ensures Progresses(c, q, MessageStep(c, q))
  {
  }

  lemma StepProgress(c: Conn, q: seq<byte>)
    requires ConnOk(c)
    ensures Progresses(c, q, ConnStep(c, q))
  {
    if c.rects == 0 {
      MessageProgress(c, q);
    } else if c.header == None {
      HeaderProgress(c, q);
    } else {
      var h := c.header.value;
      if h.encoding == ENCODING_RAW {
        RawRectProgress(c, h, q);
      } else if h.encoding == ENCODING_RRE {
        RreRectProgress(c, h, q);
      } else if h.encoding == ENCODING_HEXTILE {
        HexRectProgress(c, h, q);
      } else {
        PseudoRectProgress(c, h, q);
      }
    }
  }

  /** Where a run ends up: the state, the bytes left, and all it has done. */
  datatype Progress = Progress(c: Conn, rest: seq<byte>, out: seq<Event>)

  function After(out: seq<Event>, p: Progress): Progress {
    Progress(p.c, p.rest, out + p.out)
  }

  lemma AfterTwice(a: seq<Event>, b: seq<Event>, p: Progress)
    ensures After(a, After(b, p)) == After(a + b, p)
    ensures After([], p) == p
  {
    assert a + (b + p.out) == a + b + p.out;
  }

  ghost function Run(c: Conn, q: seq<byte>): Progress
    requires ConnOk(c)
    decreases |q|, c.rects, Idle(c)
  {
    match ConnStep(c, q)
    case Wait => Progress(c, q, [])
    case Stop(e) => Progress(c.(live := false), q, [e])
    case Done(c', n, out) => Progress(c, q, [])
    case Go(c', n, out) =>
      StepProgress(c, q);
      var p := Run(c', q[n..]);
      After(out, p)
  }

  // More bytes never change a decision already possible.

  lemma BudgetIsStable(tile: Rect, q: seq<byte>, more: seq<byte>)
    requires HexBudget(tile, q) != NeedMore
    ensures HexBudget(tile, q + more) == HexBudget(tile, q)
  {
  }

  lemma HexStepIsStable(hs: HexState, r: Rect, q: seq<byte>, more: seq<byte>)
    requires HexOk(hs) && HexActive(hs, r) && HexStep(hs, r, q) != Wait
    ensures HexStep(hs, r, q + more) == HexStep(hs, r, q)
  {
    if hs.tiles > 0 {
      var tile := TileRect(r, HEX_TILE, hs.totalTiles - hs.tiles);
      BudgetIsStable(tile, q, more);
      if HexBudget(tile, q).Bytes? {
        var n := HexBudget(tile, q).n;
        assert (q + more)[..n] == q[..n];
      }
    }
  }

  lemma RreStepIsStable(subrects: nat, r: Rect, q: seq<byte>, more: seq<byte>)
    requires RreStep(subrects, r, q) != Wait
    ensures RreStep(subrects, r, q + more) == RreStep(subrects, r, q)
  {
    var p := q + more;
    assert p[..4] == q[..4] && p[4..8] == q[4..8];
    if subrects > 0 {
      assert p[4..6] == q[4..6] && p[6..8] == q[6..8] && p[8..10] == q[8..10] && p[10..12] == q[10..12];
    }
  }

  lemma RawStepIsStable(lines: nat, r: Rect, depth8: bool, q: seq<byte>, more: seq<byte>)
    requires RawStep(lines, r, depth8, q) != Wait
    ensures RawStep(lines, r, depth8, q + more) == RawStep(lines, r, depth8, q)
  {
    var n := BytesPerLine(r, depth8);
    if |q| >= n {
      assert (q + more)[..n] == q[..n];
    }
  }

  lemma MessageStepIsStable(c: Conn, q: seq<byte>, more: seq<byte>)
    requires c.rects == 0 && MessageStep(c, q) != Wait
    ensures MessageStep(c, q + more) == MessageStep(c, q)
  {
    assert |q| >= 4 ==> (q + more)[2..4] == q[2..4];
  }

  lemma HeaderIsStable(q: seq<byte>, more: seq<byte>)
    requires |q| >= 12
    ensures HeaderAt(q + more) == HeaderAt(q)
  {
    var p := q + more;
    assert p[0..2] == q[0..2] && p[2..4] == q[2..4] && p[4..6] == q[4..6] && p[6..8] == q[6..8] && p[8..12] == q[8..12];
  }

  lemma RectStepIsStable(c: Conn, h: RectHeader, q: seq<byte>, more: seq<byte>)
    requires ConnOk(c) && c.header == Some(h) && RectStep(c, h, q) != Wait
    ensures RectStep(c, h, q + more) == RectStep(c, h, q)
  {
    hide RawStep, RreStep, HexStep;
    if h.encoding == ENCODING_RAW {
      RawStepIsStable(c.lines, h.rect, c.depth8, q, more);
    } else if h.encoding == ENCODING_RRE {
      RreStepIsStable(c.subrects, h.rect, q, more);
    } else if h.encoding == ENCODING_HEXTILE {
      HexStepIsStable(c.hex, h.rect, q, more);
    }
  }

  lemma StepIsStable(c: Conn, q: seq<byte>, more: seq<byte>)
    requires ConnOk(c) && ConnStep(c, q) != Wait
    ensures ConnStep(c, q + more) == ConnStep(c, q)
  {
    hide MessageStep, HeaderAt, RectStep;
    if c.rects == 0 {
      MessageStepIsStable(c, q, more);
    } else if c.header == None {
      HeaderIsStable(q, more);
    } else {
      RectStepIsStable(c, c.header.value, q, more);
    }
  }

  /** A step of a rectangle is possible as soon as the bytes are there that it takes. */
  lemma RectStepNeedsOnly(c: Conn, h: RectHeader, q: seq<byte>, k: nat)
    requires ConnOk(c) && c.header == Some(h) && RectStep(c, h, q).Go? && RectStep(c, h, q).taken <= k <= |q|
    ensures RectStep(c, h, q[..k]) != Wait
  {
    if h.encoding == ENCODING_HEXTILE && c.hex.tiles > 0 {
      var tile := TileRect(h.rect, HEX_TILE, c.hex.totalTiles - c.hex.tiles);
      assert HexBudget(tile, q) == Bytes(RectStep(c, h, q).taken);
      hide TileRect, HexPaint, ConnOk;
      BudgetNeedsOnly(tile, q, k);
    }
  }

  lemma BudgetNeedsOnly(tile: Rect, q: seq<byte>, k: nat)
    requires HexBudget(tile, q).Bytes? && HexBudget(tile, q).n <= k <= |q|
    ensures HexBudget(tile, q[..k]) == HexBudget(tile, q)
  {
  }

  lemma StepNeedsOnly(c: Conn, q: seq<byte>, k: nat)
    requires ConnOk(c) && ConnStep(c, q).Go? && ConnStep(c, q).taken <= k <= |q|
    ensures ConnStep(c, q[..k]) == ConnStep(c, q)
  {
    assert q == q[..k] + q[k..];
    if c.rects > 0 && c.header.Some? {
      RectStepNeedsOnly(c, c.header.value, q, k);
    }
    assert ConnStep(c, q[..k]) != Wait;
    StepIsStable(c, q[..k], q[k..]);
  }

  lemma NeverDone(c: Conn, q: seq<byte>)
    requires ConnOk(c)
    ensures !ConnStep(c, q).Done?
  {
  }

  // An unknown message type

  const KNOWN_TYPES: set<int> := {0, 1, 2, 3, 150, 248, 250}

  /** The branch of the loop that fails the connection and goes on all the same. */
  ghost predicate MeetsUnknown(c: Conn, q: seq<byte>) {
    c.live && c.rects == 0 && q != [] && q[0] !in KNOWN_TYPES
  }

  /** What follows is enough to make the loop do something. */
  predicate MessageReady(q: seq<byte>) {
    q != [] && (q[0] == 0 ==> |q| >= 4)
  }

  /** Somewhere along the run an unknown message type is followed by bytes that the
      loop can act on. */
  ghost predicate Overreads(c: Conn, q: seq<byte>)
    requires ConnOk(c)
    decreases |q|, c.rects, Idle(c)
  {
    match ConnStep(c, q)
    case Go(c', n, _) =>
      StepProgress(c, q);
      if MeetsUnknown(c, q) then MessageReady(q[1..]) else Overreads(c', q[n..])
    case _ => false
  }

  lemma ReadyIsNotWaiting(c: Conn, q: seq<byte>)
    requires c.rects == 0
    ensures MessageStep(c, q) == Wait <==> !MessageReady(q)
  {
  }

  lemma UnknownStep(c: Conn, q: seq<byte>)
    requires ConnOk(c) && MeetsUnknown(c, q)
    ensures ConnStep(c, q) == Go(c.(live := false), 1, [Failed])
  {
  }

  /** No other step fails the connection and goes on. */
  lemma StepKeepsLive(c: Conn, q: seq<byte>)
    requires ConnOk(c) && ConnStep(c, q).Go?
    ensures ConnStep(c, q).state.live <==> c.live && !MeetsUnknown(c, q)
  {
    if c.rects > 0 && c.header.Some? {
      var h := c.header.value;
      hide RawStep, RreStep, HexStep;
      if h.encoding == ENCODING_RAW {
        assert RawRect(c, h.rect, q).state.live == c.live;
      } else if h.encoding == ENCODING_RRE {
        assert RreRect(c, h.rect, q).state.live == c.live;
      } else if h.encoding == ENCODING_HEXTILE {
        assert HexRect(c, h.rect, q).state.live == c.live;
      }
    }
  }

  /** A run that waits at once. */
  lemma RunWaits(c: Conn, q: seq<byte>)
    requires ConnOk(c) && ConnStep(c, q) == Wait
    ensures Run(c, q) == Progress(c, q, []) && !Overreads(c, q)
  {
  }

  lemma RunStops(c: Conn, q: seq<byte>)
    requires ConnOk(c) && ConnStep(c, q).Stop?
    ensures Run(c, q) == Progress(c.(live := false), q, [ConnStep(c, q).why]) && !Overreads(c, q)
  {
  }

  lemma RunGoes(c: Conn, q: seq<byte>)
    requires ConnOk(c) && ConnStep(c, q).Go?
    ensures var s := ConnStep(c, q);
            && ConnOk(s.state) && s.taken <= |q| && Progresses(c, q, s)
            && Run(c, q) == After(s.out, Run(s.state, q[s.taken..]))
            && (!MeetsUnknown(c, q) ==> (Overreads(c, q) <==> Overreads(s.state, q[s.taken..])))
            && (MeetsUnknown(c, q) ==> (Overreads(c, q) <==> MessageReady(q[1..])))
  {
    StepProgress(c, q);
  }

  /** Going on with `more` where a run on q has come to rest is running on all of
      it; a run that has failed takes nothing more. */
  ghost predicate Splits(c: Conn, q: seq<byte>, more: seq<byte>)
    requires ConnOk(c)
  {
    var r := Run(c, q);
    if r.c.live then
      && ConnOk(r.c) && ConnStep(r.c, r.rest) == Wait
      && Run(c, q + more) == After(r.out, Run(r.c, r.rest + more)) && !Overreads(r.c, r.rest + more)
    else Run(c, q + more) == Progress(r.c, r.rest + more, r.out)
  }

  lemma SplitsAtWait(c: Conn, q: seq<byte>, more: seq<byte>)
    requires ConnOk(c) && c.live && !Overreads(c, q + more) && ConnStep(c, q) == Wait
    ensures Splits(c, q, more)
  {
    RunWaits(c, q);
    hide Run, Overreads, ConnStep, ConnOk;
    AfterTwice([], [], Run(c, q + more));
  }

  lemma ReadyStaysReady(q: seq<byte>, more: seq<byte>)
    requires !MessageReady(q + more)
    ensures !MessageReady(q)
  {
  }

  lemma SplitsAtUnknown(c: Conn, q: seq<byte>, more: seq<byte>)
    requires ConnOk(c) && MeetsUnknown(c, q) && !Overreads(c, q + more)
    ensures Splits(c, q, more)
  {
    var dead, p := c.(live := false), q + more;
    UnknownStep(c, q);
    UnknownStep(c, p);
    RunGoes(c, q);
    RunGoes(c, p);
    assert p[1..] == q[1..] + more;
    ReadyStaysReady(q[1..], more);
    ReadyIsNotWaiting(dead, p[1..]);
    ReadyIsNotWaiting(dead, q[1..]);
    RunWaits(dead, q[1..]);
    RunWaits(dead, p[1..]);
  }

  lemma SplitsAtStep(c: Conn, q: seq<byte>, more: seq<byte>)
    requires ConnOk(c) && ConnStep(c, q).Go? && ConnStep(c, q + more) == ConnStep(c, q)
    requires ConnOk(ConnStep(c, q).state) && ConnStep(c, q).taken <= |q|
    requires Splits(ConnStep(c, q).state, q[ConnStep(c, q).taken..], more)
    ensures Splits(c, q, more)
  {
    hide Overreads, ConnStep, ConnOk, Run, Idle, MeetsUnknown, MessageReady, Progresses;
    var s := ConnStep(c, q);
    RunGoes(c, q);
    RunGoes(c, q + more);
    assert (q + more)[s.taken..] == q[s.taken..] + more;
    var p := Run(s.state, q[s.taken..]);
    if p.c.live {
      AfterTwice(s.out, p.out, Run(p.c, p.rest + more));
    }
  }

  /** A run can be interrupted anywhere and resumed, unless it overreads. */
  lemma {:induction false} RunSplits(c: Conn, q: seq<byte>, more: seq<byte>)
    requires ConnOk(c) && c.live && !Overreads(c, q + more)
    ensures Splits(c, q, more)
    decreases |q|, c.rects, Idle(c)
  {
    hide Overreads, ConnStep, ConnOk, Run, Splits, Idle, MeetsUnknown, MessageReady, After;
    var s := ConnStep(c, q);
    NeverDone(c, q);
    if s == Wait {
      SplitsAtWait(c, q, more);
    } else {
      StepIsStable(c, q, more);
      if s.Stop? {
        SplitsAtStop(c, q, more);
      } else if MeetsUnknown(c, q) {
        SplitsAtUnknown(c, q, more);
      } else {
        UnknownStays(c, q, more);
        StepKeepsLive(c, q);
        RunGoes(c, q);
        RunGoes(c, q + more);
        assert (q + more)[s.taken..] == q[s.taken..] + more;
        RunSplits(s.state, q[s.taken..], more);
        SplitsAtStep(c, q, more);
      }
    }
  }

  lemma UnknownStays(c: Conn, q: seq<byte>, more: seq<byte>)
    requires ConnOk(c) && ConnStep(c, q) != Wait
    ensures MeetsUnknown(c, q + more) <==> MeetsUnknown(c, q)
  {
  }

  lemma SplitsAtStop(c: Conn, q: seq<byte>, more: seq<byte>)
    requires ConnOk(c) && ConnStep(c, q).Stop? && ConnStep(c, q + more) == ConnStep(c, q)
    ensures Splits(c, q, more)
  {
    RunStops(c, q);
    RunStops(c, q + more);
    hide Run, Overreads;
  }

  /** Once the connection has failed it stays failed. */
  lemma {:induction false} FailureIsFinal(c: Conn, q: seq<byte>)
    requires ConnOk(c) && !c.live
    ensures !Run(c, q).c.live
    decreases |q|, c.rects, Idle(c)
  {
    NeverDone(c, q);
    if ConnStep(c, q).Go? {
      RunGoes(c, q);
      StepKeepsLive(c, q);
      hide ConnStep, ConnOk, Overreads;
      FailureIsFinal(ConnStep(c, q).state, q[ConnStep(c, q).taken..]);
    }
  }

  /** A stream that leaves the connection live does not overread. */
  lemma {:induction false} LiveNeverOverreads(c: Conn, q: seq<byte>)
    requires ConnOk(c) && Run(c, q).c.live
    ensures !Overreads(c, q)
    decreases |q|, c.rects, Idle(c)
  {
    if ConnStep(c, q).Go? {
      RunGoes(c, q);
      StepKeepsLive(c, q);
      var s := ConnStep(c, q);
      hide ConnStep, ConnOk, Overreads, Run;
      if s.state.live {
        LiveNeverOverreads(s.state, q[s.taken..]);
      } else {
        FailureIsFinal(s.state, q[s.taken..]);
      }
    }
  }

  /** A run that ends live can do no more with the bytes that it leaves. */
  lemma RunRests(c: Conn, q: seq<byte>)
    requires ConnOk(c) && c.live && Run(c, q).c.live
    ensures ConnOk(Run(c, q).c) && ConnStep(Run(c, q).c, Run(c, q).rest) == Wait
  {
    assert q + [] == q;
    LiveNeverOverreads(c, q);
    RunSplits(c, q, []);
    hide Run, ConnStep, ConnOk, Overreads;
  }

  /** No run leaves more bytes than it was given. */
  lemma {:induction false} RestShrinks(c: Conn, q: seq<byte>)
    requires ConnOk(c)
    ensures |Run(c, q).rest| <= |q|
    decreases |q|, c.rects, Idle(c)
  {
    NeverDone(c, q);
    if ConnStep(c, q).Go? {
      RunGoes(c, q);
      hide ConnStep, ConnOk, Overreads;
      RestShrinks(ConnStep(c, q).state, q[ConnStep(c, q).taken..]);
    }
  }

  /** One arrival: ignored once the connection has failed. */
  ghost function Arrive(p: Progress, bytes: seq<byte>): Progress
    requires ConnOk(p.c)
  {
    if p.c.live then After(p.out, Run(p.c, p.rest + bytes)) else p.(rest := p.rest + bytes)
  }

  lemma ArriveOk(p: Progress, bytes: seq<byte>)
    requires ConnOk(p.c)
    ensures ConnOk(Arrive(p, bytes).c)
  {
    if p.c.live {
      RunOk(p.c, p.rest + bytes);
    }
  }

  lemma {:induction false} RunOk(c: Conn, q: seq<byte>)
    requires ConnOk(c)
    ensures ConnOk(Run(c, q).c)
    decreases |q|, c.rects, Idle(c)
  {
    if ConnStep(c, q).Go? {
      StepProgress(c, q);
      RunOk(ConnStep(c, q).state, q[ConnStep(c, q).taken..]);
    }
  }

  ghost function Deliver(p: Progress, arrivals: seq<seq<byte>>): Progress
    requires ConnOk(p.c)
    decreases |arrivals|
  {
    if arrivals == [] then p else
    ArriveOk(p, arrivals[0]);
    Deliver(Arrive(p, arrivals[0]), arrivals[1..])
  }

  /** What arrives after a failure is only kept. */
  lemma {:induction false} FailedDelivers(p: Progress, arrivals: seq<seq<byte>>)
    requires ConnOk(p.c) && !p.c.live
    ensures Deliver(p, arrivals) == p.(rest := p.rest + Concat(arrivals))
    decreases |arrivals|
  {
    hide ConnOk;
    if arrivals == [] {
      assert p.rest + Concat(arrivals) == p.rest;
    } else {
      ArriveOk(p, arrivals[0]);
      FailedDelivers(Arrive(p, arrivals[0]), arrivals[1..]);
      assert p.rest + arrivals[0] + Concat(arrivals[1..]) == p.rest + Concat(arrivals);
    }
  }

  /** A connection at rest, and a stream that it does not overread. */
  ghost predicate Steady(p: Progress, later: seq<byte>) {
    ConnOk(p.c) && p.c.live && ConnStep(p.c, p.rest) == Wait && !Overreads(p.c, p.rest + later)
  }

  lemma ArriveTwice(p: Progress, first: seq<byte>, later: seq<byte>)
    requires ConnOk(p.c) && p.c.live && !Overreads(p.c, p.rest + (first + later))
    ensures var next := Arrive(p, first);
            && ConnOk(next.c) && Arrive(next, later) == Arrive(p, first + later)
            && (next.c.live ==> Steady(next, later))
  {
    hide ConnStep, ConnOk, Overreads, Run;
    assert p.rest + (first + later) == p.rest + first + later;
    RunSplits(p.c, p.rest + first, later);
    ArriveOk(p, first);
    var r := Run(p.c, p.rest + first);
    AfterTwice(p.out, r.out, Run(r.c, r.rest + later));
  }

  /** However a stream is cut into arrivals, the loop makes the same display calls
      and requests in the same order, and stops in the same state at the same
      place, as when the whole stream arrives at once; unless it overreads. */
  lemma {:induction false} CutsDoNotMatter(p: Progress, arrivals: seq<seq<byte>>)
    requires Steady(p, Concat(arrivals))
    ensures Deliver(p, arrivals) == Arrive(p, Concat(arrivals))
    decreases |arrivals|
  {
    if arrivals == [] {
      assert p.rest + [] == p.rest;
      RunWaits(p.c, p.rest);
      assert p.out + [] == p.out;
    } else {
      hide ConnStep, ConnOk, Overreads, Run, Arrive;
      var first, later := arrivals[0], Concat(arrivals[1..]);
      ArriveTwice(p, first, later);
      var next := Arrive(p, first);
      if next.c.live {
        CutsDoNotMatter(next, arrivals[1..]);
      } else {
        FailedDelivers(next, arrivals[1..]);
        FailedArrives(next, later);
      }
    }
  }

  lemma FailedArrives(p: Progress, bytes: seq<byte>)
    requires ConnOk(p.c) && !p.c.live
    ensures Arrive(p, bytes) == p.(rest := p.rest + bytes)
  {
  }

  // Overreading always shows

  /** The bytes up to and with the unknown type byte. */
  ghost function UnknownAt(c: Conn, q: seq<byte>): nat
    requires ConnOk(c) && Overreads(c, q)
    decreases |q|, c.rects, Idle(c)
  {
    RunGoes(c, q);
    var s := ConnStep(c, q);
    if MeetsUnknown(c, q) then 1 else s.taken + UnknownAt(s.state, q[s.taken..])
  }

  /** Cut there, the run has failed and has taken everything; all of the stream at
      once goes on from there. */
  ghost predicate FailsAt(c: Conn, q: seq<byte>, j: nat)
    requires ConnOk(c)
  {
    j <= |q| &&
    var r := Run(c, q[..j]);
    && ConnOk(r.c) && !r.c.live && r.c.rects == 0 && r.rest == []
    && MessageReady(q[j..]) && Run(c, q) == After(r.out, Run(r.c, q[j..]))
  }

  lemma FailsAtUnknown(c: Conn, q: seq<byte>)
    requires ConnOk(c) && MeetsUnknown(c, q) && MessageReady(q[1..])
    ensures FailsAt(c, q, 1)
  {
    var dead := c.(live := false);
    assert q[..1][1..] == [];
    UnknownStep(c, q);
    UnknownStep(c, q[..1]);
    RunGoes(c, q);
    RunGoes(c, q[..1]);
    RunWaits(dead, []);
    hide ConnStep, Overreads;
  }

  lemma FailsAfterStep(c: Conn, q: seq<byte>, j: nat)
    requires ConnOk(c) && ConnStep(c, q).Go? && ConnStep(c, q).taken <= |q| && ConnOk(ConnStep(c, q).state)
    requires FailsAt(ConnStep(c, q).state, q[ConnStep(c, q).taken..], j)
    ensures FailsAt(c, q, ConnStep(c, q).taken + j)
  {
    hide ConnStep, ConnOk, Overreads, Run, Idle, MeetsUnknown, MessageReady, Progresses;
    var s := ConnStep(c, q);
    var k := s.taken + j;
    StepNeedsOnly(c, q, k);
    RunGoes(c, q);
    RunGoes(c, q[..k]);
    assert q[..k][s.taken..] == q[s.taken..][..j] && q[k..] == q[s.taken..][j..];
    var r := Run(s.state, q[s.taken..][..j]);
    AfterTwice(s.out, r.out, Run(r.c, q[k..]));
  }

  lemma UnknownAtSteps(c: Conn, q: seq<byte>)
    requires ConnOk(c) && Overreads(c, q)
    ensures var s := ConnStep(c, q);
            && s.Go? && ConnOk(s.state) && s.taken <= |q|
            && if MeetsUnknown(c, q) then s.taken == 1 && MessageReady(q[1..]) && UnknownAt(c, q) == 1
               else Overreads(s.state, q[s.taken..]) && UnknownAt(c, q) == s.taken + UnknownAt(s.state, q[s.taken..])
  {
    hide MessageReady, HeaderStep, RectStep;
    RunGoes(c, q);
  }

  lemma {:induction false} FailsWhereUnknown(c: Conn, q: seq<byte>)
    requires ConnOk(c) && Overreads(c, q)
    ensures ConnStep(c, q).Go? && ConnStep(c, q).taken <= UnknownAt(c, q) && FailsAt(c, q, UnknownAt(c, q))
    decreases |q|, c.rects, Idle(c)
  {
    hide ConnOk, Overreads, FailsAt, ConnStep, Run, MeetsUnknown, MessageReady, UnknownAt, Idle;
    UnknownAtSteps(c, q);
    var s := ConnStep(c, q);
    if MeetsUnknown(c, q) {
      FailsAtUnknown(c, q);
    } else {
      StepProgress(c, q);
      FailsWhereUnknown(s.state, q[s.taken..]);
      FailsAfterStep(c, q, UnknownAt(s.state, q[s.taken..]));
    }
  }

  /** A failed connection that can go on does something, or leaves fewer bytes. */
  lemma ReadyShows(c: Conn, q: seq<byte>)
    requires ConnOk(c) && c.rects == 0 && MessageReady(q)
    ensures Run(c, q).out != [] || |Run(c, q).rest| < |q|
  {
    ReadyIsNotWaiting(c, q);
    NeverDone(c, q);
    if ConnStep(c, q).Go? {
      RunGoes(c, q);
      RestShrinks(ConnStep(c, q).state, q[ConnStep(c, q).taken..]);
    }
  }

  /** When the stream overreads, the cut right after the unknown type byte gives
      another outcome than the whole stream at once. */
  lemma CutsMatterWhenOverread(p: Progress, s: seq<byte>)
    requires ConnOk(p.c) && p.c.live && ConnStep(p.c, p.rest) == Wait && Overreads(p.c, p.rest + s)
    ensures var k := UnknownAt(p.c, p.rest + s) - |p.rest|;
            0 < k <= |s| && Deliver(p, [s[..k], s[k..]]) != Arrive(p, s)
  {
    hide ConnOk, Overreads, ConnStep, Run, UnknownAt, MessageReady, Deliver, Arrive;
    var q := p.rest + s;
    var j := UnknownAt(p.c, q);
    FailsWhereUnknown(p.c, q);
    UnknownIsLater(p, s);
    var k := j - |p.rest|;
    assert q[..j] == p.rest + s[..k] && q[j..] == s[k..];
    var r := Run(p.c, q[..j]);
    DeliversTwo(p, s[..k], s[k..]);
    ArrivesAll(p, s);
    ReadyShows(r.c, s[k..]);
  }

  /** A connection at rest has not yet come to the unknown type byte. */
  lemma UnknownIsLater(p: Progress, s: seq<byte>)
    requires ConnOk(p.c) && ConnStep(p.c, p.rest) == Wait && Overreads(p.c, p.rest + s)
    ensures UnknownAt(p.c, p.rest + s) > |p.rest|
  {
    var q := p.rest + s;
    hide ConnOk, Overreads, ConnStep, Run, UnknownAt, FailsAt;
    FailsWhereUnknown(p.c, q);
    assert q[..|p.rest|] == p.rest;
    if ConnStep(p.c, q).taken <= |p.rest| {
      StepNeedsOnly(p.c, q, |p.rest|);
    }
  }

  lemma ArrivesAll(p: Progress, s: seq<byte>)
    requires ConnOk(p.c) && p.c.live
    ensures Arrive(p, s) == After(p.out, Run(p.c, p.rest + s))
  {
  }

  /** What arrives after the first arrival has failed is only kept. */
  lemma DeliversTwo(p: Progress, a: seq<byte>, b: seq<byte>)
    requires ConnOk(p.c) && p.c.live && !Run(p.c, p.rest + a).c.live
    ensures var r := Run(p.c, p.rest + a); Deliver(p, [a, b]) == Progress(r.c, r.rest + b, p.out + r.out)
  {
    hide ConnOk, Run;
    ArriveOk(p, a);
    var next := Arrive(p, a);
    assert [a, b][1..] == [b] && [b][1..] == [];
    assert Concat([b]) == b + [];
    FailedDelivers(next, [b]);
  }

  /** Exactly when the stream is not overread, every way to cut it is the same. */
  lemma CutsMatterExactlyWhenOverread(p: Progress, s: seq<byte>)
    requires ConnOk(p.c) && p.c.live && ConnStep(p.c, p.rest) == Wait
    ensures (forall arrivals | Concat(arrivals) == s :: Deliver(p, arrivals) == Arrive(p, s)) <==> !Overreads(p.c, p.rest + s)
  {
    hide ConnOk, Overreads, ConnStep, Run, Arrive, Deliver;
    if Overreads(p.c, p.rest + s) {
      CutsMatterWhenOverread(p, s);
      var k := UnknownAt(p.c, p.rest + s) - |p.rest|;
      ConcatTwo(s, k);
    } else {
      forall arrivals | Concat(arrivals) == s
        ensures Deliver(p, arrivals) == Arrive(p, s)
      {
        CutsDoNotMatter(p, arrivals);
      }
    }
  }

  lemma ConcatTwo(s: seq<byte>, k: nat)
    requires k <= |s|
    ensures Concat([s[..k], s[k..]]) == s
  {
    assert [s[..k], s[k..]][1..] == [s[k..]] && [s[k..]][1..] == [];
    assert Concat([s[k..]]) == s[k..] + [];
  }

  /** The streams that fail the connection are another matter: after an unknown
      message type the loop still parses what has already arrived, and only later
      arrivals are ignored. */
  lemma UnknownTypeDependsOnCuts(c: Conn)
    requires ConnOk(c) && c.live && c.rects == 0
    ensures var p := Progress(c, [], []);
            Arrive(p, [9, 2]).out == [Failed, Bell] && Deliver(p, [[9], [2]]).out == [Failed]
  {
    var p, dead := Progress(c, [], []), c.(live := false);
    assert [] + [9, 2] == [9, 2] && [9, 2][1..] == [2] && [2][1..] == [];
    assert [] + [9] == [9] && [9][1..] == [];
    assert Run(dead, []) == Progress(dead, [], []);
    assert Run(dead, [2]) == Progress(dead, [], [Bell]);
    assert Run(c, [9]) == Progress(dead, [], [Failed]);
    assert Run(c, [9, 2]) == Progress(dead, [], [Failed, Bell]);
    ArriveOk(p, [9]);
    var a := Arrive(p, [9]);
    assert a == Progress(dead, [], [Failed]);
    assert [[9], [2]][1..] == [[2]] && [[2]][1..] == [];
    assert Deliver(a, [[2]]) == Deliver(Arrive(a, [2]), []);
  }
}
